/** Layered contract storage: a transaction cache over a block cache over disk, the access logs, and
    the batch that drives them. */
module Storage {
  import opened Common

  /** Four words: an address, a storage key, a tree key or a value. */
  type Word4 = (nat, nat, nat, nat)

  type Kv = map<Word4, Word4>

  /** The hash of an address and a storage key is left uninterpreted. */
  type TreeKey = (Word4, Word4) -> Word4

  datatype Kind = Read | InitialWrite | RepeatedWrite

  datatype AccessLog = AccessLog(kind: Kind, addr: Word4, key: Word4, pre: Option<Word4>, value: Option<Word4>)

  datatype Store = Store(tx: Kv, block: Kv, logs: seq<AccessLog>, txLogs: seq<AccessLog>)

  const EMPTY: Store := Store(map[], map[], [], [])

  function Lookup(m: Kv, k: Word4): Option<Word4> { if k in m then Some(m[k]) else None }

  /** What is visible between transactions, and inside one. */
  function Committed(s: Store, disk: Kv): Kv { disk + s.block }
  function Visible(s: Store, disk: Kv): Kv { Committed(s, disk) + s.tx }

  // ---- operations on values ----

  /** A read that reaches the disk fills the block cache. */
  function Filled(s: Store, disk: Kv, k: Word4): (r: Store)
    ensures Visible(r, disk) == Visible(s, disk) && Committed(r, disk) == Committed(s, disk)
    ensures r.tx == s.tx && r.logs == s.logs && r.txLogs == s.txLogs
  {
    if k !in s.tx && k !in s.block && k in disk then s.(block := s.block[k := disk[k]]) else s
  }

  function AfterLoad(h: TreeKey, s: Store, disk: Kv, addr: Word4, key: Word4): Store {
    var pre := Lookup(Visible(s, disk), h(addr, key));
    var t := Filled(s, disk, h(addr, key));
    t.(txLogs := t.txLogs + [AccessLog(Read, addr, key, pre, pre)])
  }

  function AfterStore(h: TreeKey, s: Store, disk: Kv, addr: Word4, key: Word4, v: Word4): Store {
    var k := h(addr, key);
    var pre := Lookup(Visible(s, disk), k);
    var kind := if pre.Some? then RepeatedWrite else InitialWrite;
    var t := Filled(s, disk, k);
    t.(tx := t.tx[k := v], txLogs := t.txLogs + [AccessLog(kind, addr, key, pre, Some(v))])
  }

  function AfterSuccess(s: Store): Store { Store(map[], s.block + s.tx, s.logs + s.txLogs, []) }

  /** Clears the block's log and leaves the transaction's. */
  function AfterClear(s: Store): Store { Store(map[], s.block, [], s.txLogs) }

  /** Commit makes the visible state the committed one; rollback goes back to the committed one. */
  lemma CommitAndRollback(s: Store, disk: Kv)
    ensures Committed(AfterSuccess(s), disk) == Visible(s, disk) == Visible(AfterSuccess(s), disk)
    ensures Visible(AfterClear(s), disk) == Committed(s, disk) == Committed(AfterClear(s), disk)
  {
  }

  lemma LoadKeepsView(h: TreeKey, s: Store, disk: Kv, addr: Word4, key: Word4)
    ensures Visible(AfterLoad(h, s, disk, addr, key), disk) == Visible(s, disk)
    ensures Committed(AfterLoad(h, s, disk, addr, key), disk) == Committed(s, disk)
  {
  }

  // ---- the object ----

  class CachedStorage {
    const treeKey: TreeKey
    const disk: Kv
    var tx: Kv
    var block: Kv
    var logs: seq<AccessLog>
    var txLogs: seq<AccessLog>

    constructor (treeKey: TreeKey, disk: Kv)
      ensures View() == EMPTY && this.treeKey == treeKey && this.disk == disk
    {
      this.treeKey, this.disk := treeKey, disk;
      tx, block, logs, txLogs := map[], map[], [], [];
    }

    function View(): Store
      reads this
    {
      Store(tx, block, logs, txLogs)
    }

    /** A read changes nothing that is visible. */
    method GetPreValue(addr: Word4, key: Word4) returns (v: Option<Word4>)
      modifies this`block
      ensures v == Lookup(Visible(old(View()), disk), treeKey(addr, key))
      ensures View() == Filled(old(View()), disk, treeKey(addr, key))
      ensures Visible(View(), disk) == old(Visible(View(), disk))
      ensures Committed(View(), disk) == old(Committed(View(), disk))
    {
      var k := treeKey(addr, key);
      if k in tx {
        v := Some(tx[k]);
      } else if k in block {
        v := Some(block[k]);
      } else if k in disk {
        v := Some(disk[k]);
        block := block[k := disk[k]];
      } else {
        v := None;
      }
    }

    method Sload(addr: Word4, key: Word4) returns (v: Option<Word4>)
      modifies this`block, this`txLogs
      ensures v == Lookup(Visible(old(View()), disk), treeKey(addr, key))
      ensures View() == AfterLoad(treeKey, old(View()), disk, addr, key)
      ensures Visible(View(), disk) == old(Visible(View(), disk))
    {
      v := GetPreValue(addr, key);
      txLogs := txLogs + [AccessLog(Read, addr, key, v, v)];
    }

    method Sstore(addr: Word4, key: Word4, v: Word4)
      modifies this`tx, this`block, this`txLogs
      ensures View() == AfterStore(treeKey, old(View()), disk, addr, key, v)
      ensures Visible(View(), disk) == old(Visible(View(), disk))[treeKey(addr, key) := v]
      ensures Committed(View(), disk) == old(Committed(View(), disk))
    {
      var pre := GetPreValue(addr, key);
      var kind := if pre.Some? then RepeatedWrite else InitialWrite;
      tx := tx[treeKey(addr, key) := v];
      txLogs := txLogs + [AccessLog(kind, addr, key, pre, Some(v))];
    }

    method OnTxSuccess()
      modifies this
      ensures View() == AfterSuccess(old(View()))
      ensures Committed(View(), disk) == old(Visible(View(), disk)) == Visible(View(), disk)
    {
      block, tx := block + tx, map[];
      logs, txLogs := logs + txLogs, [];
    }

    method ClearTxCache()
      modifies this
      ensures View() == AfterClear(old(View()))
      ensures Visible(View(), disk) == old(Committed(View(), disk)) == Committed(View(), disk)
    {
      tx := map[];
      logs := [];
    }
  }

  // ---- transactions and batches ----

  /** What a transaction does to storage; writes read the previous value first. */
  datatype Access = Load(addr: Word4, key: Word4) | Store_(addr: Word4, key: Word4, value: Word4)

  /** A transaction as the storage sees it: its accesses and whether it succeeded in the end. */
  datatype Tx = Tx(accesses: seq<Access>, ok: bool)

  function AfterAccess(h: TreeKey, s: Store, disk: Kv, a: Access): Store {
    match a
    case Load(addr, key) => AfterLoad(h, s, disk, addr, key)
    case Store_(addr, key, v) => AfterStore(h, Filled(s, disk, h(addr, key)), disk, addr, key, v)
  }

  function AfterAccesses(h: TreeKey, s: Store, disk: Kv, accesses: seq<Access>): Store {
    if accesses == [] then s else
      AfterAccess(h, AfterAccesses(h, s, disk, accesses[..|accesses| - 1]), disk, accesses[|accesses| - 1])
  }

  /** The storage and the logs the batch has collected from successful transactions. */
  datatype Batch = Batch(store: Store, collected: seq<AccessLog>)

  function AfterRun(h: TreeKey, b: Batch, s: Store, disk: Kv, tx: Tx): Batch {
    var t := AfterAccesses(h, s, disk, tx.accesses);
    if tx.ok then Batch(AfterSuccess(t), b.collected + t.txLogs) else Batch(t, b.collected)
  }

  function AfterInvoke(h: TreeKey, b: Batch, disk: Kv, tx: Tx): Batch {
    AfterRun(h, b, AfterClear(b.store), disk, tx)
  }

  /** The closing transaction does not clear the cache first. */
  function AfterFinish(h: TreeKey, b: Batch, disk: Kv, tx: Tx): Batch {
    AfterRun(h, b, b.store, disk, tx)
  }

  function AfterAll(h: TreeKey, disk: Kv, txs: seq<Tx>): Batch {
    if txs == [] then Batch(EMPTY, []) else AfterInvoke(h, AfterAll(h, disk, txs[..|txs| - 1]), disk, txs[|txs| - 1])
  }

  class BlockExeManager {
    const storage: CachedStorage
    var collected: seq<AccessLog>

    constructor (treeKey: TreeKey, disk: Kv)
      ensures fresh(storage) && storage.treeKey == treeKey && storage.disk == disk
      ensures View() == Batch(EMPTY, [])
    {
      storage := new CachedStorage(treeKey, disk);
      collected := [];
    }

    function View(): Batch
      reads this, storage
    {
      Batch(storage.View(), collected)
    }

    method RunAccesses(accesses: seq<Access>)
      modifies storage
      ensures storage.View() == AfterAccesses(storage.treeKey, old(storage.View()), storage.disk, accesses)
    {
      ghost var s := storage.View();
      for i := 0 to |accesses|
        invariant storage.View() == AfterAccesses(storage.treeKey, s, storage.disk, accesses[..i])
      {
        assert accesses[..i + 1][..i] == accesses[..i];
        match accesses[i] {
          case Load(addr, key) =>
            var _ := storage.Sload(addr, key);
          case Store_(addr, key, v) =>
            var _ := storage.GetPreValue(addr, key);
            storage.Sstore(addr, key, v);
        }
      }
      assert accesses[..|accesses|] == accesses;
    }

    method Invoke(tx: Tx)
      modifies this, storage
      ensures View() == AfterInvoke(storage.treeKey, old(View()), storage.disk, tx)
    {
      storage.ClearTxCache();
      RunAccesses(tx.accesses);
      if tx.ok {
        collected := collected + storage.txLogs;
        storage.OnTxSuccess();
      }
    }

    /** Hands over the collected logs, unless the closing transaction fails. */
    method FinishBatch(tx: Tx) returns (logs: Option<seq<AccessLog>>)
      modifies this, storage
      ensures var b := AfterFinish(storage.treeKey, old(View()), storage.disk, tx);
              if tx.ok then View() == b.(collected := []) && logs == Some(b.collected) else View() == b && logs == None
    {
      RunAccesses(tx.accesses);
      if !tx.ok { return None; }
      collected := collected + storage.txLogs;
      storage.OnTxSuccess();
      logs, collected := Some(collected), [];
    }
  }
}
