/** The access logs of a batch: exactly when they replay from disk to the state that was committed, and what
    the closing transaction commits. */
module BatchReplay {
  import opened Common
  import opened Storage

  // ---- replaying the logs ----

  function Replay(h: TreeKey, m: Kv, logs: seq<AccessLog>): Kv {
    if logs == [] then m else
      var l := logs[|logs| - 1];
      var below := Replay(h, m, logs[..|logs| - 1]);
      if l.kind.Read? || l.value.None? then below else below[h(l.addr, l.key) := l.value.value]
  }

  /** A log entry that is right when it is reached with contents m. */
  predicate RightAt(h: TreeKey, m: Kv, l: AccessLog) {
    && l.pre == Lookup(m, h(l.addr, l.key))
    && match l.kind
       case Read => l.value == l.pre
       case InitialWrite => l.pre.None? && l.value.Some?
       case RepeatedWrite => l.pre.Some? && l.value.Some?
  }

  predicate ReplayRight(h: TreeKey, m: Kv, logs: seq<AccessLog>) {
    if logs == [] then true else
      var n := |logs| - 1;
      ReplayRight(h, m, logs[..n]) && RightAt(h, Replay(h, m, logs[..n]), logs[n])
  }

  lemma {:induction false} ReplayConcat(h: TreeKey, m: Kv, a: seq<AccessLog>, b: seq<AccessLog>)
    ensures Replay(h, m, a + b) == Replay(h, Replay(h, m, a), b)
    ensures ReplayRight(h, m, a + b) <==> ReplayRight(h, m, a) && ReplayRight(h, Replay(h, m, a), b)
  {
    if b == [] {
      assert a + b == a;
    } else {
      ReplayConcat(h, m, a, b[..|b| - 1]);
      assert (a + b)[..|a + b| - 1] == a + b[..|b| - 1];
    }
  }

  /** The transaction's log, replayed over what is committed, gives what is visible. */
  predicate Logged(h: TreeKey, s: Store, disk: Kv) {
    && ReplayRight(h, Committed(s, disk), s.txLogs)
    && Replay(h, Committed(s, disk), s.txLogs) == Visible(s, disk)
  }

  lemma LogOne(h: TreeKey, m: Kv, logs: seq<AccessLog>, l: AccessLog)
    ensures ReplayRight(h, m, logs + [l]) <==> ReplayRight(h, m, logs) && RightAt(h, Replay(h, m, logs), l)
    ensures Replay(h, m, logs + [l]) ==
            var below := Replay(h, m, logs);
            if l.kind.Read? || l.value.None? then below else below[h(l.addr, l.key) := l.value.value]
  {
    assert (logs + [l])[..|logs|] == logs;
  }

  // ---- what accesses do, without caches ----

  /** The contents after a list of accesses. */
  function Wrote(h: TreeKey, m: Kv, accesses: seq<Access>): Kv {
    if accesses == [] then m else
      var n := |accesses| - 1;
      var a, below := accesses[n], Wrote(h, m, accesses[..n]);
      if a.Store_? then below[h(a.addr, a.key) := a.value] else below
  }

  function LogOf(h: TreeKey, m: Kv, a: Access): AccessLog {
    var pre := Lookup(m, h(a.addr, a.key));
    match a
    case Load(addr, key) => AccessLog(Read, addr, key, pre, pre)
    case Store_(addr, key, v) => AccessLog(if pre.Some? then RepeatedWrite else InitialWrite, addr, key, pre, Some(v))
  }

  /** The log of a list of accesses that starts with contents m. */
  function Logs(h: TreeKey, m: Kv, accesses: seq<Access>): seq<AccessLog> {
    if accesses == [] then [] else
      var n := |accesses| - 1;
      Logs(h, m, accesses[..n]) + [LogOf(h, Wrote(h, m, accesses[..n]), accesses[n])]
  }

  lemma {:induction false} WroteConcat(h: TreeKey, m: Kv, a: seq<Access>, b: seq<Access>)
    ensures Wrote(h, m, a + b) == Wrote(h, Wrote(h, m, a), b)
    ensures Logs(h, m, a + b) == Logs(h, m, a) + Logs(h, Wrote(h, m, a), b)
  {
    if b == [] {
      assert a + b == a;
    } else {
      WroteConcat(h, m, a, b[..|b| - 1]);
      assert (a + b)[..|a + b| - 1] == a + b[..|b| - 1];
    }
  }

  /** A log replays to what its accesses wrote. */
  lemma {:induction false} LogsReplay(h: TreeKey, m: Kv, accesses: seq<Access>)
    ensures ReplayRight(h, m, Logs(h, m, accesses)) && Replay(h, m, Logs(h, m, accesses)) == Wrote(h, m, accesses)
  {
    hide Replay, ReplayRight;
    if accesses == [] {
      NothingReplays(h, m);
    } else {
      var n := |accesses| - 1;
      LogsReplay(h, m, accesses[..n]);
      LogOne(h, m, Logs(h, m, accesses[..n]), LogOf(h, Wrote(h, m, accesses[..n]), accesses[n]));
    }
  }

  lemma NothingReplays(h: TreeKey, m: Kv)
    ensures ReplayRight(h, m, []) && Replay(h, m, []) == m
  {
  }

  /** The layered storage refines this: its view, its committed contents and its log. */
  lemma {:induction false} AccessesRefine(h: TreeKey, s: Store, disk: Kv, accesses: seq<Access>)
    ensures var t, v := AfterAccesses(h, s, disk, accesses), Visible(s, disk);
            && Visible(t, disk) == Wrote(h, v, accesses) && Committed(t, disk) == Committed(s, disk)
            && t.txLogs == s.txLogs + Logs(h, v, accesses)
  {
    hide AfterAccess, Visible, Committed;
    if accesses != [] {
      var n := |accesses| - 1;
      AccessesRefine(h, s, disk, accesses[..n]);
      AccessRefines(h, AfterAccesses(h, s, disk, accesses[..n]), disk, accesses[n]);
    }
  }

  lemma AccessRefines(h: TreeKey, s: Store, disk: Kv, a: Access)
    ensures var t, v := AfterAccess(h, s, disk, a), Visible(s, disk);
            && Visible(t, disk) == (if a.Store_? then v[h(a.addr, a.key) := a.value] else v)
            && Committed(t, disk) == Committed(s, disk) && t.txLogs == s.txLogs + [LogOf(h, v, a)]
  {
    hide Visible, Committed, Filled;
    var k := h(a.addr, a.key);
    match a
    case Load(addr, key) =>
      SameMaps(Filled(s, disk, k), AfterLoad(h, s, disk, addr, key), disk);
    case Store_(addr, key, v) =>
      WriteShows(Filled(Filled(s, disk, k), disk, k), AfterAccess(h, s, disk, a), disk, k, v);
  }

  lemma SameMaps(s: Store, t: Store, disk: Kv)
    requires s.tx == t.tx && s.block == t.block
    ensures Visible(t, disk) == Visible(s, disk) && Committed(t, disk) == Committed(s, disk)
  {
  }

  lemma WriteShows(s: Store, t: Store, disk: Kv, k: Word4, v: Word4)
    requires t.tx == s.tx[k := v] && t.block == s.block
    ensures Visible(t, disk) == Visible(s, disk)[k := v] && Committed(t, disk) == Committed(s, disk)
  {
  }

  lemma AccessLogged(h: TreeKey, s: Store, disk: Kv, a: Access)
    requires Logged(h, s, disk)
    ensures var t := AfterAccess(h, s, disk, a);
            Logged(h, t, disk) && Committed(t, disk) == Committed(s, disk)
  {
    hide Replay, ReplayRight, AfterAccess, Visible, Committed;
    AccessRefines(h, s, disk, a);
    LogOne(h, Committed(s, disk), s.txLogs, LogOf(h, Visible(s, disk), a));
  }

  // ---- what a batch does, without caches ----

  /** The contents a batch should commit: those of its successful transactions, in order. */
  function Outcome(h: TreeKey, disk: Kv, txs: seq<Tx>): Kv {
    if txs == [] then disk else
      var n := |txs| - 1;
      var c := Outcome(h, disk, txs[..n]);
      if txs[n].ok then Wrote(h, c, txs[n].accesses) else c
  }

  /** The logs of all transactions, failed ones too. */
  function AllLogs(h: TreeKey, disk: Kv, txs: seq<Tx>): seq<AccessLog> {
    if txs == [] then [] else
      var n := |txs| - 1;
      AllLogs(h, disk, txs[..n]) + Logs(h, Outcome(h, disk, txs[..n]), txs[n].accesses)
  }

  /** The number of transactions up to the last one that succeeded. */
  function LastOk(txs: seq<Tx>): (q: nat)
    ensures q <= |txs| && (q > 0 ==> txs[q - 1].ok) && forall i :: q <= i < |txs| ==> !txs[i].ok
  {
    if txs == [] || txs[|txs| - 1].ok then |txs| else LastOk(txs[..|txs| - 1])
  }

  /** What the cache shows when the batch stops here: after a failure, its writes. */
  function Shown(h: TreeKey, disk: Kv, txs: seq<Tx>): Kv {
    if txs == [] then disk else Wrote(h, Outcome(h, disk, txs[..|txs| - 1]), txs[|txs| - 1].accesses)
  }

  /** The batch as the code runs it: the right contents are committed, but the logs of failed transactions
      stay and are collected with those of the next success. */
  lemma {:induction false} BatchIs(h: TreeKey, disk: Kv, txs: seq<Tx>)
    ensures var b := AfterAll(h, disk, txs);
            && Committed(b.store, disk) == Outcome(h, disk, txs) && Visible(b.store, disk) == Shown(h, disk, txs)
            && b.collected == AllLogs(h, disk, txs[..LastOk(txs)])
            && b.collected + b.store.txLogs == AllLogs(h, disk, txs)
  {
    hide AfterInvoke, Wrote, Logs, Visible, Committed;
    if txs == [] {
      NothingDone(disk);
    } else {
      var n := |txs| - 1;
      BatchIs(h, disk, txs[..n]);
      InvokeIs(h, AfterAll(h, disk, txs[..n]), disk, txs[n]);
      if txs[n].ok { assert txs[..|txs|] == txs; } else { assert txs[..n][..LastOk(txs)] == txs[..LastOk(txs)]; }
    }
  }

  lemma InvokeIs(h: TreeKey, b: Batch, disk: Kv, tx: Tx)
    ensures var t, c := AfterInvoke(h, b, disk, tx), Committed(b.store, disk);
            && Visible(t.store, disk) == Wrote(h, c, tx.accesses)
            && Committed(t.store, disk) == (if tx.ok then Wrote(h, c, tx.accesses) else c)
            && t.collected + t.store.txLogs == b.collected + b.store.txLogs + Logs(h, c, tx.accesses)
            && t.collected == (if tx.ok then t.collected + t.store.txLogs else b.collected)
  {
    hide AfterAccesses, Wrote, Logs, Visible, Committed;
    CommitAndRollback(b.store, disk);
    AccessesRefine(h, AfterClear(b.store), disk, tx.accesses);
    var s := AfterAccesses(h, AfterClear(b.store), disk, tx.accesses);
    CommitAndRollback(s, disk);
    assert s.txLogs == b.store.txLogs + Logs(h, Committed(b.store, disk), tx.accesses);
  }

  lemma NothingDone(disk: Kv)
    ensures Committed(EMPTY, disk) == disk == Visible(EMPTY, disk)
  {
  }

  // ---- exactly when the logs replay ----

  /** Logs that are right over two contents do not touch a key the contents differ on. */
  lemma {:induction false} DifferenceStays(h: TreeKey, m: Kv, c: Kv, logs: seq<AccessLog>, k: Word4)
    requires ReplayRight(h, m, logs) && ReplayRight(h, c, logs) && Lookup(m, k) != Lookup(c, k)
    ensures Lookup(Replay(h, m, logs), k) == Lookup(m, k) && Lookup(Replay(h, c, logs), k) == Lookup(c, k)
  {
    if logs != [] { DifferenceStays(h, m, c, logs[..|logs| - 1], k); }
  }

  lemma Differ(m: Kv, c: Kv) returns (k: Word4)
    requires m != c
    ensures Lookup(m, k) != Lookup(c, k)
  {
    SameLookups(m, c);
    k :| Lookup(m, k) != Lookup(c, k);
  }

  lemma SameLookups(m: Kv, c: Kv)
    ensures (forall k :: Lookup(m, k) == Lookup(c, k)) ==> m == c
  {
    if forall k :: Lookup(m, k) == Lookup(c, k) {
      forall k ensures (k in m <==> k in c) && (k in m ==> m[k] == c[k]) { assert Lookup(m, k) == Lookup(c, k); }
      assert m == c;
    }
  }

  ghost predicate LogsRight(h: TreeKey, disk: Kv, logs: seq<AccessLog>, result: Kv) {
    ReplayRight(h, disk, logs) && Replay(h, disk, logs) == result
  }

  /** The writes of a transaction add up to nothing over the contents it starts from. */
  predicate NetsNothing(h: TreeKey, disk: Kv, txs: seq<Tx>, i: nat)
    requires i < |txs|
  {
    var c := Outcome(h, disk, txs[..i]);
    Wrote(h, c, txs[i].accesses) == c
  }

  /** One more transaction: once logs and contents part they stay apart. */
  lemma OneMore(h: TreeKey, disk: Kv, txs: seq<Tx>)
    requires txs != []
    ensures var n := |txs| - 1;
            LogsRight(h, disk, AllLogs(h, disk, txs), Outcome(h, disk, txs)) <==>
            LogsRight(h, disk, AllLogs(h, disk, txs[..n]), Outcome(h, disk, txs[..n]))
            && (txs[n].ok || NetsNothing(h, disk, txs, n))
  {
    hide Replay, ReplayRight, Logs, Wrote;
    var n := |txs| - 1;
    var before, o, own := AllLogs(h, disk, txs[..n]), Outcome(h, disk, txs[..n]), txs[n].accesses;
    ReplayConcat(h, disk, before, Logs(h, o, own));
    LogsReplay(h, o, own);
    var a := Replay(h, disk, before);
    if ReplayRight(h, disk, AllLogs(h, disk, txs)) && a != o {
      var k := Differ(a, o);
      DifferenceStays(h, a, o, Logs(h, o, own), k);
    }
  }

  lemma {:induction false} AllRight(h: TreeKey, disk: Kv, txs: seq<Tx>)
    ensures LogsRight(h, disk, AllLogs(h, disk, txs), Outcome(h, disk, txs)) <==>
            forall i :: 0 <= i < |txs| && !txs[i].ok ==> NetsNothing(h, disk, txs, i)
  {
    hide LogsRight, NetsNothing, Outcome, AllLogs;
    if txs == [] {
      NoLogs(h, disk);
    } else {
      var n := |txs| - 1;
      AllRight(h, disk, txs[..n]);
      OneMore(h, disk, txs);
      forall i | 0 <= i < n ensures NetsNothing(h, disk, txs, i) <==> NetsNothing(h, disk, txs[..n], i) {
        Sooner(h, disk, txs, n, i);
      }
    }
  }

  lemma NoLogs(h: TreeKey, disk: Kv)
    ensures LogsRight(h, disk, AllLogs(h, disk, []), Outcome(h, disk, []))
  {
  }

  lemma Sooner(h: TreeKey, disk: Kv, txs: seq<Tx>, n: nat, i: nat)
    requires i < n <= |txs|
    ensures NetsNothing(h, disk, txs, i) <==> NetsNothing(h, disk, txs[..n], i)
  {
    assert txs[..n][..i] == txs[..i];
  }

  lemma {:induction false} FailuresCommitNothing(h: TreeKey, disk: Kv, txs: seq<Tx>, q: nat)
    requires q <= |txs| && forall i :: q <= i < |txs| ==> !txs[i].ok
    ensures Outcome(h, disk, txs[..q]) == Outcome(h, disk, txs)
  {
    hide Wrote;
    if q == |txs| {
      assert txs[..q] == txs;
    } else {
      var n := |txs| - 1;
      FailuresCommitNothing(h, disk, txs[..n], q);
      assert txs[..n][..q] == txs[..q];
    }
  }

  /** In every batch, the collected logs are right where they stand and replay from disk to the committed
      contents, if and only if every failed transaction that a success follows nets nothing. */
  lemma BatchReplays(h: TreeKey, disk: Kv, txs: seq<Tx>)
    ensures var b := AfterAll(h, disk, txs);
            ReplayRight(h, disk, b.collected) && Replay(h, disk, b.collected) == Committed(b.store, disk) <==>
            forall i :: 0 <= i < LastOk(txs) && !txs[i].ok ==> NetsNothing(h, disk, txs, i)
  {
    hide AfterAll, AllLogs, Outcome, Wrote, NetsNothing;
    BatchIs(h, disk, txs);
    var q := LastOk(txs);
    FailuresCommitNothing(h, disk, txs, q);
    AllRight(h, disk, txs[..q]);
    forall i | 0 <= i < q ensures NetsNothing(h, disk, txs, i) <==> NetsNothing(h, disk, txs[..q], i) {
      Sooner(h, disk, txs, q, i);
    }
  }

  // ---- the closing transaction ----

  /** What closing amounts to: the last transaction of the batch and the closing one are one. */
  function Merged(txs: seq<Tx>, last: Tx): seq<Tx> {
    if txs == [] then [Tx(last.accesses, true)] else
      var n := |txs| - 1;
      txs[..n] + [Tx(txs[n].accesses + last.accesses, true)]
  }

  lemma MergedIs(h: TreeKey, disk: Kv, txs: seq<Tx>, last: Tx)
    ensures var m := Merged(txs, last);
            && Outcome(h, disk, m) == Wrote(h, Shown(h, disk, txs), last.accesses)
            && AllLogs(h, disk, m) == AllLogs(h, disk, txs) + Logs(h, Shown(h, disk, txs), last.accesses)
  {
    hide Wrote, Logs;
    var m := Merged(txs, last);
    if txs == [] {
      assert m[..0] == [];
    } else {
      var n := |txs| - 1;
      assert m[..n] == txs[..n] && m[n] == Tx(txs[n].accesses + last.accesses, true);
      WroteConcat(h, Outcome(h, disk, txs[..n]), txs[n].accesses, last.accesses);
    }
  }

  lemma FinishIs(h: TreeKey, disk: Kv, txs: seq<Tx>, last: Tx)
    requires last.ok
    ensures var b := AfterFinish(h, AfterAll(h, disk, txs), disk, last);
            Committed(b.store, disk) == Outcome(h, disk, Merged(txs, last))
            && b.collected == AllLogs(h, disk, Merged(txs, last))
  {
    hide AfterAll, Outcome, AllLogs, AfterAccesses, Merged, Shown, Logs;
    BatchIs(h, disk, txs);
    MergedIs(h, disk, txs, last);
    var b := AfterAll(h, disk, txs);
    AccessesRefine(h, b.store, disk, last.accesses);
    CommitAndRollback(AfterAccesses(h, b.store, disk, last.accesses), disk);
  }

  /** In every batch that a successful transaction closes, the logs handed out replay to the committed contents
      if and only if every failed transaction but the very last one nets nothing. */
  lemma FinishedBatchReplays(h: TreeKey, disk: Kv, txs: seq<Tx>, last: Tx)
    requires last.ok
    ensures var b := AfterFinish(h, AfterAll(h, disk, txs), disk, last);
            ReplayRight(h, disk, b.collected) && Replay(h, disk, b.collected) == Committed(b.store, disk) <==>
            forall i :: 0 <= i < |txs| - 1 && !txs[i].ok ==> NetsNothing(h, disk, txs, i)
  {
    hide AfterAll, Outcome, AllLogs, Wrote, NetsNothing;
    FinishIs(h, disk, txs, last);
    var m := Merged(txs, last);
    AllRight(h, disk, m);
    forall i | 0 <= i < |txs| - 1 ensures NetsNothing(h, disk, m, i) <==> NetsNothing(h, disk, txs, i) {
      Unmerged(h, disk, txs, last, i);
    }
  }

  lemma Unmerged(h: TreeKey, disk: Kv, txs: seq<Tx>, last: Tx, i: nat)
    requires i < |txs| - 1
    ensures i < |Merged(txs, last)| && (NetsNothing(h, disk, Merged(txs, last), i) <==> NetsNothing(h, disk, txs, i))
  {
    assert Merged(txs, last)[..i] == txs[..i];
  }

  /** The closing transaction starts from the committed contents if and only if the batch is empty or its last
      transaction succeeded or nets nothing. */
  lemma FinishStartsClean(h: TreeKey, disk: Kv, txs: seq<Tx>)
    ensures var b := AfterAll(h, disk, txs);
            Visible(b.store, disk) == Committed(b.store, disk) <==>
            txs == [] || txs[|txs| - 1].ok || NetsNothing(h, disk, txs, |txs| - 1)
  {
    hide AfterAll, Wrote;
    BatchIs(h, disk, txs);
  }

  predicate Writes(h: TreeKey, accesses: seq<Access>, k: Word4) {
    exists i :: 0 <= i < |accesses| && accesses[i].Store_? && h(accesses[i].addr, accesses[i].key) == k
  }

  /** What is read of a key after a write to it does not depend on what was there. */
  lemma {:induction false} WroteAt(h: TreeKey, m: Kv, c: Kv, accesses: seq<Access>, k: Word4)
    ensures Writes(h, accesses, k) ==> Lookup(Wrote(h, m, accesses), k) == Lookup(Wrote(h, c, accesses), k)
    ensures !Writes(h, accesses, k) ==> Lookup(Wrote(h, m, accesses), k) == Lookup(m, k)
  {
    if accesses != [] {
      var n := |accesses| - 1;
      var front := accesses[..n];
      WroteAt(h, m, c, front, k);
      if Writes(h, front, k) {
        var i :| 0 <= i < n && front[i].Store_? && h(front[i].addr, front[i].key) == k;
        assert accesses[i] == front[i];
      }
      if Writes(h, accesses, k) && !(accesses[n].Store_? && h(accesses[n].addr, accesses[n].key) == k) {
        var i :| 0 <= i < |accesses| && accesses[i].Store_? && h(accesses[i].addr, accesses[i].key) == k;
        assert front[i] == accesses[i];
      }
    }
  }

  /** Closing commits the contents of the successful transactions and its own, if and only if what a failed last
      transaction changed is written again. */
  lemma FinishCommits(h: TreeKey, disk: Kv, txs: seq<Tx>, last: Tx)
    requires last.ok
    ensures var b := AfterFinish(h, AfterAll(h, disk, txs), disk, last);
            Committed(b.store, disk) == Outcome(h, disk, txs + [last]) <==>
            forall k :: !Writes(h, last.accesses, k) ==>
              Lookup(Shown(h, disk, txs), k) == Lookup(Outcome(h, disk, txs), k)
  {
    hide AfterAll, Wrote, Writes, Shown;
    FinishIs(h, disk, txs, last);
    MergedIs(h, disk, txs, last);
    assert (txs + [last])[..|txs|] == txs;
    var v, c := Shown(h, disk, txs), Outcome(h, disk, txs);
    var x, y := Wrote(h, v, last.accesses), Wrote(h, c, last.accesses);
    forall k ensures Writes(h, last.accesses, k) ==>
      Lookup(x, k) == Lookup(y, k) { WroteAt(h, v, c, last.accesses, k); }
    forall k ensures !Writes(h, last.accesses, k) ==>
      Lookup(x, k) == Lookup(v, k) { WroteAt(h, v, c, last.accesses, k); }
    forall k ensures !Writes(h, last.accesses, k) ==>
      Lookup(y, k) == Lookup(c, k) { WroteAt(h, c, v, last.accesses, k); }
    if x != y { var k := Differ(x, y); }
  }

  // ---- what a failed transaction leaves behind ----

  lemma {:induction false} AccessesKeepCommitted(h: TreeKey, s: Store, disk: Kv, accesses: seq<Access>)
    ensures Committed(AfterAccesses(h, s, disk, accesses), disk) == Committed(s, disk)
  {
    if accesses != [] {
      AccessesKeepCommitted(h, s, disk, accesses[..|accesses| - 1]);
    }
  }

  /** A failed transaction never changes what is committed, and the next transaction starts from it. */
  lemma FailureRollsBack(h: TreeKey, b: Batch, disk: Kv, tx: Tx)
    requires !tx.ok
    ensures var c := AfterInvoke(h, b, disk, tx);
            && Committed(c.store, disk) == Committed(b.store, disk)
            && Visible(AfterClear(c.store), disk) == Committed(b.store, disk)
            && c.collected == b.collected
  {
    CommitAndRollback(b.store, disk);
    AccessesKeepCommitted(h, AfterClear(b.store), disk, tx.accesses);
    CommitAndRollback(AfterInvoke(h, b, disk, tx).store, disk);
  }

  /** A transaction that writes one fresh key and then fails. */
  function FailedWrite(addr: Word4, key: Word4, v: Word4): Tx { Tx([Store_(addr, key, v)], false) }

  lemma LeftBehind(h: TreeKey, addr: Word4, key: Word4, v: Word4)
    ensures AfterAll(h, map[], [FailedWrite(addr, key, v)])
         == Batch(Store(map[h(addr, key) := v], map[], [], [AccessLog(InitialWrite, addr, key, None, Some(v))]), [])
  {
    var failed := FailedWrite(addr, key, v);
    var a := failed.accesses[0];
    assert [failed][..0] == [] && failed.accesses[..0] == [];
    var s := AfterClear(EMPTY);
    assert AfterAccesses(h, s, map[], []) == s;
    assert AfterAccesses(h, s, map[], failed.accesses) == AfterAccess(h, s, map[], a);
    var log := AccessLog(InitialWrite, addr, key, None, Some(v));
    assert [] + [log] == [log];
    assert AfterAll(h, map[], []) == Batch(EMPTY, []);
  }

  /** A write of a failed transaction that the closing transaction then commits. */
  lemma FailedWriteIsCommitted(h: TreeKey, addr: Word4, key: Word4, v: Word4)
    ensures var b := AfterFinish(h, AfterAll(h, map[], [FailedWrite(addr, key, v)]), map[], Tx([], true));
            Committed(b.store, map[]) == map[h(addr, key) := v]
  {
    hide AfterAll;
    LeftBehind(h, addr, key, v);
    var s := AfterAll(h, map[], [FailedWrite(addr, key, v)]).store;
    assert AfterAccesses(h, s, map[], []) == s;
  }

  /** Its log entry also turns up among those of the next transaction, where it is wrong: the batch
      then claims a write that was rolled back. */
  lemma FailedLogPollutes(h: TreeKey, addr: Word4, key: Word4, v: Word4)
    ensures var b := AfterAll(h, map[], [FailedWrite(addr, key, v), Tx([], true)]);
            Committed(b.store, map[]) == map[] && Replay(h, map[], b.collected) == map[h(addr, key) := v]
  {
    LeftBehind(h, addr, key, v);
    var txs := [FailedWrite(addr, key, v), Tx([], true)];
    assert txs[..1] == [FailedWrite(addr, key, v)];
    var c := AfterAll(h, map[], txs[..1]);
    var s := AfterClear(c.store);
    assert AfterAccesses(h, s, map[], []) == s;
    var log := AccessLog(InitialWrite, addr, key, None, Some(v));
    assert AfterAll(h, map[], txs).collected == [log];
    assert [log][..0] == [] && Replay(h, map[], []) == map[];
  }
}
