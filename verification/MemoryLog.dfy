/** The executor's memory: for every address the list of accesses made to it, in time order. The
    last access holds the current value. */
module MemoryLog {
  import opened Common
  import opened Goldilocks
  import opened MemoryAir

  datatype Cell = Cell(
    envIdx: Felt, clk: nat, isRw: Felt, op: int, isWrite: Felt, regionHeap: Felt, regionProphet: Felt,
    value: Felt)

  type Log = map<nat, seq<Cell>>

  /** `memory_zone_process`: the flags of a cell at an address. */
  function ZoneIsRw(addr: int): Felt { if addr >= PSP_START then 0 else 1 }
  function ZoneProphet(addr: int): Felt { if addr >= PSP_START then 1 else 0 }
  function ZoneHeap(addr: int): Felt { if HP_START <= addr < PSP_START then 1 else 0 }

  function NewCell(env: Felt, addr: nat, clk: nat, op: int, isWrite: Felt, value: Felt): Cell {
    Cell(env, clk, ZoneIsRw(addr), op, isWrite, ZoneHeap(addr), ZoneProphet(addr), value)
  }

  /** The last value at an address, if it was ever written. */
  function Current(log: Log, addr: nat): (r: Option<Felt>) {
    if addr in log && log[addr] != [] then Some(log[addr][|log[addr]| - 1].value) else None
  }

  function Append(log: Log, addr: nat, c: Cell): Log {
    log[addr := (if addr in log then log[addr] else []) + [c]]
  }

  /** `MemoryTree` with its two operations. */
  class MemoryTree {
    var trace: Log

    constructor ()
      ensures trace == map[]
    {
      trace := map[];
    }

    /** Fails on an address never written; otherwise returns the last value and logs the read. */
    method Read(env: Felt, addr: nat, clk: nat, op: int) returns (r: Option<Felt>)
      modifies this
      ensures r == Current(old(trace), addr)
      ensures trace == if r.Some? then Append(old(trace), addr, NewCell(env, addr, clk, op, 0, r.value))
                       else old(trace)
    {
      r := None;
      if addr in trace && trace[addr] != [] {
        var cells := trace[addr];
        var last := cells[|cells| - 1].value;
        trace := trace[addr := cells + [NewCell(env, addr, clk, op, 0, last)]];
        r := Some(last);
      }
    }

    method Write(env: Felt, addr: nat, clk: nat, op: int, value: Felt)
      modifies this
      ensures trace == Append(old(trace), addr, NewCell(env, addr, clk, op, 1, value))
      ensures Current(trace, addr) == Some(value)
      ensures forall a :: a != addr ==> Current(trace, a) == Current(old(trace), a)
    {
      var c := NewCell(env, addr, clk, op, 1, value);
      assert [c] == [] + [c];
      if addr in trace {
        trace := trace[addr := trace[addr] + [c]];
      } else {
        trace := trace[addr := [c]];
      }
    }
  }

  // ---- what every executor log satisfies ----

  predicate WriteOp(op: int) { op in {MSTORE, CALL, TLOAD, POSEIDON, SLOAD} }

  predicate ReadOp(op: int) { op in {MLOAD, CALL, RET, TSTORE, SCCALL, POSEIDON, SSTORE, SLOAD} }

  /** A cell an access to addr may leave behind. Prophets are stubbed out in the executor, so
      nothing is ever written to the prophet region and reads from it fail. */
  predicate CellOk(env: Felt, addr: nat, c: Cell) {
    && addr < PSP_START
    && c == NewCell(env, addr, c.clk, c.op, c.isWrite, c.value)
    && (c.isWrite == 0 || c.isWrite == 1)
    && (if c.isWrite == 1 then WriteOp(c.op) else ReadOp(c.op))
  }

  /** A later cell at the same address. */
  predicate CellFollows(c: Cell, d: Cell) {
    && c.clk <= d.clk
    && (d.isWrite == 0 ==> d.value == c.value)
  }

  predicate FollowsAt(cells: seq<Cell>, i: nat)
    requires 0 < i < |cells|
  {
    CellFollows(cells[i - 1], cells[i])
  }

  /** The cells of one address: the first one a write, except at the heap pointer, whose initial
      write is not part of the list and which may therefore start with a read of the initial value. */
  ghost predicate CellsOk(env: Felt, addr: nat, cells: seq<Cell>) {
    && (forall i :: 0 <= i < |cells| ==> CellOk(env, addr, cells[i]))
    && (forall i :: 0 < i < |cells| ==> FollowsAt(cells, i))
    && (cells != [] ==> cells[0].isWrite == 1 || (addr == HP_START && cells[0].value == HP_START + 1))
  }

  /** The initial write of the heap pointer, logged before the first step. */
  function HeapInit(env: Felt): Cell { NewCell(env, HP_START, 0, 0, 1, HP_START + 1) }

  ghost predicate LogOk(env: Felt, log: Log) {
    && HP_START in log && log[HP_START] != [] && log[HP_START][0] == HeapInit(env)
    && CellsOk(env, HP_START, log[HP_START][1..])
    && (forall a :: a in log && a != HP_START ==> log[a] != [] && CellsOk(env, a, log[a]))
  }

  /** No access so far is later than now. */
  ghost predicate Before(log: Log, now: nat) {
    forall a :: a in log ==> forall i :: 0 <= i < |log[a]| ==> log[a][i].clk <= now
  }

  function InitialLog(env: Felt): Log { map[HP_START := [HeapInit(env)]] }

  lemma InitialLogOk(env: Felt)
    ensures LogOk(env, InitialLog(env)) && Before(InitialLog(env), 0)
  {
  }

  lemma CellsAppend(env: Felt, addr: nat, cells: seq<Cell>, c: Cell)
    requires CellsOk(env, addr, cells) && CellOk(env, addr, c)
    requires cells != [] ==> CellFollows(cells[|cells| - 1], c)
    requires cells == [] ==> c.isWrite == 1 || (addr == HP_START && c.value == HP_START + 1)
    ensures CellsOk(env, addr, cells + [c])
  {
    forall i | 0 < i < |cells + [c]| ensures FollowsAt(cells + [c], i) {
      if i < |cells| { assert FollowsAt(cells, i); }
    }
  }

  /** Logging a read of the current value, or a write below the prophet region, keeps the log well formed. */
  lemma AppendOk(env: Felt, log: Log, now: nat, addr: nat, op: int, isWrite: Felt, value: Felt)
    requires LogOk(env, log) && Before(log, now) && addr < PSP_START
    requires if isWrite == 1 then WriteOp(op) else isWrite == 0 && ReadOp(op) && Current(log, addr) == Some(value)
    ensures LogOk(env, Append(log, addr, NewCell(env, addr, now, op, isWrite, value)))
    ensures Before(Append(log, addr, NewCell(env, addr, now, op, isWrite, value)), now)
  {
    var c := NewCell(env, addr, now, op, isWrite, value);
    var cells := if addr in log then log[addr] else [];
    if addr == HP_START {
      CellsAppend(env, addr, cells[1..], c);
      assert (cells + [c])[1..] == cells[1..] + [c];
    } else {
      CellsAppend(env, addr, cells, c);
    }
  }

  /** Only addresses below the prophet region can be read. */
  lemma ReadableIsLow(env: Felt, log: Log, addr: nat)
    requires LogOk(env, log) && Current(log, addr).Some?
    ensures addr < PSP_START
  {
    assert addr != HP_START ==> CellOk(env, addr, log[addr][0]);
  }
}
