/** The memory table of `generate_memory_trace`: annotated accesses laid out in columns and padded to a
    power of two. */
module MemoryTrace {
  import opened Goldilocks
  import opened MemoryAir
  import opened MemoryLog
  import opened MemoryTable

  /** The least power of two that is at least n. */
  function NextPowerOfTwo(n: nat): (r: nat)
    ensures r >= n && r > 0 && (n > 1 ==> r < 2 * n)
  {
    if n <= 1 then 1 else 2 * NextPowerOfTwo((n + 1) / 2)
  }

  function PaddedLength(n: nat): (r: nat)
    ensures r >= n && r >= 2
  {
    if n < 2 then 2 else NextPowerOfTwo(n)
  }

  const BLANK: Row := Row(0, 0, 0, 0, 0, 0, 0, 0, 0, 0, 0, 0, 0, 0, 0, 0, 0, 0, 0, 0, 0, 0, 0, 0, 0, 0, 0, 0, 0)

  function Flag(b: bool): int { if b then 1 else 0 }

  function FilledRow(cells: seq<TraceCell>, i: nat): Row
    requires i < |cells|
  {
    var c := cells[i];
    var startsHeap := c.regionHeap == 1 && i > 0 && cells[i - 1].regionHeap == 0;
    Row(0, c.envIdx, c.isRw, c.addr, c.clk, c.op,
        Flag(c.op == MLOAD), Flag(c.op == MSTORE), Flag(c.op == CALL), Flag(c.op == RET), Flag(c.op == TLOAD),
        Flag(c.op == TSTORE), Flag(c.op == SCCALL), Flag(c.op == POSEIDON), Flag(c.op == SSTORE),
        Flag(c.op == SLOAD), Flag(c.op == PROPHET),
        c.isWrite, c.value, c.diffAddr, c.diffAddrInv, c.diffClk, c.diffAddrCond, c.rwAddrUnchanged,
        c.regionProphet, c.regionHeap, c.rcValue,
        Flag(i > 0 && c.regionProphet != 1 && !startsHeap),
        Flag(c.regionHeap == 1 || c.regionProphet == 1))
  }

  /** The only filled row of a table without accesses. */
  const EMPTY_ROW: Row :=
    BLANK.(addr := PSP_START, isWrite := 1, diffAddrCond := SPAN, regionProphet := 1, rcValue := SPAN)

  function FilledRows(cells: seq<TraceCell>): (r: seq<Row>)
    ensures |r| == if cells == [] then 1 else |cells|
  {
    if cells == [] then [EMPTY_ROW] else seq(|cells|, i requires 0 <= i < |cells| => FilledRow(cells, i))
  }

  /** The address of padding row k: the prophet region from its start, or from the last address on. */
  function PadAddr(last: Row, k: nat): (r: Felt) {
    Canon((if last.isRw == 1 then P - SPAN else last.addr + 1) + k)
  }

  function PadRow(last: Row, k: nat): Row
    requires PadAddr(last, 0) != Canon(last.addr)
  {
    var addr: int, above: int := PadAddr(last, k), last.addr;
    var diffAddr := if k == 0 then Canon(addr - above) else 1;
    BLANK.(txIdx := last.txIdx, envIdx := last.envIdx, addr := addr, sProphet := 1, isWrite := 1,
           diffAddr := diffAddr, diffAddrInv := Inverse(diffAddr), diffAddrCond := Canon(P - addr),
           regionProphet := 1, rcValue := Canon(P - addr))
  }

  /** The flags of a cell say where its address is. */
  predicate Placeable(cells: seq<TraceCell>) {
    forall i :: 0 <= i < |cells| ==> cells[i].isRw == ZoneIsRw(cells[i].addr)
  }

  /** Padding never starts at the address of the last filled row. */
  lemma PadStarts(cells: seq<TraceCell>)
    requires Placeable(cells)
    ensures var last := FilledRows(cells)[|FilledRows(cells)| - 1]; PadAddr(last, 0) != Canon(last.addr)
  {
    if cells != [] {
      assert cells[|cells| - 1].isRw == ZoneIsRw(cells[|cells| - 1].addr);
    }
  }

  function PaddedTable(cells: seq<TraceCell>): (r: seq<Row>)
    requires Placeable(cells)
    ensures |r| == PaddedLength(|cells|)
  {
    PadStarts(cells);
    var filled := FilledRows(cells);
    var last := filled[|filled| - 1];
    filled + seq(PaddedLength(|cells|) - |filled|, k requires k >= 0 => PadRow(last, k))
  }

  /** One padding row, as the padding loop writes it. */
  lemma NextAddress(start: int, k: nat)
    ensures Canon(start + (k + 1)) == FAdd(Canon(start + k), 1)
  {
    ReduceCong(start + k, P);
    CongSameRemainder(start + k + 1, Canon(start + k) + 1, P);
  }

  lemma Apart(a: Felt, b: int)
    requires a != Canon(b)
    ensures Canon(a - b) != 0
  {
    if Canon(a - b) == 0 { CongSameRemainder(a, b, P); }
  }

  /** One padding row, as the padding loop writes it. */
  lemma PadRowIs(last: Row, k: nat, addr: Felt, diffAddr: Felt)
    requires PadAddr(last, 0) != Canon(last.addr) && addr == PadAddr(last, k)
    requires var here: int, above: int := addr, last.addr; diffAddr == if k == 0 then Canon(here - above) else 1
    ensures PadAddr(last, k + 1) == FAdd(addr, 1)
    ensures diffAddr != 0
    ensures PadRow(last, k) ==
            var here: int := addr;
            BLANK.(sProphet := 1, txIdx := last.txIdx, envIdx := last.envIdx, addr := here, isWrite := 1,
                   diffAddr := diffAddr, diffAddrInv := Inverse(diffAddr),
                   diffAddrCond := Canon(P - here), regionProphet := 1, rcValue := Canon(P - here))
  {
    hide FAdd, Canon, Inverse;
    NextAddress(if last.isRw == 1 then P - SPAN else last.addr + 1, k);
    Apart(PadAddr(last, 0), last.addr);
  }

  method PadRows(trace: array<Row>, len: nat)
    requires 0 < len <= trace.Length
    requires PadAddr(trace[len - 1], 0) != Canon(trace[len - 1].addr)
    modifies trace
    ensures trace[..len] == old(trace[..len])
    ensures forall i :: len <= i < trace.Length ==> trace[i] == PadRow(trace[len - 1], i - len)
  {
    hide PadRow, PadAddr, FAdd, Canon, Inverse;
    var last := trace[len - 1];
    var addr: Felt := PadAddr(last, 0);
    var isFirst := true;
    for i := len to trace.Length
      invariant trace[..len] == old(trace[..len])
      invariant forall k :: len <= k < i ==> trace[k] == PadRow(last, k - len)
      invariant addr == PadAddr(last, i - len)
      invariant isFirst <==> i == len
    {
      var above: int := last.addr;
      var here: int := addr;
      var diffAddr: Felt := if isFirst then Canon(here - above) else 1;
      PadRowIs(last, i - len, addr, diffAddr);
      trace[i] := BLANK.(sProphet := 1, txIdx := last.txIdx, envIdx := last.envIdx, addr := here, isWrite := 1,
                         diffAddr := diffAddr, diffAddrInv := Inverse(diffAddr),
                         diffAddrCond := Canon(P - here), regionProphet := 1, rcValue := Canon(P - here));
      addr := FAdd(addr, 1);
      isFirst := false;
    }
  }

  /** The column array, filled row by row and then padded, is the padded table. */
  method GenerateMemoryTrace(cells: seq<TraceCell>) returns (trace: array<Row>)
    requires Placeable(cells)
    ensures fresh(trace) && trace[..] == PaddedTable(cells)
  {
    hide FilledRow, PadRow, PadAddr, Inverse, NextPowerOfTwo, Canon;
    PadStarts(cells);
    ghost var filled := FilledRows(cells);
    var len := |cells|;
    trace := new Row[PaddedLength(len)](_ => BLANK);
    for i := 0 to |cells|
      invariant forall k :: 0 <= k < i ==> trace[k] == FilledRow(cells, k)
    {
      trace[i] := FilledRow(cells, i);
    }
    if len == 0 {
      trace[0] := EMPTY_ROW;
      len := 1;
    }
    assert trace[..len] == filled;
    PadRows(trace, len);
    assert trace[len - 1] == trace[..len][len - 1];
  }
}
