/** The memory table and every constraint of `MemoryStark` on it. */
module MemoryAir {
  import opened Goldilocks
  import opened Air

  /** The upper end of the address space is split into a heap and a write-once prophet region. */
  const SPAN: int := 0xFFFF_FFFF
  const PSP_START: int := P - SPAN
  const HP_START: int := P - 2 * SPAN

  const MLOAD: int := 0x40_0000
  const MSTORE: int := 0x20_0000
  const CALL: int := 0x100_0000
  const RET: int := 0x80_0000
  const TLOAD: int := 0x200
  const TSTORE: int := 0x100
  const SCCALL: int := 0x80
  const POSEIDON: int := 0x1000
  const SSTORE: int := 0x400
  const SLOAD: int := 0x800
  const PROPHET: int := 0

  datatype Row = Row(
    txIdx: int, envIdx: int, isRw: int, addr: int, clk: int, op: int,
    sMload: int, sMstore: int, sCall: int, sRet: int, sTload: int, sTstore: int, sSccall: int,
    sPoseidon: int, sSstore: int, sSload: int, sProphet: int,
    isWrite: int, value: int, diffAddr: int, diffAddrInv: int, diffClk: int, diffAddrCond: int,
    rwAddrUnchanged: int, regionProphet: int, regionHeap: int, rcValue: int,
    filterLookingRc: int, filterLookingRcCond: int)
  {
    function RegionStack(): int { 1 - regionHeap - regionProphet }
  }

  predicate Binary(x: int) { Zero2(1 - x, x) }

  /** Opcode and selectors match, and exactly one selector is set. */
  predicate Selectors(lv: Row) {
    && Zero2(lv.op - MLOAD, lv.sMload)
    && Zero2(lv.op - MSTORE, lv.sMstore)
    && Zero2(lv.op - CALL, lv.sCall)
    && Zero2(lv.op - RET, lv.sRet)
    && Zero2(lv.op - TLOAD, lv.sTload)
    && Zero2(lv.op - TSTORE, lv.sTstore)
    && Zero2(lv.op - SCCALL, lv.sSccall)
    && Zero2(lv.op - POSEIDON, lv.sPoseidon)
    && Zero2(lv.op - SSTORE, lv.sSstore)
    && Zero2(lv.op - SLOAD, lv.sSload)
    && Zero2(lv.op - PROPHET, lv.sProphet)
    && Binary(lv.sMload) && Binary(lv.sMstore) && Binary(lv.sCall) && Binary(lv.sRet)
    && Binary(lv.sTload) && Binary(lv.sTstore) && Binary(lv.sSccall) && Binary(lv.sPoseidon)
    && Binary(lv.sSstore) && Binary(lv.sSload) && Binary(lv.sProphet)
    && Vanishes(1 - lv.sMload - lv.sMstore - lv.sCall - lv.sRet - lv.sTload - lv.sTstore
                - lv.sSccall - lv.sPoseidon - lv.sSstore - lv.sSload - lv.sProphet)
  }

  /** Which operations may be outside the read-write region, may write and may read. */
  predicate AccessKind(lv: Row) {
    && Zero2(lv.isRw, 1 - lv.isRw)
    && Zero2(lv.isRw, lv.sProphet)
    && Zero2(1 - lv.isRw, 1 - lv.sProphet - lv.sMload)
    && Zero2(lv.isWrite, 1 - lv.sMstore - lv.sCall - lv.sTload - lv.sPoseidon - lv.sSload - lv.sProphet)
    && Zero2(1 - lv.isWrite, 1 - lv.sMload - lv.sCall - lv.sRet - lv.sTstore - lv.sSccall
                             - lv.sPoseidon - lv.sSstore - lv.sSload)
  }

  /** A row is in one region, and its address is inside it. */
  predicate Regions(lv: Row) {
    && Vanishes(1 - lv.RegionStack() - lv.regionHeap - lv.regionProphet)
    && Zero2(lv.RegionStack(), 1 - lv.RegionStack())
    && Zero2(lv.regionHeap, 1 - lv.regionHeap)
    && Zero2(lv.regionProphet, 1 - lv.regionProphet)
    && Zero2(lv.regionProphet, 0 - lv.addr - lv.diffAddrCond)
    && Zero2(lv.regionHeap, 0 - SPAN - lv.addr - lv.diffAddrCond)
    && Zero2(1 - lv.filterLookingRcCond, lv.regionHeap)
    && Zero3(1 - lv.filterLookingRcCond, lv.regionProphet, 1 - lv.isWrite)
  }

  /** Transaction and environment index, address difference and its inverse: all rows but the last. */
  predicate Order(lv: Row, nv: Row) {
    var sameTx := 1 - nv.txIdx + lv.txIdx;
    var sameEnv := 1 - nv.envIdx + lv.envIdx;
    && Zero2(nv.txIdx - lv.txIdx, sameTx)
    && Zero3(sameTx, nv.envIdx - lv.envIdx, sameEnv)
    && Zero4(sameTx, sameEnv, nv.regionHeap - lv.regionHeap - 1, nv.addr - lv.addr - nv.diffAddr)
    && Zero5(sameTx, sameEnv, lv.RegionStack(), nv.RegionStack(),
             1 - nv.rwAddrUnchanged - nv.diffAddr * nv.diffAddrInv)
    && Zero5(sameTx, sameEnv, lv.regionHeap, nv.regionHeap,
             1 - nv.rwAddrUnchanged - nv.diffAddr * nv.diffAddrInv)
  }

  /** The value to range-check: all rows but the last. */
  predicate RangeChecked(lv: Row, nv: Row) {
    var sameTx := 1 - nv.txIdx + lv.txIdx;
    var sameEnv := 1 - nv.envIdx + lv.envIdx;
    && Zero6(sameTx, sameEnv, lv.isRw, nv.regionHeap - lv.regionHeap - 1,
             lv.rcValue - lv.rwAddrUnchanged * lv.diffClk,
             lv.rcValue - (1 - lv.rwAddrUnchanged) * lv.diffAddr)
    && Zero6(sameTx, sameEnv, lv.isRw, lv.rcValue, nv.regionHeap - lv.regionHeap - 1,
             1 - lv.filterLookingRc)
  }

  /** Prophet addresses advance by at most one, and a row that does not advance is a read. */
  predicate WriteOnce(lv: Row, nv: Row) {
    && Zero4(lv.regionProphet, nv.regionProphet, nv.addr - lv.addr, nv.addr - lv.addr - 1)
    && Zero4(lv.regionProphet, nv.regionProphet, nv.addr - lv.addr - 1, nv.isWrite)
  }

  /** The two constraints that tie a read to the row above it. */
  predicate ReadFollows(lv: Row, nv: Row) {
    && Zero3(nv.addr - lv.addr, 1 - nv.isWrite, nv.addr - HP_START)
    && Zero3(1 - nv.isWrite, nv.value - lv.value, nv.addr - HP_START)
  }

  /** The heap pointer cell may be read first, and then holds its initial value. */
  predicate HeapPointer(lv: Row, nv: Row) {
    var isNextHeapPtr := if Vanishes(nv.addr - HP_START) then 1 else 0;
    && Zero5(nv.txIdx - lv.txIdx, nv.envIdx - lv.envIdx, nv.isRw, 1 - nv.isWrite, nv.addr - HP_START)
    && Zero2(isNextHeapPtr, nv.addr - HP_START)
    && Zero4(lv.addr - HP_START, isNextHeapPtr, 1 - nv.isWrite, nv.value - (HP_START + 1))
  }

  predicate FirstRow(lv: Row) {
    Zero3(lv.isRw, 1 - lv.isWrite, lv.addr - HP_START)
  }

  /** All of `MemoryStark` at row i of a table; the row after the last one is the first. */
  predicate RowHolds(t: seq<Row>, i: nat)
    requires i < |t|
  {
    var lv, nv := t[i], t[if i + 1 == |t| then 0 else i + 1];
    && Selectors(lv) && AccessKind(lv) && Regions(lv)
    && (i + 1 < |t| ==> Order(lv, nv) && RangeChecked(lv, nv))
    && WriteOnce(lv, nv) && ReadFollows(lv, nv) && HeapPointer(lv, nv)
    && (i == 0 ==> FirstRow(lv))
  }

  ghost predicate TableHolds(t: seq<Row>) {
    forall i :: 0 <= i < |t| ==> RowHolds(t, i)
  }

  // ---- what the read/write constraints alone guarantee ----

  predicate IsWrite(r: Row) { Vanishes(1 - r.isWrite) }

  /** Rows lo to i are at one address, and those after the first are not writes. */
  ghost predicate ReadRun(t: seq<Row>, lo: nat, i: nat)
    requires lo <= i < |t|
  {
    && (forall k :: lo < k <= i ==> !IsWrite(t[k]))
    && (forall k :: lo <= k <= i ==> Same(t[k].addr, t[i].addr))
  }

  lemma ExtendRun(t: seq<Row>, lo: nat, i: nat)
    requires lo <= i < |t| - 1 && ReadRun(t, lo, i) && !IsWrite(t[i + 1]) && Same(t[i].addr, t[i + 1].addr)
    ensures ReadRun(t, lo, i + 1)
  {
    forall k | lo <= k <= i + 1 ensures Same(t[k].addr, t[i + 1].addr) {
      if k <= i { SameTransitive(t[k].addr, t[i].addr, t[i + 1].addr); }
    }
  }

  /** In any table that satisfies the read/write constraints, whatever its other columns, a row that
      is not a write carries the value of the nearest write above it at the same address, unless it
      is at the heap pointer or the walk upwards ends at a first row outside the read-write region. */
  lemma {:induction false} ReadsSeeWrites(t: seq<Row>, i: nat) returns (w: nat)
    requires i < |t|
    requires forall k :: 0 <= k < |t| - 1 ==> ReadFollows(t[k], t[k + 1])
    requires FirstRow(t[0])
    requires !Same(t[i].addr, HP_START)
    ensures w <= i && ReadRun(t, w, i) && Same(t[w].value, t[i].value)
    ensures IsWrite(t[w]) || (w == 0 && Vanishes(t[0].isRw))
  {
    hide Zero3;
    if IsWrite(t[i]) || i == 0 {
      w := i;
    } else {
      var up := t[i - 1];
      assert ReadFollows(up, t[i]);
      SameTransitive(t[i].addr, up.addr, HP_START);
      w := ReadsSeeWrites(t, i - 1);
      ExtendRun(t, w, i - 1);
      SameTransitive(t[w].value, up.value, t[i].value);
    }
  }
}
