/** The CPU table and every constraint of `CpuStark` on it. A group of constraints is one predicate
    over a row and its successor; `last` marks the pair that wraps around, on which transition
    constraints do not apply. */
module CpuAir {
  import opened Goldilocks
  import opened Air
  import opened Words

  const ADD: int := 0x8000_0000
  const MUL: int := 0x4000_0000
  const EQ: int := 0x2000_0000
  const ASSERT: int := 0x1000_0000
  const MOV: int := 0x800_0000
  const JMP: int := 0x400_0000
  const CJMP: int := 0x200_0000
  const CALL: int := 0x100_0000
  const RET: int := 0x80_0000
  const MLOAD: int := 0x40_0000
  const MSTORE: int := 0x20_0000
  const END: int := 0x10_0000
  const RC: int := 0x8_0000
  const AND: int := 0x4_0000
  const OR: int := 0x2_0000
  const XOR: int := 0x1_0000
  const NOT: int := 0x8000
  const NEQ: int := 0x4000
  const GTE: int := 0x2000
  const POSEIDON: int := 0x1000
  const SLOAD: int := 0x800
  const SSTORE: int := 0x400
  const TLOAD: int := 0x200
  const TSTORE: int := 0x100
  const SCCALL: int := 0x80

  const FP: nat := 9

  datatype Row = Row(
    tx: int, env: int, callCnt: int, storage: seq<int>, code: seq<int>, tp: int, clk: int, pc: int,
    isExt: int, extCnt: int, regs: seq<int>,
    inst: int, op1Imm: int, opcode: int, immVal: int,
    op0: int, op1: int, dst: int, aux0: int, aux1: int, idxStorage: int,
    sOp0: seq<int>, sOp1: seq<int>, sDst: seq<int>,
    sArith: int, sMov: int, sJmp: int, sCjmp: int, sCall: int, sRet: int, sMload: int, sMstore: int, sEnd: int,
    sRc: int, sBitwise: int, sNot: int, sGte: int, sPsdn: int, sSload: int, sSstore: int,
    sTload: int, sTstore: int, sCallSc: int,
    isEntry: int, isDiffInst: int, isSameTx: int, filterTape: int, isSccallExt: int, isStorageExt: int,
    filterSccallEnd: int, filterProgImm: int, isPadding: int)
  {
    predicate Shaped() {
      && |storage| == |code| == 4
      && |regs| == |sOp0| == |sOp1| == |sDst| == REGS
    }

    function IsExtInst(): int { sSload + sSstore + sTload + sTstore + sCallSc + sEnd }

    function ExtLength(): int {
      sSload + sSstore + sTload * (op0 * op1 + (1 - op0)) + sTstore * op1 + sCallSc + sEnd * (1 - isEntry)
    }
  }

  function Sum(s: seq<int>): int {
    if s == [] then 0 else Sum(s[..|s| - 1]) + s[|s| - 1]
  }

  function Dot(s: seq<int>, r: seq<int>): int
    requires |s| == |r|
  {
    if s == [] then 0 else Dot(s[..|s| - 1], r[..|s| - 1]) + s[|s| - 1] * r[|s| - 1]
  }

  predicate WrapperCols(lv: Row, nv: Row, last: bool) {
    && Zero2(lv.isPadding, lv.isPadding - 1)
    && (!last ==> Zero2(nv.isPadding - lv.isPadding, nv.isPadding - lv.isPadding - 1))
    && Zero2(lv.isPadding, lv.sEnd - 1)
    && Zero2(lv.isEntry, nv.env)
    && Zero3(1 - nv.isPadding, lv.isSameTx, nv.tx - lv.tx)
    && (!last ==> Zero3(1 - nv.isPadding, 1 - lv.isSameTx, nv.tx - lv.tx - 1))
    && Zero2(lv.isDiffInst, lv.ExtLength() - lv.extCnt)
  }

  predicate FirstRow(lv: Row) {
    && Vanishes(lv.tx) && Vanishes(lv.env) && Vanishes(lv.callCnt) && Vanishes(lv.clk) && Vanishes(lv.pc)
    && (forall i :: 0 <= i < |lv.regs| ==> Vanishes(lv.regs[i]))
    && Vanishes(lv.idxStorage - (lv.sSstore + lv.sSload))
  }

  /** A new transaction starts from scratch: all rows but the last. */
  predicate TxInit(lv: Row, nv: Row) {
    && Zero2(lv.isSameTx, nv.tx - lv.tx)
    && Zero2(1 - lv.isSameTx, nv.env) && Zero2(1 - lv.isSameTx, nv.callCnt) && Zero2(1 - lv.isSameTx, nv.tp)
    && Zero2(1 - lv.isSameTx, nv.clk) && Zero2(1 - lv.isSameTx, nv.pc)
    && (forall i :: 0 <= i < |nv.regs| ==> Zero2(1 - lv.isSameTx, nv.regs[i]))
  }

  /** Transaction index and context registers: all rows but the last. */
  predicate Context(lv: Row, nv: Row)
    requires lv.Shaped() && nv.Shaped()
  {
    && Zero3(1 - nv.isPadding, 1 - lv.sEnd, nv.tx - lv.tx)
    && Zero4(1 - nv.isPadding, lv.isEntry, lv.sEnd, nv.tx - lv.tx - 1)
    && (forall i :: 0 <= i < 4 ==>
          && Zero4(1 - nv.isPadding, 1 - lv.sEnd, 1 - lv.sCallSc, nv.storage[i] - lv.storage[i])
          && Zero4(1 - nv.isPadding, 1 - lv.sEnd, 1 - lv.sCallSc, nv.code[i] - lv.code[i]))
  }

  predicate ImmFilter(lv: Row) {
    && Zero3(1 - lv.isPadding - lv.isExt, lv.op1Imm, 1 - lv.filterProgImm)
    && Zero3(1 - lv.isPadding - lv.isExt, lv.sMload + lv.sMstore, 1 - lv.filterProgImm)
  }

  predicate ExtLines(lv: Row, nv: Row) {
    && Zero2(1 - lv.IsExtInst(), lv.isExt)
    && Zero3(lv.IsExtInst(), lv.ExtLength() - lv.extCnt, 1 - nv.isExt)
    && Zero3(lv.IsExtInst(), 1 - lv.isExt, lv.extCnt)
    && Zero3(nv.IsExtInst(), nv.isExt, nv.extCnt - lv.extCnt - 1)
    && Zero2(nv.isExt, nv.opcode - lv.opcode)
    && Zero2(nv.isExt, nv.sArith - lv.sArith) && Zero2(nv.isExt, nv.sMov - lv.sMov)
    && Zero2(nv.isExt, nv.sJmp - lv.sJmp) && Zero2(nv.isExt, nv.sCjmp - lv.sCjmp)
    && Zero2(nv.isExt, nv.sCall - lv.sCall) && Zero2(nv.isExt, nv.sRet - lv.sRet)
    && Zero2(nv.isExt, nv.sMload - lv.sMload) && Zero2(nv.isExt, nv.sMstore - lv.sMstore)
    && Zero2(nv.isExt, nv.sEnd - lv.sEnd) && Zero2(nv.isExt, nv.sRc - lv.sRc)
    && Zero2(nv.isExt, nv.sBitwise - lv.sBitwise) && Zero2(nv.isExt, nv.sNot - lv.sNot)
    && Zero2(nv.isExt, nv.sGte - lv.sGte) && Zero2(nv.isExt, nv.sPsdn - lv.sPsdn)
    && Zero2(nv.isExt, nv.sSload - lv.sSload) && Zero2(nv.isExt, nv.sSstore - lv.sSstore)
    && Zero2(nv.isExt, nv.sTload - lv.sTload) && Zero2(nv.isExt, nv.sTstore - lv.sTstore)
    && Zero2(nv.isExt, nv.sCallSc - lv.sCallSc)
    && Zero2(nv.isExt, nv.op1Imm - lv.op1Imm)
  }

  predicate EnvIdx(lv: Row, nv: Row, last: bool) {
    && (!last ==> Zero3(lv.sCallSc, lv.isDiffInst, nv.callCnt - lv.callCnt - 1))
    && (!last ==> Zero3(lv.isSameTx, 1 - lv.sCallSc, nv.callCnt - lv.callCnt))
    && Zero3(lv.sCallSc, 1 - lv.isDiffInst, nv.callCnt - lv.callCnt)
    && Zero3(lv.sCallSc, lv.isDiffInst, nv.env - lv.callCnt)
    && Zero2(1 - lv.sCallSc - lv.sEnd, nv.env - lv.env)
    && Zero3(lv.sCallSc, 1 - lv.isDiffInst, nv.env - lv.env)
    && Zero3(lv.sEnd, lv.isExt, nv.env - lv.env)
  }

  predicate Binary(s: int) { Zero2(s, 1 - s) }

  /** Exactly one opcode selector is set, and it is that of the opcode. */
  predicate OpcodeSelector(lv: Row) {
    && Zero6(lv.sArith, lv.opcode - ADD, lv.opcode - MUL, lv.opcode - EQ, lv.opcode - NEQ, lv.opcode - ASSERT)
    && Zero4(lv.sBitwise, lv.opcode - AND, lv.opcode - OR, lv.opcode - XOR)
    && Binary(lv.sArith) && Binary(lv.sMov) && Binary(lv.sJmp) && Binary(lv.sCjmp) && Binary(lv.sCall)
    && Binary(lv.sRet) && Binary(lv.sMload) && Binary(lv.sMstore) && Binary(lv.sEnd) && Binary(lv.sRc)
    && Binary(lv.sBitwise) && Binary(lv.sNot) && Binary(lv.sGte) && Binary(lv.sPsdn) && Binary(lv.sSload)
    && Binary(lv.sSstore) && Binary(lv.sTload) && Binary(lv.sTstore) && Binary(lv.sCallSc)
    && Vanishes(1 - (lv.sArith + lv.sMov + lv.sJmp + lv.sCjmp + lv.sCall + lv.sRet + lv.sMload + lv.sMstore
                     + lv.sEnd + lv.sRc + lv.sBitwise + lv.sNot + lv.sGte + lv.sPsdn + lv.sSload + lv.sSstore
                     + lv.sTload + lv.sTstore + lv.sCallSc))
    && Zero2(lv.opcode - SelectedOpcode(lv), 1 - lv.sBitwise - lv.sArith)
  }

  function SelectedOpcode(lv: Row): int {
    lv.sMov * MOV + lv.sJmp * JMP + lv.sCjmp * CJMP + lv.sCall * CALL + lv.sRet * RET + lv.sMload * MLOAD
    + lv.sMstore * MSTORE + lv.sEnd * END + lv.sRc * RC + lv.sNot * NOT + lv.sGte * GTE + lv.sPsdn * POSEIDON
    + lv.sSload * SLOAD + lv.sSstore * SSTORE + lv.sTload * TLOAD + lv.sTstore * TSTORE + lv.sCallSc * SCCALL
  }

  function RowSelectors(lv: Row): Selectors { Selectors(lv.op1Imm, lv.sOp0, lv.sOp1, lv.sDst) }

  predicate InstructionEncode(lv: Row) {
    && Zero2(lv.op1Imm, 1 - lv.op1Imm)
    && Zero2(1 - lv.isExt, lv.inst - Encode(RowSelectors(lv), lv.opcode))
    && Zero3(1 - lv.isExt, lv.op1Imm, lv.op1 - lv.immVal)
  }

  /** Every selector of a field is binary, and at most one of them is set. */
  predicate FieldSelectors(isExt: int, s: seq<int>) {
    && (forall i :: 0 <= i < |s| ==> Zero3(1 - isExt, s[i], 1 - s[i]))
    && Zero3(1 - isExt, Sum(s), 1 - Sum(s))
  }

  predicate Operands(lv: Row, nv: Row)
    requires lv.Shaped() && nv.Shaped()
  {
    && FieldSelectors(lv.isExt, lv.sOp0) && FieldSelectors(lv.isExt, lv.sOp1) && FieldSelectors(lv.isExt, lv.sDst)
    && Zero3(1 - lv.isExt, Sum(lv.sOp0), lv.op0 - Dot(lv.sOp0, lv.regs))
    && Zero3(1 - lv.isExt, Sum(lv.sOp1), lv.op1 - Dot(lv.sOp1, lv.regs))
    && Zero3(1 - lv.isExt, Sum(lv.sDst), lv.dst - Dot(lv.sDst, nv.regs))
  }

  predicate Clk(lv: Row, nv: Row) {
    && Zero3(nv.isExt, 1 - nv.sEnd, nv.clk - lv.clk)
    && Zero4(lv.isSameTx, 1 - lv.sCallSc - lv.sEnd, 1 - nv.isExt, nv.clk - lv.clk - 1)
  }

  function InstructionSize(lv: Row): int {
    (1 - lv.sMload - lv.sMstore) * (1 + lv.op1Imm) + (lv.sMload + lv.sMstore) * 2
  }

  function NextPc(lv: Row): int {
    (1 - (lv.sJmp + lv.sCjmp + lv.sCall + lv.sRet)) * (lv.pc + InstructionSize(lv))
    + lv.sJmp * lv.op1
    + lv.sCjmp * ((1 - lv.op0) * (lv.pc + InstructionSize(lv)) + lv.op0 * lv.op1)
    + lv.sCall * lv.op1
    + lv.sRet * lv.dst
  }

  predicate Pc(lv: Row, nv: Row) {
    && Zero3(nv.isExt, 1 - nv.sEnd, nv.clk - lv.clk)
    && Zero3(1 - nv.isExt, 1 - lv.sEnd - lv.sCallSc, nv.pc - NextPc(lv))
    && Zero4(1 - nv.isExt, lv.sCjmp, lv.op0, 1 - lv.op0)
  }

  /** Only the destination register changes: all rows but the last. */
  predicate RegConsistency(lv: Row, nv: Row)
    requires lv.Shaped() && nv.Shaped()
  {
    var multi := lv.sSload + lv.sPsdn + lv.sCallSc * lv.isDiffInst + lv.sEnd * (1 - lv.isExt);
    && (forall i :: 0 <= i < FP ==> Zero3(1 - multi, 1 - lv.sDst[i], nv.regs[i] - lv.regs[i]))
    && Zero3(1 - lv.sRet - lv.sCallSc * lv.isDiffInst - lv.sEnd, 1 - lv.sDst[FP], nv.regs[FP] - lv.regs[FP])
  }

  // ---- one predicate per opcode file ----

  predicate Arith(lv: Row) {
    var op := lv.opcode;
    var diff := lv.op0 - lv.op1;
    var isEq := lv.sArith * (op - ADD) * (op - MUL) * (op - NEQ) * (op - ASSERT);
    var isNeq := lv.sArith * (op - ADD) * (op - MUL) * (op - EQ) * (op - ASSERT);
    && Zero6(lv.sArith, op - MUL, op - EQ, op - NEQ, op - ASSERT, lv.dst - (lv.op0 + lv.op1))
    && Zero6(lv.sArith, op - ADD, op - EQ, op - NEQ, op - ASSERT, lv.dst - lv.op0 * lv.op1)
    && Vanishes(isEq * (lv.dst * diff + (1 - lv.dst) * (1 - diff * lv.aux0))
                + isNeq * ((1 - lv.dst) * diff + lv.dst * (1 - diff * lv.aux0)))
    && Zero6(lv.sArith, op - ADD, op - MUL, op - EQ, op - NEQ, 1 - lv.op1)
  }

  predicate Mov(lv: Row) { Zero2(lv.sMov, lv.dst - lv.op1) }

  predicate Call(lv: Row)
    requires lv.Shaped()
  {
    var op0Cs := lv.op0 + 1 - lv.regs[FP];
    var op1Cs := lv.op1Imm * (lv.dst - lv.pc - 2) + (1 - lv.op1Imm) * (lv.dst - lv.pc - 1);
    var aux0Cs := lv.aux0 - lv.regs[FP] + 2;
    Zero2(lv.sCall, op0Cs + op1Cs + aux0Cs)
  }

  predicate Ret(lv: Row, nv: Row, last: bool)
    requires lv.Shaped() && nv.Shaped()
  {
    var op0Cs := lv.op0 + 1 - lv.regs[FP];
    var aux0Cs := lv.aux0 + 2 - lv.regs[FP];
    && Zero2(lv.sRet, op0Cs + (lv.dst - nv.pc) + aux0Cs)
    && (!last ==> Zero2(lv.sRet, nv.regs[FP] - lv.aux1))
  }

  /** Load and store have the same address constraints under their own selector. */
  predicate Address(lv: Row, s: int) {
    && Zero3(s, 1 - lv.op1Imm, lv.aux0 - lv.immVal)
    && Zero3(s, lv.op1Imm, lv.aux1 - lv.op0 - lv.op1)
    && Zero3(s, 1 - lv.op1Imm, lv.aux1 - lv.op0 - lv.aux0 * lv.op1)
  }

  predicate Storage(lv: Row, nv: Row, last: bool)
    requires lv.Shaped()
  {
    var op := lv.sSstore + lv.sSload;
    && (!last ==> Vanishes(nv.idxStorage - lv.idxStorage - nv.isStorageExt))
    && Zero3(op, 1 - lv.isExt, nv.op0 - lv.op0)
    && Zero3(op, 1 - lv.isExt, nv.op1 - lv.op1)
    && Zero3(op, lv.isExt, lv.sOp0[0] - lv.op0)
    && Zero3(op, lv.isExt, lv.sOp1[0] - lv.op1)
    && (forall i :: 0 <= i < 3 ==> Zero3(op, lv.isExt, lv.sOp0[i + 1] - lv.sOp0[i] - 1))
    && (forall i :: 0 <= i < 3 ==> Zero3(op, lv.isExt, lv.sOp1[i + 1] - lv.sOp1[i] - 1))
    && Zero3(op, lv.isExt, 1 - lv.isStorageExt)
    && Zero2(1 - op, lv.isStorageExt)
    && Zero3(op, 1 - lv.isExt, lv.isStorageExt)
  }

  predicate TapeCopies(lv: Row, nv: Row)
    requires lv.Shaped() && nv.Shaped()
  {
    && Zero3(nv.sTstore + nv.sTload, nv.isExt, nv.op0 - lv.op0)
    && Zero3(nv.sTstore + nv.sTload, nv.isExt, nv.op1 - lv.op1)
    && Zero4(lv.sTstore + lv.sTload, lv.isExt, nv.isExt, nv.aux0 - lv.aux0 - 1)
    && Zero3(lv.sTstore, 1 - lv.isExt, lv.tp - nv.sOp0[0])
    && Zero4(lv.sTstore, lv.isExt, nv.isExt, nv.sOp0[0] - lv.sOp0[0] - 1)
    && Zero3(lv.sTstore, 1 - nv.isExt, nv.tp - lv.sOp0[0] - 1)
    && Zero4(lv.sTload, lv.op0, 1 - lv.isExt, nv.sOp0[0] + lv.op1 - lv.tp)
    && Zero4(lv.sTload, 1 - lv.op0, 1 - lv.isExt, nv.sOp0[0] - lv.op1)
    && Zero4(lv.sTstore + lv.sTload, lv.isExt, nv.isExt, nv.sOp0[0] - lv.sOp0[0] - 1)
    && Zero3(lv.sTstore, 1 - lv.isExt, lv.op0 - nv.aux0)
    && Zero3(lv.sTload, 1 - lv.isExt, lv.dst - nv.aux0)
  }

  predicate TapePointer(lv: Row, nv: Row)
    requires lv.Shaped()
  {
    && Zero3(lv.isSameTx, 1 - lv.sTstore - nv.sCallSc, nv.tp - lv.tp)
    && Zero3(lv.sTstore, nv.isExt, nv.tp - lv.tp)
    && Zero3(lv.sTstore, 1 - nv.isExt, nv.tp - lv.sOp0[0] - 1)
    && Zero3(1 - lv.sCallSc, nv.sCallSc, nv.tp - lv.tp)
    && Zero3(lv.sCallSc, 1 - lv.isExt, nv.tp - lv.tp)
    && Zero3(lv.sCallSc, lv.isExt, nv.tp - lv.tp - 12)
    && Zero2(lv.filterTape, 1 - lv.filterTape)
    && Zero2(lv.filterTape, 1 - lv.sTload - lv.sTstore)
    && Zero2(lv.filterTape, 1 - lv.isExt)
    && Zero3(lv.sTload + lv.sTstore, lv.isExt, 1 - lv.filterTape)
  }

  predicate CallSc(lv: Row, nv: Row)
    requires lv.Shaped() && nv.Shaped()
  {
    && (forall i :: 0 <= i < 4 ==> Zero3(lv.sCallSc, 1 - lv.isExt, nv.sOp0[i] - lv.storage[i]))
    && (forall i :: 0 <= i < 4 ==> Zero3(lv.sCallSc, 1 - lv.isExt, nv.sOp0[i + 4] - lv.code[i]))
    && Zero3(lv.sCallSc, 1 - lv.isExt, nv.op0 - lv.op0)
    && Zero3(lv.sCallSc, 1 - lv.isExt, nv.op1 - lv.op1)
    && Zero3(lv.sCallSc, lv.isDiffInst, nv.clk) && Zero3(lv.sCallSc, lv.isDiffInst, nv.pc)
    && (forall i :: 0 <= i < REGS ==> Zero3(lv.sCallSc, lv.isDiffInst, nv.regs[i]))
    && (forall i :: 0 <= i < 4 ==>
          && Zero3(lv.sCallSc, lv.isDiffInst, nv.storage[i] - lv.storage[i])
          && Zero3(lv.sCallSc, lv.isDiffInst, nv.code[i] - lv.code[i]))
    && Zero2(lv.isSccallExt, 1 - lv.isSccallExt)
    && Zero2(1 - lv.sCallSc, lv.isSccallExt)
    && Zero3(lv.sCallSc, lv.isExt, 1 - lv.isSccallExt)
    && Zero3(lv.sCallSc, 1 - lv.isExt, lv.isSccallExt)
  }

  predicate EndExt(lv: Row, nv: Row, last: bool) {
    && (!last ==> Zero3(lv.sEnd, 1 - lv.isDiffInst, lv.env - nv.aux0))
    && (!last ==> Zero3(lv.sEnd, 1 - lv.isDiffInst, lv.clk - nv.aux1))
    && Zero4(lv.sEnd, lv.isExt, 1 - lv.isDiffInst, nv.pc - lv.pc)
    && Zero4(lv.sEnd, lv.isExt, 1 - lv.isDiffInst, nv.clk - lv.clk)
    && Zero2(lv.filterSccallEnd, 1 - lv.filterSccallEnd)
    && Zero2(1 - lv.sEnd, lv.filterSccallEnd)
    && Zero3(lv.sEnd, 1 - lv.isExt, lv.filterSccallEnd)
    && Zero3(lv.sEnd, lv.isExt, 1 - lv.filterSccallEnd)
  }

  /** Constraints on transactions, environments and extension lines. */
  predicate Framing(lv: Row, nv: Row, last: bool)
    requires lv.Shaped() && nv.Shaped()
  {
    && WrapperCols(lv, nv, last) && ExtLines(lv, nv) && EnvIdx(lv, nv, last)
    && (!last ==> TxInit(lv, nv) && Context(lv, nv))
    && Storage(lv, nv, last) && TapeCopies(lv, nv) && TapePointer(lv, nv) && CallSc(lv, nv) && EndExt(lv, nv, last)
  }

  /** Constraints on the instruction of one row. */
  predicate Decoding(lv: Row, nv: Row)
    requires lv.Shaped() && nv.Shaped()
  {
    OpcodeSelector(lv) && InstructionEncode(lv) && ImmFilter(lv) && Operands(lv, nv)
  }

  /** Constraints on what the instruction computes. */
  predicate Effect(lv: Row, nv: Row, last: bool)
    requires lv.Shaped() && nv.Shaped()
  {
    && Clk(lv, nv) && Pc(lv, nv) && (!last ==> RegConsistency(lv, nv))
    && Arith(lv) && Mov(lv) && Call(lv) && Ret(lv, nv, last) && Address(lv, lv.sMload) && Address(lv, lv.sMstore)
  }

  /** All of `CpuStark` at row i; the row after the last one is the first. */
  predicate RowHolds(t: seq<Row>, i: nat)
    requires i < |t| && forall k :: 0 <= k < |t| ==> t[k].Shaped()
  {
    var last := i + 1 == |t|;
    var lv, nv := t[i], t[if last then 0 else i + 1];
    && Framing(lv, nv, last) && Decoding(lv, nv) && Effect(lv, nv, last)
    && (i == 0 ==> FirstRow(lv))
  }

  ghost predicate TableHolds(t: seq<Row>) {
    && (forall k :: 0 <= k < |t| ==> t[k].Shaped())
    && forall i :: 0 <= i < |t| ==> RowHolds(t, i)
  }
}
