/** Every run of the executor that finishes at END yields a CPU table that satisfies all of
    `CpuStark`, if and only if every step it executed fits the constraints' idea of a word, of a
    condition and of an offset. */
module CpuComplete {
  import opened Goldilocks
  import opened Air
  import opened Words
  import opened Cpu
  import opened CpuStep
  import opened CpuTrace
  import A = CpuAir

  // ---- one-hot register fields ----

  lemma {:induction false} HotSum(i: nat, n: nat)
    requires n <= REGS
    ensures A.Sum(OneHot(i)[..n]) == if i < n then 1 else 0
  {
    if n > 0 {
      HotSum(i, n - 1);
      assert OneHot(i)[..n][..n - 1] == OneHot(i)[..n - 1];
    }
  }

  lemma {:induction false} HotDot(i: nat, r: seq<int>, n: nat)
    requires n <= REGS == |r|
    ensures A.Dot(OneHot(i)[..n], r[..n]) == if i < n then r[i] else 0
  {
    if n > 0 {
      HotDot(i, r, n - 1);
      assert OneHot(i)[..n][..n - 1] == OneHot(i)[..n - 1];
      assert r[..n][..n - 1] == r[..n - 1];
    }
  }

  /** A field that selects the register its value comes from, or selects nothing. */
  lemma FieldHolds(x: int, i: nat, r: seq<int>)
    requires |r| == REGS && (i < REGS ==> x == r[i])
    ensures A.FieldSelectors(0, OneHot(i))
    ensures Zero3(1 - 0, A.Sum(OneHot(i)), x - A.Dot(OneHot(i), r))
  {
    hide Zero3;
    HotSum(i, REGS);
    HotDot(i, r, REGS);
    assert OneHot(i)[..REGS] == OneHot(i) && r[..REGS] == r;
  }

  // ---- rows without extension lines ----

  /** What all rows of a run have in common: one transaction, one environment, no extension lines. */
  predicate Quiet(r: A.Row) {
    && r.Shaped()
    && r.tx == r.env == r.callCnt == r.isExt == r.extCnt == r.idxStorage == 0
    && r.sRc == r.sBitwise == r.sNot == r.sGte == r.sPsdn == r.sSload == r.sSstore == 0
    && r.sTload == r.sTstore == r.sCallSc == 0
    && r.isEntry == r.isDiffInst == 1
    && r.filterTape == r.isSccallExt == r.isStorageExt == r.filterSccallEnd == 0
    && r.isSameTx == 1 - r.sEnd
    && Bit01(r.sEnd) && Bit01(r.isPadding) && (r.isPadding == 1 ==> r.sEnd == 1)
  }

  /** The row after lv continues the run, or is padding after its end. */
  predicate Continues(lv: A.Row, nv: A.Row) {
    if lv.sEnd == 0 then nv.isPadding == 0 && nv.tp == lv.tp && nv.storage == lv.storage && nv.code == lv.code
    else nv.isPadding == 1 && nv.tp == nv.clk == nv.pc == 0 && forall i :: 0 <= i < |nv.regs| ==> nv.regs[i] == 0
  }

  lemma FramingHolds(lv: A.Row, nv: A.Row, last: bool)
    requires Quiet(lv) && Quiet(nv)
    requires if last then lv.sEnd == 1 else Continues(lv, nv)
    ensures A.Framing(lv, nv, last)
  {
    hide Zero2, Zero3, Zero4;
    FramingCore(lv, nv, last);
    FramingExt(lv, nv, last);
  }

  lemma FramingCore(lv: A.Row, nv: A.Row, last: bool)
    requires Quiet(lv) && Quiet(nv)
    requires if last then lv.sEnd == 1 else Continues(lv, nv)
    ensures A.WrapperCols(lv, nv, last) && A.EnvIdx(lv, nv, last)
    ensures !last ==> A.TxInit(lv, nv) && A.Context(lv, nv)
  {
    hide Zero2, Zero3, Zero4;
  }

  lemma FramingExt(lv: A.Row, nv: A.Row, last: bool)
    requires Quiet(lv) && Quiet(nv)
    requires if last then lv.sEnd == 1 else Continues(lv, nv)
    ensures A.ExtLines(lv, nv) && A.Storage(lv, nv, last) && A.TapeCopies(lv, nv) && A.TapePointer(lv, nv)
    ensures A.CallSc(lv, nv) && A.EndExt(lv, nv, last)
  {
    hide Zero2, Zero3, Zero4;
  }

  lemma StepKnown(s: State, f: Fetched, d: Done)
    requires s.Valid() && Exec(s, f) == Ok(d)
    ensures IsOpcode(d.opcode) && (d.opcode == A.END <==> f.ins.End?)
    ensures |d.ops.sOp0| == |d.ops.sOp1| == |d.ops.sDst| == REGS
  {
    hide ReadCell, WriteCell, BinResult, BinAux, OffsetValue, AddressOf;
  }

  lemma StepQuiet(e: Env, s: State, f: Fetched, d: Done)
    requires e.Valid() && s.Valid() && Exec(s, f) == Ok(d)
    ensures var r := StepRow(MakeStep(e, s, f, d)); Quiet(r) && r.isPadding == 0 && (r.sEnd == 1 <==> f.ins.End?)
  {
    hide Exec;
    StepKnown(s, f, d);
  }

  lemma PadQuiet(inst: int)
    ensures var r := PaddingRow(0, inst, 0); Quiet(r) && r.isPadding == 1 && Continues(r, r)
  {
  }

  // ---- decoding constraints ----

  /** How an instruction relates to the words it was fetched from. */
  predicate WellFetched(f: Fetched) {
    && f.step == Length(f.ins) && f.immFlag == (if f.step == 2 then 1 else 0)
    && match f.ins
       case Binary(_, _, _, op1) => ImmIs(op1, f.imm)
       case Mov(_, op1) => ImmIs(op1, f.imm)
       case Assert(op1) => ImmIs(op1, f.imm)
       case Jmp(op1) => ImmIs(op1, f.imm)
       case Cjmp(_, op1) => ImmIs(op1, f.imm)
       case Call(op1) => ImmIs(op1, f.imm)
       case Mload(_, _, offset) => OffsetIs(offset, f.imm)
       case Mstore(_, offset, _) => OffsetIs(offset, f.imm)
       case _ => true
  }

  predicate ImmIs(o: Operand, imm: Felt) { o.Imm? ==> o.v == imm }

  predicate OffsetIs(o: Offset, imm: Felt) { if o.Direct? then o.imm == imm else o.factor == imm }

  lemma FetchedIs(words: seq<Felt>, pc: nat)
    requires pc < |words| && FetchAt(words, pc).Ok?
    ensures WellFetched(FetchAt(words, pc).value)
  {
    hide Pow2, HighestBit, OpcodeField, ImmField, DstIndex, Op0Index, Op1Index;
    ConsumesNext(words, pc);
  }

  function DoneSelectors(d: Done): Selectors { Selectors(d.op1Imm, d.ops.sOp0, d.ops.sOp1, d.ops.sDst) }

  /** The selectors and the opcode that a step records add up to its instruction word. */
  predicate Reencodes(f: Fetched, d: Done) { Encode(DoneSelectors(d), d.opcode) == f.word }

  /** What every successful step records. */
  ghost predicate Recorded(s: State, f: Fetched, d: Done, n: seq<Felt>)
    requires s.Valid() && |n| == REGS
  {
    && Bit01(d.op1Imm) && (d.op1Imm == 1 ==> d.ops.op1 == f.imm)
    && (exists i: nat :: d.ops.sOp0 == OneHot(i) && (i < REGS ==> d.ops.op0 == s.regs[i]))
    && (exists i: nat :: d.ops.sOp1 == OneHot(i) && (i < REGS ==> d.ops.op1 == s.regs[i]))
    && (exists i: nat :: d.ops.sDst == OneHot(i) && (i < REGS ==> d.ops.dst == n[i]))
  }

  lemma RecordsOperands(s: State, f: Fetched, d: Done)
    requires s.Valid() && WellFetched(f) && Exec(s, f) == Ok(d)
    ensures Recorded(s, f, d, d.next.regs)
  {
    hide OneHot, ReadCell, WriteCell, BinResult, BinAux, OffsetValue, AddressOf;
    var i := f.ins;
    var a := if i.Binary? || i.Cjmp? || i.Mload? || i.Mstore? then i.op0 else NOT_USED;
    var b := match i
      case Mload(_, _, o) => if o.Direct? then NOT_USED else o.reg
      case Mstore(_, o, _) => if o.Direct? then NOT_USED else o.reg
      case Ret => NOT_USED
      case End => NOT_USED
      case Other(_) => NOT_USED
      case Call(_) => NOT_USED
      case _ => if i.op1.Reg? then i.op1.i else NOT_USED;
    var c := if i.Binary? || i.Mov? || i.Mload? || i.Mstore? then i.dst else NOT_USED;
    assert d.ops.sOp0 == OneHot(a) && (a < REGS ==> d.ops.op0 == s.regs[a]);
    assert d.ops.sOp1 == OneHot(b) && (b < REGS ==> d.ops.op1 == s.regs[b]);
    assert d.ops.sDst == OneHot(c) && (c < REGS ==> d.ops.dst == d.next.regs[c]);
  }

  predicate IsOpcode(op: int) {
    op in {A.ADD, A.MUL, A.EQ, A.NEQ, A.ASSERT, A.MOV, A.JMP, A.CJMP, A.CALL, A.RET, A.MLOAD, A.MSTORE, A.END}
  }

  lemma OpcodeRecorded(s: State, f: Fetched, d: Done)
    requires s.Valid() && WellFetched(f) && Exec(s, f) == Ok(d)
    ensures IsOpcode(d.opcode) && Bit01(d.op1Imm)
  {
    hide OneHot, ReadCell, WriteCell, BinResult, BinAux, OffsetValue, AddressOf;
  }

  lemma OpcodeHolds(e: Env, s: State, f: Fetched, d: Done)
    requires s.Valid() && WellFetched(f) && Exec(s, f) == Ok(d)
    ensures var r := StepRow(MakeStep(e, s, f, d)); A.OpcodeSelector(r) && A.ImmFilter(r) && 0 <= d.opcode < Pow2(32)
  {
    hide Exec, WellFetched, Zero2, Zero3, Zero4, Zero6, Pow2;
    OpcodeRecorded(s, f, d);
    Pow2Values();
  }

  /** The columns that say what instruction a row is for. */
  lemma WordColumns(e: Env, s: State, f: Fetched, d: Done)
    ensures var r := StepRow(MakeStep(e, s, f, d));
            && r.isExt == 0 && r.inst == f.word && r.immVal == f.imm && r.opcode == d.opcode && r.op1Imm == d.op1Imm
            && r.op0 == d.ops.op0 && r.op1 == d.ops.op1 && r.dst == d.ops.dst
            && r.pc == s.pc && r.clk == s.clk && r.regs == s.regs && A.RowSelectors(r) == DoneSelectors(d)
  {
  }

  lemma RecordsSelectors(s: State, f: Fetched, d: Done)
    requires s.Valid() && WellFetched(f) && Exec(s, f) == Ok(d)
    ensures DoneSelectors(d).Valid() && (d.op1Imm == 1 ==> d.ops.op1 == f.imm)
  {
    hide Exec, WellFetched;
    RecordsOperands(s, f, d);
  }

  lemma EncodingHolds(e: Env, s: State, f: Fetched, d: Done)
    requires s.Valid() && WellFetched(f) && Exec(s, f) == Ok(d)
    ensures A.InstructionEncode(StepRow(MakeStep(e, s, f, d))) <==> Reencodes(f, d)
  {
    hide Exec, Encode, Zero2, Zero3, WellFetched, StepRow, MakeStep, A.OpcodeSelector, A.ImmFilter, Vanishes, Pow2;
    RecordsSelectors(s, f, d);
    OpcodeHolds(e, s, f, d);
    WordColumns(e, s, f, d);
    SelectorsEncode(StepRow(MakeStep(e, s, f, d)), f, d);
  }

  lemma SelectorsEncode(r: A.Row, f: Fetched, d: Done)
    requires DoneSelectors(d).Valid() && 0 <= d.opcode < Pow2(32) && (d.op1Imm == 1 ==> d.ops.op1 == f.imm)
    requires r.isExt == 0 && r.inst == f.word && r.immVal == f.imm && r.opcode == d.opcode && r.op1Imm == d.op1Imm
    requires r.op1 == d.ops.op1 && A.RowSelectors(r) == DoneSelectors(d)
    ensures A.InstructionEncode(r) <==> Reencodes(f, d)
  {
    hide Encode, Zero2, Zero3, Vanishes, Pow2;
    EncodeBound(DoneSelectors(d), d.opcode);
    var x: Felt := Encode(DoneSelectors(d), d.opcode);
    SameFelt(f.word, x);
    UnitVanishes();
  }

  lemma UnitVanishes()
    ensures Vanishes(0) && Vanishes(1 - 1) && !Vanishes(1)
  {
  }

  lemma OperandsHold(e: Env, s: State, f: Fetched, d: Done, nv: A.Row)
    requires e.Valid() && s.Valid() && WellFetched(f) && Exec(s, f) == Ok(d)
    requires nv.Shaped() && nv.regs == d.next.regs
    ensures var r := StepRow(MakeStep(e, s, f, d)); r.Shaped() && A.Operands(r, nv)
  {
    hide Exec, OneHot, Zero3, A.FieldSelectors, A.Dot, A.Sum, WellFetched;
    RecordsOperands(s, f, d);
    var i: nat :| d.ops.sOp0 == OneHot(i) && (i < REGS ==> d.ops.op0 == s.regs[i]);
    FieldHolds(d.ops.op0, i, s.regs);
    var j: nat :| d.ops.sOp1 == OneHot(j) && (j < REGS ==> d.ops.op1 == s.regs[j]);
    FieldHolds(d.ops.op1, j, s.regs);
    var k: nat :| d.ops.sDst == OneHot(k) && (k < REGS ==> d.ops.dst == d.next.regs[k]);
    FieldHolds(d.ops.dst, k, nv.regs);
  }

  // ---- effect constraints ----

  /** A condition that is a bit, and a factored offset that does not overflow 64 bits. */
  predicate Sane(s: State, i: Instr)
    requires s.Valid()
  {
    match i
    case Cjmp(op0, _) => IsReg(op0) ==> Bit01(s.regs[op0])
    case Mload(_, _, o) => OffsetFits(s, o)
    case Mstore(_, o, _) => OffsetFits(s, o)
    case _ => true
  }

  predicate OffsetFits(s: State, o: Offset)
    requires s.Valid()
  {
    o.Factored? && IsReg(o.reg) ==> s.regs[o.reg] * o.factor < U64
  }

  /** The row below shows the state after the step. */
  predicate Shows(nv: A.Row, s: State, d: Done) {
    && nv.Shaped() && nv.isExt == 0 && nv.regs == d.next.regs && nv.pc == d.next.pc && nv.clk == s.clk + 1
  }

  lemma ClockHolds(e: Env, s: State, f: Fetched, d: Done, nv: A.Row)
    requires e.Valid() && s.Valid() && Exec(s, f) == Ok(d) && Shows(nv, s, d)
    ensures A.Clk(StepRow(MakeStep(e, s, f, d)), nv)
  {
    hide Exec, Zero3, Zero4;
  }

  lemma ChangesOnlyDst(s: State, f: Fetched, d: Done)
    requires s.Valid() && Exec(s, f) == Ok(d)
    ensures |d.ops.sDst| == REGS
    ensures forall i :: 0 <= i < REGS && d.ops.sDst[i] == 0 && !(f.ins.Ret? && i == FP) ==>
              d.next.regs[i] == s.regs[i]
    ensures Bits01(d.ops.sDst) && (f.ins.Ret? <==> d.opcode == A.RET)
  {
    hide ReadCell, WriteCell, BinResult, BinAux, OffsetValue, AddressOf;
  }

  lemma RegistersHold(e: Env, s: State, f: Fetched, d: Done, nv: A.Row)
    requires e.Valid() && s.Valid() && Exec(s, f) == Ok(d) && Shows(nv, s, d)
    requires StepRow(MakeStep(e, s, f, d)).Shaped()
    ensures A.RegConsistency(StepRow(MakeStep(e, s, f, d)), nv)
  {
    hide Exec, Zero3;
    ChangesOnlyDst(s, f, d);
    var r := StepRow(MakeStep(e, s, f, d));
    forall i | 0 <= i < A.FP
      ensures Zero3(1 - (r.sSload + r.sPsdn + r.sCallSc * r.isDiffInst + r.sEnd * (1 - r.isExt)), 1 - r.sDst[i],
                    nv.regs[i] - r.regs[i])
    {
      assert Bit01(r.sDst[i]);
    }
    assert Bit01(r.sDst[A.FP]);
  }

  lemma JumpHolds(e: Env, s: State, f: Fetched, d: Done, nv: A.Row)
    requires e.Valid() && s.Valid() && WellFetched(f) && Exec(s, f) == Ok(d) && !f.ins.End? && Shows(nv, s, d)
    ensures A.Pc(StepRow(MakeStep(e, s, f, d)), nv) <==> (f.ins.Cjmp? ==> Sane(s, f.ins))
  {
    hide Exec, A.Pc, StepRow, Shows, Sane;
    if f.ins.Cjmp? { BranchHolds(e, s, f, d, nv); } else { GoesOn(e, s, f, d, nv); }
  }

  lemma BranchHolds(e: Env, s: State, f: Fetched, d: Done, nv: A.Row)
    requires e.Valid() && s.Valid() && WellFetched(f) && Exec(s, f) == Ok(d) && f.ins.Cjmp? && Shows(nv, s, d)
    ensures A.Pc(StepRow(MakeStep(e, s, f, d)), nv) <==> Sane(s, f.ins)
  {
    hide ReadCell, WriteCell, BinResult, BinAux, OffsetValue, AddressOf, Zero3, Zero4, OneHot;
    NonBinary(d.ops.op0);
  }

  /** Which instruction has which opcode. */
  lemma OpcodeTells(s: State, f: Fetched, d: Done)
    requires s.Valid() && Exec(s, f) == Ok(d)
    ensures (d.opcode == A.MOV <==> f.ins.Mov?) && (d.opcode == A.JMP <==> f.ins.Jmp?)
    ensures (d.opcode == A.CJMP <==> f.ins.Cjmp?) && (d.opcode == A.CALL <==> f.ins.Call?)
    ensures (d.opcode == A.RET <==> f.ins.Ret?) && (d.opcode == A.MLOAD <==> f.ins.Mload?)
    ensures (d.opcode == A.MSTORE <==> f.ins.Mstore?) && (d.opcode == A.END <==> f.ins.End?)
    ensures d.opcode != A.SCCALL
  {
    hide ReadCell, WriteCell, BinResult, BinAux, OffsetValue, AddressOf, OneHot;
  }

  /** Where an instruction that is no conditional jump leads. */
  lemma LeadsTo(s: State, f: Fetched, d: Done)
    requires s.Valid() && WellFetched(f) && Exec(s, f) == Ok(d) && !f.ins.End? && !f.ins.Cjmp?
    ensures d.next.pc == (if f.ins.Jmp? || f.ins.Call? then d.ops.op1
                          else if f.ins.Ret? then d.ops.dst
                          else s.pc + f.step)
    ensures !f.ins.Jmp? && !f.ins.Call? && !f.ins.Ret? ==>
              f.step == if f.ins.Mload? || f.ins.Mstore? then 2 else 1 + d.op1Imm
  {
    hide ReadCell, WriteCell, BinResult, BinAux, OffsetValue, AddressOf, OneHot;
  }

  /** The selectors of a row, by its opcode. */
  lemma FlagColumns(e: Env, s: State, f: Fetched, d: Done)
    ensures var r := StepRow(MakeStep(e, s, f, d));
            && r.sMov == Bit(d.opcode == A.MOV) && r.sJmp == Bit(d.opcode == A.JMP)
            && r.sCjmp == Bit(d.opcode == A.CJMP)
            && r.sCall == Bit(d.opcode == A.CALL) && r.sRet == Bit(d.opcode == A.RET)
            && r.sMload == Bit(d.opcode == A.MLOAD) && r.sMstore == Bit(d.opcode == A.MSTORE)
            && r.sEnd == Bit(d.opcode == A.END) && r.sCallSc == Bit(d.opcode == A.SCCALL)
  {
  }

  function Bit(b: bool): int { if b then 1 else 0 }

  lemma PcColumns(r: A.Row, nv: A.Row, step: int)
    requires Bit01(r.sJmp) && Bit01(r.sCall) && Bit01(r.sRet) && r.sJmp + r.sCall + r.sRet <= 1 && r.sCjmp == 0
    requires Bit01(r.sMload) && Bit01(r.sMstore) && r.sMload + r.sMstore <= 1
    requires nv.pc == (if r.sJmp == 1 || r.sCall == 1 then r.op1 else if r.sRet == 1 then r.dst else r.pc + step)
    requires r.sJmp + r.sCall + r.sRet == 0 ==> step == if r.sMload + r.sMstore == 1 then 2 else 1 + r.op1Imm
    ensures nv.pc == A.NextPc(r)
  {
    if r.sJmp + r.sCall + r.sRet == 0 {
      assert A.InstructionSize(r) == step;
    }
  }

  lemma GoesOn(e: Env, s: State, f: Fetched, d: Done, nv: A.Row)
    requires e.Valid() && s.Valid() && WellFetched(f) && Exec(s, f) == Ok(d) && !f.ins.End? && !f.ins.Cjmp?
             && Shows(nv, s, d)
    ensures A.Pc(StepRow(MakeStep(e, s, f, d)), nv)
  {
    hide Exec, WellFetched, StepRow, MakeStep, Zero3, Zero4, Vanishes, A.NextPc;
    var r := StepRow(MakeStep(e, s, f, d));
    OpcodeTells(s, f, d);
    LeadsTo(s, f, d);
    WordColumns(e, s, f, d);
    FlagColumns(e, s, f, d);
    PcColumns(r, nv, f.step);
    UnitVanishes();
  }

  /** x(1 - x) is zero in the field for bits only. */
  lemma NonBinary(x: Felt)
    ensures Vanishes(x) || Vanishes(1 - x) <==> Bit01(x)
  {
  }

  lemma CallsHold(e: Env, s: State, f: Fetched, d: Done, nv: A.Row)
    requires e.Valid() && s.Valid() && WellFetched(f) && Exec(s, f) == Ok(d) && !f.ins.End? && Shows(nv, s, d)
    ensures var r := StepRow(MakeStep(e, s, f, d));
            r.Shaped() && A.Mov(r) && A.Call(r) && A.Ret(r, nv, false)
  {
    hide Exec, A.Mov, A.Call, A.Ret, Shows;
    CallHolds(e, s, f, d);
    RetHolds(e, s, f, d, nv);
  }

  lemma CallHolds(e: Env, s: State, f: Fetched, d: Done)
    requires e.Valid() && s.Valid() && WellFetched(f) && Exec(s, f) == Ok(d)
    ensures var r := StepRow(MakeStep(e, s, f, d)); r.Shaped() && A.Mov(r) && A.Call(r)
  {
    hide Exec, WellFetched, StepRow, MakeStep, Zero2, Vanishes, Quiet;
    var r := StepRow(MakeStep(e, s, f, d));
    StepShaped(e, s, f, d);
    OpcodeTells(s, f, d);
    FlagColumns(e, s, f, d);
    UnitVanishes();
    if f.ins.Call? { CallColumns(e, s, f, d); }
    if f.ins.Mov? { MovColumns(e, s, f, d); }
  }

  lemma StepShaped(e: Env, s: State, f: Fetched, d: Done)
    requires e.Valid() && s.Valid() && Exec(s, f) == Ok(d)
    ensures StepRow(MakeStep(e, s, f, d)).Shaped()
  {
    hide Exec, StepRow, MakeStep;
    StepQuiet(e, s, f, d);
  }

  lemma MovColumns(e: Env, s: State, f: Fetched, d: Done)
    requires s.Valid() && Exec(s, f) == Ok(d) && f.ins.Mov?
    ensures A.Mov(StepRow(MakeStep(e, s, f, d)))
  {
    hide Zero2, OneHot, Vanishes, StepRow, MakeStep;
    WordColumns(e, s, f, d);
    UnitVanishes();
  }

  lemma CallColumns(e: Env, s: State, f: Fetched, d: Done)
    requires e.Valid() && s.Valid() && WellFetched(f) && Exec(s, f) == Ok(d) && f.ins.Call?
    requires StepRow(MakeStep(e, s, f, d)).Shaped()
    ensures A.Call(StepRow(MakeStep(e, s, f, d)))
  {
    hide ReadCell, WriteCell, Zero2, OneHot, Vanishes, Canon;
    ReturnAddress(s.pc + f.step);
  }

  lemma ReturnAddress(a: nat)
    ensures Vanishes(Canon(a) - a)
  {
  }

  lemma RetHolds(e: Env, s: State, f: Fetched, d: Done, nv: A.Row)
    requires e.Valid() && s.Valid() && WellFetched(f) && Exec(s, f) == Ok(d) && !f.ins.End? && Shows(nv, s, d)
    ensures A.Ret(StepRow(MakeStep(e, s, f, d)), nv, false)
  {
    hide ReadCell, WriteCell, BinResult, BinAux, OffsetValue, AddressOf, Zero2, OneHot;
  }

  /** The recorded auxiliary value is the inverse of the difference of the operands. */
  lemma InverseOfDiff(a: Felt, b: Felt)
    requires a != b
    ensures FSub(a, b) > 0 && Vanishes(1 - (a - b) * Inverse(FSub(a, b)))
  {
    hide Inverse;
    var x: int, y: int := a, b;
    var d: int := (x - y) % P;
    var v := Inverse(d);
    ReduceCong(x - y, P);
    CongProduct(x - y, d, v, v, P);
    DivSum((x - y) * v - d * v, d * v - 1, P);
    assert (x - y) * v - 1 == ((x - y) * v - d * v) + (d * v - 1);
    DivSum(0, (x - y) * v - 1, P);
  }

  lemma AddMulColumns(r: A.Row)
    requires r.opcode == A.ADD || r.opcode == A.MUL
    requires Vanishes(if r.opcode == A.ADD then r.dst - (r.op0 + r.op1) else r.dst - r.op0 * r.op1)
    ensures A.Arith(r)
  {
    hide Zero6;
    var x := r.dst * (r.op0 - r.op1) + (1 - r.dst) * (1 - (r.op0 - r.op1) * r.aux0);
    var y := (1 - r.dst) * (r.op0 - r.op1) + r.dst * (1 - (r.op0 - r.op1) * r.aux0);
    assert 0 * x + 0 * y == 0;
  }

  lemma FieldResults(a: Felt, b: Felt)
    ensures Vanishes(FAdd(a, b) - (a + b)) && Vanishes(FMul(a, b) - a * b)
  {
    ReduceCong(a + b, P);
    ReduceCong(a * b, P);
    DivSum(0, a + b - FAdd(a, b), P);
    DivSum(0, a * b - FMul(a, b), P);
  }

  /** Of the two comparison selectors of a row only the one of its opcode is left. */
  lemma EqFactors(op: int)
    ensures op == A.EQ ==> 1 * (op - A.ADD) * (op - A.MUL) * (op - A.EQ) * (op - A.ASSERT) == 0
    ensures op == A.NEQ ==> 1 * (op - A.ADD) * (op - A.MUL) * (op - A.NEQ) * (op - A.ASSERT) == 0
  {
  }

  lemma OnlyFirst(k: int, x: int, zero: int, y: int)
    requires Vanishes(x) && zero == 0
    ensures Vanishes(k * x + zero * y) && Vanishes(zero * y + k * x)
  {
    DivProduct(x, k, P);
    assert k * x == x * k && zero * y == 0;
  }

  lemma Selects(res: int, diff: int, aux: int)
    requires Bit01(res)
    ensures res * diff + (1 - res) * (1 - diff * aux) == if res == 1 then diff else 1 - diff * aux
  {
  }

  lemma EqColumns(r: A.Row, res: int)
    requires r.sArith == 1 && (r.opcode == A.EQ || r.opcode == A.NEQ) && Bit01(r.dst)
    requires res == if r.opcode == A.EQ then r.dst else 1 - r.dst
    requires Vanishes(if res == 1 then r.op0 - r.op1 else 1 - (r.op0 - r.op1) * r.aux0)
    ensures A.Arith(r)
  {
    hide Zero6, Vanishes;
    var op, diff := r.opcode, r.op0 - r.op1;
    var isEq := r.sArith * (op - A.ADD) * (op - A.MUL) * (op - A.NEQ) * (op - A.ASSERT);
    var isNeq := r.sArith * (op - A.ADD) * (op - A.MUL) * (op - A.EQ) * (op - A.ASSERT);
    var x := r.dst * diff + (1 - r.dst) * (1 - diff * r.aux0);
    var y := (1 - r.dst) * diff + r.dst * (1 - diff * r.aux0);
    EqFactors(op);
    Selects(r.dst, diff, r.aux0);
    Selects(1 - r.dst, diff, r.aux0);
    if op == A.EQ { OnlyFirst(isEq, x, isNeq, y); } else { OnlyFirst(isNeq, y, isEq, x); }
    UnitVanishes();
  }

  lemma ArithColumns(r: A.Row, op: BinOp, a: Felt, b: Felt)
    requires r.sArith == 1 && r.opcode == BinOpcode(op) && r.op0 == a && r.op1 == b
    requires r.dst == BinResult(op, a, b) && r.aux0 == BinAux(op, a, b)
    ensures A.Arith(r)
  {
    hide A.Arith, Inverse, Vanishes, FAdd, FMul, FSub;
    UnitVanishes();
    if op.Eq? || op.Neq? {
      if a != b { InverseOfDiff(a, b); }
      EqColumns(r, if a == b then 1 else 0);
    } else {
      FieldResults(a, b);
      AddMulColumns(r);
    }
  }

  lemma ArithHolds(e: Env, s: State, f: Fetched, d: Done)
    requires e.Valid() && s.Valid() && Exec(s, f) == Ok(d)
    ensures A.Arith(StepRow(MakeStep(e, s, f, d)))
  {
    hide ReadCell, WriteCell, OffsetValue, AddressOf, Zero6, OneHot, Inverse, BinResult, BinAux;
    var r := StepRow(MakeStep(e, s, f, d));
    if f.ins.Binary? {
      hide A.Arith;
      ArithColumns(r, f.ins.op, d.ops.op0, d.ops.op1);
    } else if f.ins.Assert? {
      OnlyAssert(r);
    } else {
      NoArith(r);
    }
  }

  lemma OnlyAssert(r: A.Row)
    requires r.opcode == A.ASSERT && r.op1 == 1
    ensures A.Arith(r)
  {
    hide Zero6;
  }

  lemma NoArith(r: A.Row)
    requires r.sArith == 0
    ensures A.Arith(r)
  {
    hide Zero6;
  }

  // ---- memory addresses ----

  /** Modulo P, a product that overflowed 64 bits never agrees with the true one: the part that was
      cut off is below P times 2^64, and 2^64 is not zero. */
  lemma OverflowShows(a: Felt, b: Felt)
    ensures Vanishes(a * b - a * b % U64) <==> a * b < U64
  {
    hide Vanishes;
    ProductBound(a, b);
    CutOffShows(a * b);
  }

  lemma ProductBound(a: Felt, b: Felt)
    ensures 0 <= a * b <= (P - 1) * (P - 1)
  {
    var x: int, y: int := a, b;
    Scale(x, 0, y);
    Scale(x, y, P - 1);
    Scale(P - 1, x, P - 1);
  }

  lemma CutOffShows(p: int)
    requires 0 <= p <= (P - 1) * (P - 1)
    ensures Vanishes(p - p % U64) <==> p < U64
  {
    var q := p / U64;
    assert p - p % U64 == U64 * q && 0 <= q < P;
    ZeroProduct(U64, q);
    SmallVanishes(q);
    assert !Vanishes(U64);
  }

  lemma SmallVanishes(q: int)
    requires 0 <= q < P
    ensures Vanishes(q) <==> q == 0
  {
  }

  lemma AddressHolds(e: Env, s: State, f: Fetched, d: Done)
    requires e.Valid() && s.Valid() && WellFetched(f) && Exec(s, f) == Ok(d)
    ensures var r := StepRow(MakeStep(e, s, f, d));
            A.Address(r, r.sMload) && A.Address(r, r.sMstore)
            <==> (f.ins.Mload? || f.ins.Mstore? ==> Sane(s, f.ins))
  {
    hide ReadCell, WriteCell, BinResult, BinAux, Zero3, OneHot, OffsetValue, OffsetFits;
    var r := StepRow(MakeStep(e, s, f, d));
    if f.ins.Mload? || f.ins.Mstore? {
      AddressColumns(s, f.ins.op0, f.ins.offset, f.imm, f.ins.dst, d.ops.dst, r);
    }
  }

  lemma AddressColumns(s: State, op0: nat, o: Offset, imm: Felt, dst: nat, v: Felt, r: A.Row)
    requires s.Valid() && IsReg(op0) && OffsetOk(o) && OffsetIs(o, imm)
    requires var ops := AccessOps(s, op0, o, dst, v);
             r.op0 == ops.op0 && r.op1 == ops.op1 && r.aux0 == ops.aux0 && r.aux1 == ops.aux1
    requires r.immVal == imm && r.op1Imm == (if o.Direct? then 1 else 0)
    ensures A.Address(r, 1) <==> OffsetFits(s, o)
    ensures A.Address(r, 0)
  {
    hide Zero3, OneHot;
    var a: int, base: int, off := s.regs[op0], OffsetBase(s, o), OffsetValue(s, o);
    SumCong(a, off);
    if o.Factored? {
      OverflowShows(s.regs[o.reg], o.factor);
      var p := base * o.factor;
      var c: int := Canon(a + off);
      assert r.aux1 - r.op0 - r.aux0 * r.op1 == (c - a - off) - (p - off);
      if Vanishes(p - off) { DivSum(c - a - off, p - off, P); }
      if Vanishes(r.aux1 - r.op0 - r.aux0 * r.op1) {
        DivSum(c - a - off, (c - a - off) - (p - off), P);
      }
    }
  }

  lemma SumCong(a: int, off: int)
    ensures Vanishes(Canon(a + off) - a - off)
  {
  }

  // ---- the whole table ----

  /** A step that the constraints accept: its word is the one its selectors encode, its condition is
      a bit, and its offset did not overflow. */
  predicate Fits(s: State, f: Fetched)
    requires s.Valid()
  {
    Exec(s, f).Ok? && Reencodes(f, Exec(s, f).value) && Sane(s, f.ins)
  }

  lemma StepHolds(e: Env, s: State, f: Fetched, d: Done, nv: A.Row)
    requires e.Valid() && s.Valid() && WellFetched(f) && Exec(s, f) == Ok(d) && !f.ins.End? && Shows(nv, s, d)
    ensures var lv := StepRow(MakeStep(e, s, f, d));
            lv.Shaped() && (A.Decoding(lv, nv) && A.Effect(lv, nv, false) <==> Fits(s, f))
  {
    hide Exec, StepRow, MakeStep, WellFetched, Reencodes, Shows;
    hide A.OpcodeSelector, A.InstructionEncode, A.ImmFilter, A.Operands, A.Clk, A.Pc, A.RegConsistency;
    hide A.Arith, A.Mov, A.Call, A.Ret, A.Address;
    assert nv.Shaped() && nv.regs == d.next.regs by { ShowsRegs(nv, s, d); }
    OperandsHold(e, s, f, d, nv);
    OpcodeHolds(e, s, f, d);
    EncodingHolds(e, s, f, d);
    ClockHolds(e, s, f, d, nv);
    JumpHolds(e, s, f, d, nv);
    RegistersHold(e, s, f, d, nv);
    ArithHolds(e, s, f, d);
    CallsHold(e, s, f, d, nv);
    AddressHolds(e, s, f, d);
  }

  lemma ShowsRegs(nv: A.Row, s: State, d: Done)
    requires Shows(nv, s, d)
    ensures nv.Shaped() && nv.regs == d.next.regs
  {
  }

  /** A row at END, of the run or of the padding. */
  predicate AtEnd(r: A.Row) {
    && Quiet(r) && r.sEnd == 1 && r.opcode == A.END
    && r.sArith == r.sMov == r.sJmp == r.sCjmp == r.sCall == r.sRet == r.sMload == r.sMstore == 0
    && r.op1Imm == 0 && r.sOp0 == r.sOp1 == r.sDst == NONE
  }

  lemma EndEffect(r: A.Row, nv: A.Row, last: bool)
    requires AtEnd(r) && nv.Shaped() && nv.isExt == 0
    ensures A.Effect(r, nv, last) && A.OpcodeSelector(r) && A.ImmFilter(r) && A.Operands(r, nv)
  {
    hide Zero2, Zero3, Zero4, Zero6, OneHot, A.FieldSelectors, A.Sum, A.Dot, A.Arith;
    NoArith(r);
    FieldHolds(r.op0, NOT_USED, r.regs);
    FieldHolds(r.op1, NOT_USED, r.regs);
    FieldHolds(r.dst, NOT_USED, nv.regs);
  }

  lemma EndHolds(r: A.Row, nv: A.Row, last: bool)
    requires AtEnd(r) && nv.Shaped() && nv.isExt == 0 && 0 <= r.inst < P
    ensures A.Decoding(r, nv) && A.Effect(r, nv, last)
            <==> Encode(Selectors(0, NONE, NONE, NONE), A.END) == r.inst
  {
    hide Zero2, Zero3, A.Effect, A.OpcodeSelector, A.ImmFilter, A.Operands, Encode, OneHot;
    EndEffect(r, nv, last);
    var sel := Selectors(0, NONE, NONE, NONE);
    Pow2Values();
    EncodeBound(sel, A.END);
    var x: Felt := Encode(sel, A.END);
    SameFelt(r.inst, x);
    assert A.RowSelectors(r) == sel;
  }

  /** A program, its decoded form and a run over it. */
  ghost predicate ProgramRun(words: seq<Felt>, code: Code, e: Env, states: seq<State>, steps: seq<Step>) {
    Reached(words, |words|, code) && e.Valid() && Run(code, |words|, e, states, steps)
  }

  ghost predicate FitsAt(code: Code, states: seq<State>, i: nat)
    requires i < |states|
  {
    states[i].Valid() && states[i].pc in code && Fits(states[i], code[states[i].pc])
  }

  /** The fetched instruction, the step and the row at index i of a run. */
  lemma RunStep(words: seq<Felt>, code: Code, e: Env, states: seq<State>, steps: seq<Step>, i: nat)
    requires ProgramRun(words, code, e, states, steps) && i < |steps|
    ensures |states| == |steps| && states[i].Valid() && states[i].pc in code && e.Valid()
    ensures var s, f := states[i], code[states[i].pc];
            && WellFetched(f) && (f.ins.End? <==> i + 1 == |steps|)
            && Exec(s, f).Ok? && steps[i] == MakeStep(e, s, f, Exec(s, f).value)
            && (i + 1 < |steps| ==> states[i + 1] == Exec(s, f).value.next.(clk := s.clk + 1))
  {
    hide FetchAt, WellFetched, MakeStep;
    if i + 1 < |steps| { assert TurnAt(code, |words|, e, states, steps, i); }
    var pc := states[i].pc;
    assert pc in code && FetchAt(words, pc) == Ok(code[pc]);
    FetchedIs(words, pc);
  }

  lemma RunQuiet(words: seq<Felt>, code: Code, e: Env, states: seq<State>, steps: seq<Step>, i: nat)
    requires ProgramRun(words, code, e, states, steps) && i < |CpuTable(steps)|
    ensures var r := CpuTable(steps)[i];
            && Quiet(r) && (r.isPadding == 1 <==> i >= |steps|) && (r.sEnd == 1 <==> i >= |steps| - 1)
            && (i >= |steps| ==> r == PaddingRow(0, steps[|steps| - 1].inst, 0))
            && (i < |steps| ==> r == StepRow(steps[i]) && r.tp == e.tp && r.storage == e.storage && r.code == e.code)
  {
    hide ProgramRun, Quiet, Exec, WellFetched;
    var j := if i < |steps| then i else |steps| - 1;
    assert |steps| > 0 by { RunNonempty(words, code, e, states, steps); }
    RunStep(words, code, e, states, steps, j);
    var s, f := states[j], code[states[j].pc];
    StepQuiet(e, s, f, Exec(s, f).value);
    PadQuiet(steps[|steps| - 1].inst);
    QuietColumns(StepRow(steps[j]));
  }

  lemma QuietColumns(r: A.Row)
    requires Quiet(r)
    ensures r.tx == r.idxStorage == 0 && Bit01(r.sEnd)
  {
  }

  lemma RunNonempty(words: seq<Felt>, code: Code, e: Env, states: seq<State>, steps: seq<Step>)
    requires ProgramRun(words, code, e, states, steps)
    ensures |states| == |steps| > 0 && states[0] == Initial()
  {
  }

  lemma RunFraming(words: seq<Felt>, code: Code, e: Env, states: seq<State>, steps: seq<Step>, i: nat)
    requires ProgramRun(words, code, e, states, steps) && i < |CpuTable(steps)|
    ensures var t := CpuTable(steps); var last := i + 1 == |t|;
            var nv := t[if last then 0 else i + 1];
            t[i].Shaped() && nv.Shaped() && nv.isExt == 0 && A.Framing(t[i], nv, last)
  {
    hide ProgramRun, A.Framing, StepRow;
    var t := CpuTable(steps);
    var last := i + 1 == |t|;
    var n := if last then 0 else i + 1;
    RunNonempty(words, code, e, states, steps);
    RunQuiet(words, code, e, states, steps, i);
    RunQuiet(words, code, e, states, steps, n);
    FramingHolds(t[i], t[n], last);
  }

  /** A row of the run holds if and only if the step it shows fits. */
  lemma RunRow(words: seq<Felt>, code: Code, e: Env, states: seq<State>, steps: seq<Step>, i: nat)
    requires ProgramRun(words, code, e, states, steps) && i < |CpuTable(steps)|
    ensures |states| == |steps| > 0
    ensures var t := CpuTable(steps); var last := i + 1 == |t|;
            var nv := t[if last then 0 else i + 1];
            && t[i].Shaped() && nv.Shaped()
            && (A.Decoding(t[i], nv) && A.Effect(t[i], nv, last)
                <==> FitsAt(code, states, if i < |steps| then i else |steps| - 1))
  {
    hide ProgramRun, Quiet, Exec, WellFetched, A.Decoding, A.Effect, StepRow, MakeStep, Fits, Shows, AtEnd, PaddingRow;
    var t := CpuTable(steps);
    var last := i + 1 == |t|;
    var nv := t[if last then 0 else i + 1];
    RunNonempty(words, code, e, states, steps);
    RunFraming(words, code, e, states, steps, i);
    RunQuiet(words, code, e, states, steps, i);
    if i + 1 < |steps| {
      RunStep(words, code, e, states, steps, i);
      RunStep(words, code, e, states, steps, i + 1);
      var s, f := states[i], code[states[i].pc];
      var g := code[states[i + 1].pc];
      ShowsNext(e, s, Exec(s, f).value, states[i + 1], g, Exec(states[i + 1], g).value);
      StepHolds(e, s, f, Exec(s, f).value, nv);
    } else {
      var j := |steps| - 1;
      RunStep(words, code, e, states, steps, j);
      RunAtEnd(words, code, e, states, steps, i);
      EndHolds(t[i], nv, last);
    }
  }

  lemma ShowsNext(e: Env, s: State, d: Done, t: State, g: Fetched, d': Done)
    requires e.Valid() && t.Valid() && Exec(t, g) == Ok(d') && t == d.next.(clk := s.clk + 1)
    ensures Shows(StepRow(MakeStep(e, t, g, d')), s, d)
  {
    StepQuiet(e, t, g, d');
  }

  lemma RunAtEnd(words: seq<Felt>, code: Code, e: Env, states: seq<State>, steps: seq<Step>, i: nat)
    requires ProgramRun(words, code, e, states, steps) && |steps| - 1 <= i < |CpuTable(steps)|
    ensures |states| == |steps| > 0
    ensures var r := CpuTable(steps)[i];
            AtEnd(r) && 0 <= r.inst < P
            && (Encode(Selectors(0, NONE, NONE, NONE), A.END) == r.inst <==> FitsAt(code, states, |steps| - 1))
  {
    hide ProgramRun, Encode, Quiet;
    var j := |steps| - 1;
    RunNonempty(words, code, e, states, steps);
    RunStep(words, code, e, states, steps, j);
    RunQuiet(words, code, e, states, steps, i);
    RunQuiet(words, code, e, states, steps, j);
    NoneIsZeros();
  }

  lemma NoneIsZeros()
    ensures NONE == ZEROS
  {
  }

  lemma FirstRowHolds(words: seq<Felt>, code: Code, e: Env, states: seq<State>, steps: seq<Step>)
    requires ProgramRun(words, code, e, states, steps)
    ensures A.FirstRow(CpuTable(steps)[0])
  {
    hide ProgramRun, Exec;
    RunNonempty(words, code, e, states, steps);
    RunStep(words, code, e, states, steps, 0);
    RunQuiet(words, code, e, states, steps, 0);
  }

  /** The theorem: for every run that finishes at END, the table satisfies `CpuStark` on every row,
      padding and wrap-around included, if and only if every executed step fits. */
  lemma CpuTableHolds(words: seq<Felt>, code: Code, e: Env, states: seq<State>, steps: seq<Step>)
    requires ProgramRun(words, code, e, states, steps)
    ensures |states| == |steps|
    ensures A.TableHolds(CpuTable(steps)) <==> forall i :: 0 <= i < |steps| ==> FitsAt(code, states, i)
  {
    hide ProgramRun, FitsAt, CpuTable, A.Framing, A.Decoding, A.Effect, A.FirstRow;
    RunNonempty(words, code, e, states, steps);
    FirstRowHolds(words, code, e, states, steps);
    var t := CpuTable(steps);
    forall i | 0 <= i < |t| ensures t[i].Shaped() {
      RunFraming(words, code, e, states, steps, i);
    }
    forall i | 0 <= i < |t|
      ensures A.RowHolds(t, i) <==> FitsAt(code, states, if i < |steps| then i else |steps| - 1)
    {
      RunFraming(words, code, e, states, steps, i);
      RunRow(words, code, e, states, steps, i);
    }
    if A.TableHolds(t) {
      forall i | 0 <= i < |steps| ensures FitsAt(code, states, i) {
        assert A.RowHolds(t, i);
      }
    }
  }
}
