/** The step function: what each instruction does to the machine, and the operands it records for
    the trace. */
module CpuStep {
  import opened Goldilocks
  import opened Words
  import opened MemoryLog
  import opened Cpu
  import M = MemoryAir
  import A = CpuAir

  const FP: nat := 9
  const U64: int := 0x1_0000_0000_0000_0000

  /** Registers, program counter, clock and memory log of the single environment 0. */
  datatype State = State(regs: seq<Felt>, pc: nat, clk: nat, log: Log)
  {
    predicate Valid() { |regs| == REGS }
  }

  /** `RegisterSelector`: operand values, auxiliary values and register selectors of a step. */
  datatype Operands = Operands(
    op0: Felt, op1: Felt, dst: Felt, aux0: Felt, aux1: Felt, sOp0: seq<int>, sOp1: seq<int>, sDst: seq<int>)

  const NONE: seq<int> := OneHot(NOT_USED)

  /** A completed step: the state after it, with the clock not yet advanced, and its record. */
  datatype Done = Done(next: State, ops: Operands, opcode: int, op1Imm: int)

  predicate IsReg(i: nat) { i < REGS }

  predicate RegOrImm(o: Operand) { o.Reg? ==> IsReg(o.i) }

  /** `get_index_value`; an empty field reads as the start of the prophet region. */
  function Value(s: State, o: Operand): Felt
    requires s.Valid()
  {
    match o
    case Imm(v) => v
    case Reg(i) => if IsReg(i) then s.regs[i] else M.PSP_START
  }

  function Hot(o: Operand): seq<int> { if o.Reg? then OneHot(o.i) else NONE }

  function ReadCell(s: State, addr: nat, op: int): Result<(Felt, Log)> {
    match Current(s.log, addr)
    case None => Err(MemVistInv)
    case Some(v) => Ok((v, Append(s.log, addr, NewCell(0, addr, s.clk, op, 0, v))))
  }

  function WriteCell(s: State, addr: nat, op: int, v: Felt): Result<Log> {
    if addr >= M.PSP_START then Err(MemVistInv)
    else Ok(Append(s.log, addr, NewCell(0, addr, s.clk, op, 1, v)))
  }

  function BinOpcode(op: BinOp): int {
    match op
    case Add => A.ADD
    case Mul => A.MUL
    case Eq => A.EQ
    case Neq => A.NEQ
  }

  function BinResult(op: BinOp, a: Felt, b: Felt): Felt {
    match op
    case Add => FAdd(a, b)
    case Mul => FMul(a, b)
    case Eq => if a == b then 1 else 0
    case Neq => if a != b then 1 else 0
  }

  /** For comparisons, the inverse of the difference if there is one. */
  function BinAux(op: BinOp, a: Felt, b: Felt): Felt {
    if op.Add? || op.Mul? || a == b then 0 else Inverse(FSub(a, b))
  }

  function ExecBinary(s: State, f: Fetched): Result<Done>
    requires s.Valid() && f.ins.Binary?
  {
    var i := f.ins;
    if !IsReg(i.dst) || !IsReg(i.op0) || !RegOrImm(i.op1) then Err(Panic) else
      var a, b := s.regs[i.op0], Value(s, i.op1);
      var v := BinResult(i.op, a, b);
      Ok(Done(s.(regs := s.regs[i.dst := v], pc := s.pc + f.step),
              Operands(a, b, v, BinAux(i.op, a, b), 0, OneHot(i.op0), Hot(i.op1), OneHot(i.dst)),
              BinOpcode(i.op), f.immFlag))
  }

  function ExecMov(s: State, f: Fetched): Result<Done>
    requires s.Valid() && f.ins.Mov?
  {
    var i := f.ins;
    if !IsReg(i.dst) || (i.op1.Reg? && !IsReg(i.op1.i) && i.op1.i != NOT_USED) then Err(Panic) else
      var v := Value(s, i.op1);
      Ok(Done(s.(regs := s.regs[i.dst := v], pc := s.pc + f.step),
              Operands(0, v, v, 0, 0, NONE, Hot(i.op1), OneHot(i.dst)), A.MOV, f.immFlag))
  }

  function ExecAssert(s: State, f: Fetched): Result<Done>
    requires s.Valid() && f.ins.Assert?
  {
    var o := f.ins.op1;
    if !RegOrImm(o) then Err(Panic)
    else if Value(s, o) != 1 then Err(AssertFail)
    else Ok(Done(s.(pc := s.pc + f.step), Operands(0, 1, 0, 0, 0, NONE, Hot(o), NONE), A.ASSERT, f.immFlag))
  }

  function ExecJmp(s: State, f: Fetched): Result<Done>
    requires s.Valid() && f.ins.Jmp?
  {
    var o := f.ins.op1;
    if !RegOrImm(o) then Err(Panic) else
      var v := Value(s, o);
      Ok(Done(s.(pc := v), Operands(0, v, 0, 0, 0, NONE, Hot(o), NONE), A.JMP, f.immFlag))
  }

  function ExecCjmp(s: State, f: Fetched): Result<Done>
    requires s.Valid() && f.ins.Cjmp?
  {
    var i := f.ins;
    if !IsReg(i.op0) || !RegOrImm(i.op1) then Err(Panic) else
      var a, b := s.regs[i.op0], Value(s, i.op1);
      Ok(Done(s.(pc := if a == 1 then b else s.pc + f.step),
              Operands(a, b, 0, 0, 0, OneHot(i.op0), Hot(i.op1), NONE), A.CJMP, f.immFlag))
  }

  /** Stores the return address below the frame pointer. No operand selector is recorded. */
  function ExecCall(s: State, f: Fetched): Result<Done>
    requires s.Valid() && f.ins.Call?
  {
    var o, fp: int := f.ins.op1, s.regs[FP];
    if o.Reg? && !IsReg(o.i) && o.i != NOT_USED then Err(Panic)
    else if fp < 1 then Err(Panic)
    else
      var ret := Canon(s.pc + f.step);
      var log := WriteCell(s, fp - 1, M.CALL, ret);
      if log.Err? then Err(log.error)
      else if fp < 2 then Err(Panic)
      else
        var saved := ReadCell(s.(log := log.value), fp - 2, M.CALL);
        if saved.Err? then Err(saved.error) else
          var v := Value(s, o);
          Ok(Done(s.(pc := v, log := saved.value.1),
                  Operands(fp - 1, v, ret, fp - 2, saved.value.0, NONE, NONE, NONE), A.CALL, f.immFlag))
  }

  function ExecRet(s: State, f: Fetched): Result<Done>
    requires s.Valid() && f.ins.Ret?
  {
    var fp: int := s.regs[FP];
    if fp < 1 then Err(Panic) else
      var ret := ReadCell(s, fp - 1, M.RET);
      if ret.Err? then Err(ret.error)
      else if fp < 2 then Err(Panic)
      else
        var saved := ReadCell(s.(log := ret.value.1), fp - 2, M.RET);
        if saved.Err? then Err(saved.error) else
          var pc, newFp := ret.value.0, saved.value.0;
          Ok(Done(s.(regs := s.regs[FP := newFp], pc := pc, log := saved.value.1),
                  Operands(fp - 1, 0, pc, fp - 2, newFp, NONE, NONE, NONE), A.RET, f.immFlag))
  }

  predicate OffsetOk(o: Offset) { o.Factored? ==> IsReg(o.reg) }

  /** The second operand of a memory access. */
  function OffsetBase(s: State, o: Offset): Felt
    requires s.Valid() && OffsetOk(o)
  {
    if o.Direct? then o.imm else s.regs[o.reg]
  }

  /** The factored offset is multiplied on 64-bit numbers, not in the field. */
  function OffsetValue(s: State, o: Offset): int
    requires s.Valid() && OffsetOk(o)
  {
    var base: int := OffsetBase(s, o);
    if o.Direct? then base else base * o.factor % U64
  }

  function AddressOf(s: State, op0: nat, o: Offset): Felt
    requires s.Valid() && IsReg(op0) && OffsetOk(o)
  {
    var a: int := s.regs[op0];
    Canon(a + OffsetValue(s, o))
  }

  /** The record of a memory access: the address in aux1, the factor in aux0. */
  function AccessOps(s: State, op0: nat, o: Offset, dst: nat, v: Felt): Operands
    requires s.Valid() && IsReg(op0) && OffsetOk(o)
  {
    Operands(s.regs[op0], OffsetBase(s, o), v, if o.Direct? then 0 else o.factor, AddressOf(s, op0, o),
             OneHot(op0), if o.Direct? then NONE else OneHot(o.reg), OneHot(dst))
  }

  function ExecMload(s: State, f: Fetched): Result<Done>
    requires s.Valid() && f.ins.Mload?
  {
    var i := f.ins;
    if !IsReg(i.dst) || !IsReg(i.op0) || !OffsetOk(i.offset) then Err(Panic) else
      var cell := ReadCell(s, AddressOf(s, i.op0, i.offset), M.MLOAD);
      if cell.Err? then Err(cell.error) else
        var v := cell.value.0;
        Ok(Done(s.(regs := s.regs[i.dst := v], pc := s.pc + f.step, log := cell.value.1),
                AccessOps(s, i.op0, i.offset, i.dst, v), A.MLOAD, if i.offset.Direct? then 1 else 0))
  }

  function ExecMstore(s: State, f: Fetched): Result<Done>
    requires s.Valid() && f.ins.Mstore?
  {
    var i := f.ins;
    if !IsReg(i.dst) || !IsReg(i.op0) || !OffsetOk(i.offset) then Err(Panic) else
      var v := s.regs[i.dst];
      var log := WriteCell(s, AddressOf(s, i.op0, i.offset), M.MSTORE, v);
      if log.Err? then Err(log.error) else
        Ok(Done(s.(pc := s.pc + f.step, log := log.value),
                AccessOps(s, i.op0, i.offset, i.dst, v), A.MSTORE, if i.offset.Direct? then 1 else 0))
  }

  function ExecEnd(s: State, f: Fetched): Done
    requires s.Valid() && f.ins.End?
  {
    Done(s, Operands(0, 0, 0, 0, 0, NONE, NONE, NONE), A.END, f.immFlag)
  }

  function Exec(s: State, f: Fetched): (r: Result<Done>)
    requires s.Valid()
    ensures r.Ok? ==> r.value.next.Valid() && r.value.next.clk == s.clk
  {
    match f.ins
    case Binary(_, _, _, _) => ExecBinary(s, f)
    case Mov(_, _) => ExecMov(s, f)
    case Assert(_) => ExecAssert(s, f)
    case Jmp(_) => ExecJmp(s, f)
    case Cjmp(_, _) => ExecCjmp(s, f)
    case Call(_) => ExecCall(s, f)
    case Ret => ExecRet(s, f)
    case Mload(_, _, _) => ExecMload(s, f)
    case Mstore(_, _, _) => ExecMstore(s, f)
    case End => Ok(ExecEnd(s, f))
    case Other(_) => Err(NotModelled)
  }

  // ---- runs ----

  /** A row of the execution trace before columns are derived. */
  datatype Step = Step(
    env: Felt, callCnt: Felt, storage: seq<Felt>, code: seq<Felt>, tp: Felt, clk: nat, pc: nat,
    isExt: Felt, extCnt: Felt, regs: seq<Felt>, inst: Felt, op1Imm: int, opcode: int, imm: Felt,
    ops: Operands, idxStorage: Felt, filterTape: Felt)

  /** What stays fixed during a run: tape pointer, storage address and code address. */
  datatype Env = Env(tp: Felt, storage: seq<Felt>, code: seq<Felt>)
  {
    predicate Valid() { |storage| == |code| == 4 }
  }

  function MakeStep(e: Env, s: State, f: Fetched, d: Done): Step {
    Step(0, 0, e.storage, e.code, e.tp, s.clk, s.pc, 0, 0, s.regs, f.word, d.op1Imm, d.opcode, f.imm, d.ops, 0, 0)
  }

  /** One turn of the loop that does not leave it. */
  predicate Turn(code: Code, len: nat, e: Env, s: State, t: State, step: Step) {
    && s.Valid() && s.pc in code
    && var f := code[s.pc];
    && var d := Exec(s, f);
    && d.Ok? && !f.ins.End?
    && d.value.next.pc < len && t == d.value.next.(clk := s.clk + 1)
    && step == MakeStep(e, s, f, d.value)
  }

  predicate EndTurn(code: Code, e: Env, s: State, step: Step) {
    && s.Valid() && s.pc in code && code[s.pc].ins.End?
    && step == MakeStep(e, s, code[s.pc], ExecEnd(s, code[s.pc]))
  }

  function Initial(): (s: State)
    ensures s.Valid()
  {
    State(seq(REGS, _ => 0), 0, 0, InitialLog(0))
  }

  /** A run from the initial state that finishes at an END instruction. */
  ghost predicate Run(code: Code, len: nat, e: Env, states: seq<State>, steps: seq<Step>) {
    && |states| == |steps| > 0 && states[0] == Initial()
    && (forall i :: 0 <= i < |steps| - 1 ==> TurnAt(code, len, e, states, steps, i))
    && EndTurn(code, e, states[|steps| - 1], steps[|steps| - 1])
  }

  predicate TurnAt(code: Code, len: nat, e: Env, states: seq<State>, steps: seq<Step>, i: nat)
    requires i + 1 < |states| && i < |steps|
  {
    Turn(code, len, e, states[i], states[i + 1], steps[i])
  }
}
