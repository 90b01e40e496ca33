/** `Process`: the executor as an object whose fields each instruction updates, proved to follow the
    step function, and the loop that drives it. */
module CpuProcess {
  import opened Common
  import opened Goldilocks
  import opened Words
  import opened MemoryLog
  import opened Cpu
  import opened CpuStep
  import CpuComplete
  import A = CpuAir
  import M = MemoryAir

  const BLANK_OPS: Operands := Operands(0, 0, 0, 0, 0, NONE, NONE, NONE)

  lemma DiffIsZero(a: Felt, b: Felt)
    ensures FSub(a, b) == 0 <==> a == b
  {
  }

  lemma ComparisonIs(op: BinOp, a: Felt, b: Felt)
    requires op.Eq? || op.Neq?
    ensures BinResult(op, a, b) == if (a == b) == op.Eq? then 1 else 0
    ensures BinAux(op, a, b) == if FSub(a, b) != 0 then Inverse(FSub(a, b)) else 0
  {
    hide Inverse, FSub;
    DiffIsZero(a, b);
  }

  /** A read depends on the log and the clock only. */
  lemma SameRead(s: State, t: State, addr: nat, op: int)
    requires s.log == t.log && s.clk == t.clk
    ensures ReadCell(s, addr, op) == ReadCell(t, addr, op)
  {
  }

  class Process {
    var regs: seq<Felt>
    var pc: nat
    var clk: nat
    var ops: Operands
    var opcode: int
    var op1Imm: int
    const memory: MemoryTree

    constructor ()
      ensures fresh(memory) && View() == Initial()
    {
      regs := seq(REGS, _ => 0);
      pc, clk, opcode, op1Imm := 0, 0, 0, 0;
      ops := BLANK_OPS;
      memory := new MemoryTree();
      new;
      memory.Write(0, M.HP_START, 0, 0, M.HP_START + 1);
      assert [HeapInit(0)] == [] + [HeapInit(0)];
      assert memory.trace == InitialLog(0);
    }

    ghost function View(): State
      reads this, memory
    {
      State(regs, pc, clk, memory.trace)
    }

    /** The selectors are cleared and the immediate flag is loaded before an instruction. */
    ghost predicate Prepared(f: Fetched)
      reads this
    {
      |regs| == REGS && ops == BLANK_OPS && op1Imm == f.immFlag
    }

    /** The instruction did to the fields what the step function says. */
    ghost predicate Follows(r: Result<Done>, err: Option<Error>)
      reads this, memory
    {
      match r
      case Err(e) => err == Some(e)
      case Ok(d) => err == None && View() == d.next && ops == d.ops && opcode == d.opcode && op1Imm == d.op1Imm
    }

    method IndexValue(o: Operand) returns (v: Felt)
      requires |regs| == REGS
      ensures v == Value(View(), o)
    {
      match o {
        case Imm(x) => v := x;
        case Reg(i) => v := if i < REGS then regs[i] else M.PSP_START;
      }
    }

    method ReadMemory(addr: nat, op: int) returns (r: Option<Felt>)
      modifies memory
      ensures var cell := ReadCell(old(View()), addr, op);
              if cell.Err? then r == None && cell == Err(MemVistInv)
              else r == Some(cell.value.0) && memory.trace == cell.value.1
    {
      r := memory.Read(0, addr, clk, op);
    }

    method WriteMemory(addr: nat, op: int, v: Felt) returns (ok: bool)
      modifies memory
      ensures var log := WriteCell(old(View()), addr, op, v);
              if log.Err? then !ok && log == Err(MemVistInv) else ok && memory.trace == log.value
    {
      ok := addr < M.PSP_START;
      if ok { memory.Write(0, addr, clk, op, v); }
    }

    method MoveTo(f: Fetched) returns (err: Option<Error>)
      requires Prepared(f) && f.ins.Mov?
      modifies this
      ensures Follows(ExecMov(old(View()), f), err) && clk == old(clk)
    {
      var i := f.ins;
      if i.dst >= REGS || (i.op1.Reg? && i.op1.i >= REGS && i.op1.i != NOT_USED) { return Some(Panic); }
      var v := IndexValue(i.op1);
      ops := ops.(op1 := v);
      if i.op1.Reg? { ops := ops.(sOp1 := OneHot(i.op1.i)); }
      regs := regs[i.dst := v];
      opcode := A.MOV;
      ops := ops.(dst := regs[i.dst], sDst := OneHot(i.dst));
      pc := pc + f.step;
      err := None;
    }

    method Combine(f: Fetched) returns (err: Option<Error>)
      requires Prepared(f) && f.ins.Binary? && (f.ins.op.Add? || f.ins.op.Mul?)
      modifies this
      ensures Follows(ExecBinary(old(View()), f), err) && clk == old(clk)
    {
      hide FAdd, FMul, Inverse, OneHot;
      var i := f.ins;
      if i.dst >= REGS || i.op0 >= REGS || (i.op1.Reg? && i.op1.i >= REGS) { return Some(Panic); }
      var a := regs[i.op0];
      var b := IndexValue(i.op1);
      ops := ops.(op0 := a, op1 := b, sOp0 := OneHot(i.op0));
      if i.op1.Reg? { ops := ops.(sOp1 := OneHot(i.op1.i)); }
      if i.op.Add? {
        regs, opcode := regs[i.dst := FAdd(a, b)], A.ADD;
      } else {
        regs, opcode := regs[i.dst := FMul(a, b)], A.MUL;
      }
      ops := ops.(dst := regs[i.dst], sDst := OneHot(i.dst));
      pc := pc + f.step;
      err := None;
    }

    method Compare(f: Fetched) returns (err: Option<Error>)
      requires Prepared(f) && f.ins.Binary? && (f.ins.op.Eq? || f.ins.op.Neq?)
      modifies this
      ensures Follows(ExecBinary(old(View()), f), err) && clk == old(clk)
    {
      hide Inverse, OneHot, FSub, FAdd, FMul, BinResult, BinAux;
      var i := f.ins;
      if i.dst >= REGS || i.op0 >= REGS || (i.op1.Reg? && i.op1.i >= REGS) { return Some(Panic); }
      var a := regs[i.op0];
      var b := IndexValue(i.op1);
      var diff, same := FSub(a, b), a == b;
      ComparisonIs(i.op, a, b);
      var v: Felt := if same == i.op.Eq? then 1 else 0;
      regs, opcode := regs[i.dst := v], if i.op.Eq? then A.EQ else A.NEQ;
      ops := ops.(op0 := a, op1 := b, dst := v, aux0 := if diff != 0 then Inverse(diff) else 0,
                  sOp0 := OneHot(i.op0), sDst := OneHot(i.dst));
      if i.op1.Reg? { ops := ops.(sOp1 := OneHot(i.op1.i)); }
      pc := pc + f.step;
      err := None;
    }

    method Check(f: Fetched) returns (err: Option<Error>)
      requires Prepared(f) && f.ins.Assert?
      modifies this
      ensures Follows(ExecAssert(old(View()), f), err) && clk == old(clk)
    {
      var o := f.ins.op1;
      if o.Reg? && o.i >= REGS { return Some(Panic); }
      var v := IndexValue(o);
      ops := ops.(op1 := v);
      if o.Reg? { ops := ops.(sOp1 := OneHot(o.i)); }
      if v != 1 { return Some(AssertFail); }
      opcode := A.ASSERT;
      pc := pc + f.step;
      err := None;
    }

    method Jump(f: Fetched) returns (err: Option<Error>)
      requires Prepared(f) && f.ins.Jmp?
      modifies this
      ensures Follows(ExecJmp(old(View()), f), err) && clk == old(clk)
    {
      var o := f.ins.op1;
      if o.Reg? && o.i >= REGS { return Some(Panic); }
      var v := IndexValue(o);
      opcode := A.JMP;
      pc := v;
      ops := ops.(op1 := v);
      if o.Reg? { ops := ops.(sOp1 := OneHot(o.i)); }
      err := None;
    }

    method Branch(f: Fetched) returns (err: Option<Error>)
      requires Prepared(f) && f.ins.Cjmp?
      modifies this
      ensures Follows(ExecCjmp(old(View()), f), err) && clk == old(clk)
    {
      var i := f.ins;
      if i.op0 >= REGS || (i.op1.Reg? && i.op1.i >= REGS) { return Some(Panic); }
      var v := IndexValue(i.op1);
      if regs[i.op0] == 1 { pc := v; } else { pc := pc + f.step; }
      opcode := A.CJMP;
      ops := ops.(op0 := regs[i.op0], op1 := v, sOp0 := OneHot(i.op0));
      if i.op1.Reg? { ops := ops.(sOp1 := OneHot(i.op1.i)); }
      err := None;
    }

    method CallFunction(f: Fetched) returns (err: Option<Error>)
      requires Prepared(f) && f.ins.Call?
      modifies this, memory
      ensures Follows(ExecCall(old(View()), f), err) && clk == old(clk)
    {
      hide ReadCell, WriteCell;
      var o, fp: int := f.ins.op1, regs[FP];
      if (o.Reg? && o.i >= REGS && o.i != NOT_USED) || fp < 1 { return Some(Panic); }
      var target := IndexValue(o);
      var ret := Canon(pc + f.step);
      var ok := WriteMemory(fp - 1, M.CALL, ret);
      if !ok { return Some(MemVistInv); }
      opcode := A.CALL;
      ops := ops.(op0 := fp - 1, dst := ret, op1 := target);
      if fp < 2 { return Some(Panic); }
      ops := ops.(aux0 := fp - 2);
      var saved := ReadMemory(fp - 2, M.CALL);
      if saved.None? { return Some(MemVistInv); }
      ops := ops.(aux1 := saved.value);
      pc := target;
      err := None;
    }

    method Return(f: Fetched) returns (err: Option<Error>)
      requires Prepared(f) && f.ins.Ret?
      modifies this, memory
      ensures Follows(ExecRet(old(View()), f), err) && clk == old(clk)
    {
      hide ReadCell;
      opcode := A.RET;
      var fp: int := regs[FP];
      if fp < 1 { return Some(Panic); }
      var ret := ReadMemory(fp - 1, M.RET);
      if ret.None? { return Some(MemVistInv); }
      pc := ret.value;
      if fp < 2 { return Some(Panic); }
      ops := ops.(op0 := fp - 1, aux0 := fp - 2);
      SameRead(View(), old(View()).(log := memory.trace), fp - 2, M.RET);
      var saved := ReadMemory(fp - 2, M.RET);
      if saved.None? { return Some(MemVistInv); }
      regs := regs[FP := saved.value];
      ops := ops.(dst := ret.value, aux1 := regs[FP]);
      err := None;
    }

    /** The operands and the address of a load or store. */
    method Locate(op0: nat, o: Offset) returns (addr: Felt)
      requires |regs| == REGS && op0 < REGS && OffsetOk(o)
      requires ops.sOp1 == NONE && ops.aux0 == 0
      modifies this`ops, this`op1Imm
      ensures addr == AddressOf(View(), op0, o)
      ensures op1Imm == if o.Direct? then 1 else 0
      ensures ops == AccessOps(View(), op0, o, 0, 0).(dst := old(ops.dst), sDst := old(ops.sDst))
    {
      ops := ops.(op0 := regs[op0], sOp0 := OneHot(op0));
      var offset: int;
      if o.Direct? {
        offset, op1Imm := o.imm, 1;
        ops := ops.(op1 := o.imm, aux0 := 0);
      } else {
        var base: int := regs[o.reg];
        ops := ops.(op1 := regs[o.reg], sOp1 := OneHot(o.reg), aux0 := o.factor);
        offset, op1Imm := base * o.factor % U64, 0;
      }
      var a: int := regs[op0];
      addr := Canon(a + offset);
      ops := ops.(aux1 := addr);
    }

    method Load(f: Fetched) returns (err: Option<Error>)
      requires Prepared(f) && f.ins.Mload?
      modifies this, memory
      ensures Follows(ExecMload(old(View()), f), err) && clk == old(clk)
    {
      hide ReadCell, AddressOf, OffsetValue;
      var i := f.ins;
      if i.dst >= REGS || i.op0 >= REGS || (i.offset.Factored? && i.offset.reg >= REGS) { return Some(Panic); }
      var addr := Locate(i.op0, i.offset);
      var v := ReadMemory(addr, M.MLOAD);
      if v.None? { return Some(MemVistInv); }
      regs := regs[i.dst := v.value];
      opcode := A.MLOAD;
      ops := ops.(dst := regs[i.dst], sDst := OneHot(i.dst));
      pc := pc + f.step;
      err := None;
    }

    method Store(f: Fetched) returns (err: Option<Error>)
      requires Prepared(f) && f.ins.Mstore?
      modifies this, memory
      ensures Follows(ExecMstore(old(View()), f), err) && clk == old(clk)
    {
      hide WriteCell, AddressOf, OffsetValue;
      var i := f.ins;
      if i.dst >= REGS || i.op0 >= REGS || (i.offset.Factored? && i.offset.reg >= REGS) { return Some(Panic); }
      var addr := Locate(i.op0, i.offset);
      ops := ops.(dst := regs[i.dst], sDst := OneHot(i.dst));
      var ok := WriteMemory(addr, M.MSTORE, regs[i.dst]);
      if !ok { return Some(MemVistInv); }
      opcode := A.MSTORE;
      pc := pc + f.step;
      err := None;
    }

    /** One instruction. */
    method ExecuteOne(f: Fetched) returns (err: Option<Error>)
      requires |regs| == REGS
      modifies this, memory
      ensures Follows(Exec(old(View()), f), err)
    {
      hide ExecBinary, ExecMov, ExecAssert, ExecJmp, ExecCjmp, ExecCall, ExecRet, ExecMload, ExecMstore;
      ops, op1Imm := BLANK_OPS, f.immFlag;
      match f.ins {
        case Binary(op, _, _, _) =>
          if op.Eq? || op.Neq? { err := Compare(f); } else { err := Combine(f); }
        case Mov(_, _) => err := MoveTo(f);
        case Assert(_) => err := Check(f);
        case Jmp(_) => err := Jump(f);
        case Cjmp(_, _) => err := Branch(f);
        case Call(_) => err := CallFunction(f);
        case Ret => err := Return(f);
        case Mload(_, _, _) => err := Load(f);
        case Mstore(_, _, _) => err := Store(f);
        case End => opcode, err := A.END, None;
        case Other(_) => err := Some(NotModelled);
      }
    }
  }

  /** How a bounded execution ended. A run that leaves the program without END also ends normally;
      such a run has no END row and is not one the constraints are proved for. */
  datatype Outcome = Finished | LeftProgram | StillRunning | Aborted(error: Error)

  ghost predicate Partial(code: Code, len: nat, e: Env, states: seq<State>, steps: seq<Step>) {
    && |states| == |steps| + 1 && states[0] == Initial()
    && (forall i :: 0 <= i < |steps| ==> TurnAt(code, len, e, states, steps, i))
  }

  lemma Extend(code: Code, len: nat, e: Env, states: seq<State>, steps: seq<Step>, t: State, step: Step)
    requires Partial(code, len, e, states, steps) && Turn(code, len, e, states[|steps|], t, step)
    ensures Partial(code, len, e, states + [t], steps + [step])
  {
    hide Turn;
    var ss, tt := states + [t], steps + [step];
    forall i | 0 <= i < |tt| ensures TurnAt(code, len, e, ss, tt, i) {
      if i < |steps| { assert TurnAt(code, len, e, states, steps, i); }
    }
  }

  lemma Close(code: Code, len: nat, e: Env, states: seq<State>, steps: seq<Step>, step: Step)
    requires Partial(code, len, e, states, steps) && EndTurn(code, e, states[|steps|], step)
    ensures Run(code, len, e, states, steps + [step])
  {
    hide Turn, EndTurn;
    var tt := steps + [step];
    forall i | 0 <= i < |tt| - 1 ensures TurnAt(code, len, e, states, tt, i) {
      assert TurnAt(code, len, e, states, steps, i);
    }
  }

  /** The state after one more turn; a state without one stays. */
  ghost function NextState(code: Code, len: nat, s: State): State {
    if s.Valid() && s.pc in code && Exec(s, code[s.pc]).Ok? && !code[s.pc].ins.End?
    && Exec(s, code[s.pc]).value.next.pc < len
    then Exec(s, code[s.pc]).value.next.(clk := s.clk + 1) else s
  }

  /** The states of the first n turns. */
  ghost function StatesTo(code: Code, len: nat, n: nat): (r: seq<State>)
    ensures |r| == n + 1
  {
    if n == 0 then [Initial()] else
      var r := StatesTo(code, len, n - 1);
      r + [NextState(code, len, r[n - 1])]
  }

  /** The steps of an execution leave no choice of states. */
  lemma {:induction false} Determined(code: Code, len: nat, e: Env, states: seq<State>, steps: seq<Step>)
    requires Partial(code, len, e, states, steps)
    ensures states == StatesTo(code, len, |steps|)
    decreases |steps|
  {
    hide Exec;
    if steps != [] {
      var n := |steps| - 1;
      var ss, tt := states[..n + 1], steps[..n];
      forall i | 0 <= i < n ensures TurnAt(code, len, e, ss, tt, i) {
        assert TurnAt(code, len, e, states, steps, i);
      }
      Determined(code, len, e, ss, tt);
      assert TurnAt(code, len, e, states, steps, n);
      assert states == states[..n + 1] + [states[n + 1]];
    }
  }

  /** So the states of a finished run are those of the turns before its END. */
  lemma RunIsDetermined(code: Code, len: nat, e: Env, states: seq<State>, steps: seq<Step>)
    requires Run(code, len, e, states, steps)
    ensures states == StatesTo(code, len, |steps| - 1)
  {
    hide Turn, EndTurn, StatesTo;
    var n := |steps| - 1;
    var tt := steps[..n];
    forall i | 0 <= i < n ensures TurnAt(code, len, e, states, tt, i) {
      assert TurnAt(code, len, e, states, steps, i);
    }
    Determined(code, len, e, states, tt);
  }

  /** A state that the loop cannot go on from. */
  ghost predicate Stuck(code: Code, s: State, error: Error) {
    s.Valid() && if s.pc in code then Exec(s, code[s.pc]) == Err(error) else error == PcVistInv
  }

  /** A last step that leaves the program without an END. */
  ghost predicate Leaves(code: Code, len: nat, e: Env, s: State, step: Step) {
    && s.Valid() && s.pc in code && Exec(s, code[s.pc]).Ok? && !code[s.pc].ins.End?
    && Exec(s, code[s.pc]).value.next.pc >= len && step == MakeStep(e, s, code[s.pc], Exec(s, code[s.pc]).value)
  }

  /** The main loop, for at most `limit` turns: when it reports that END was reached, the steps it
      inserted are those of a run from the initial state, and the memory it leaves is that of the
      last state; every other report names the state it stopped in and why. */
  method Execute(words: seq<Felt>, code: Code, e: Env, limit: nat)
    returns (outcome: Outcome, steps: seq<Step>, log: Log)
    requires Reached(words, |words|, code) && e.Valid()
    ensures outcome.Finished? || outcome.LeftProgram? ==> |steps| > 0
    ensures outcome.Finished? ==>
              var states := StatesTo(code, |words|, |steps| - 1);
              CpuComplete.ProgramRun(words, code, e, states, steps) && log == states[|states| - 1].log
    ensures outcome.StillRunning? ==>
              Partial(code, |words|, e, StatesTo(code, |words|, |steps|), steps) && |steps| == limit
    ensures outcome.Aborted? ==>
              var states := StatesTo(code, |words|, |steps|);
              Partial(code, |words|, e, states, steps) && Stuck(code, states[|steps|], outcome.error)
    ensures outcome.LeftProgram? ==>
              var states := StatesTo(code, |words|, |steps| - 1);
              && Partial(code, |words|, e, states, steps[..|steps| - 1])
              && Leaves(code, |words|, e, states[|steps| - 1], steps[|steps| - 1])
  {
    hide Exec, Reached, StatesTo;
    var p := new Process();
    steps := [];
    ghost var states := [p.View()];
    outcome := StillRunning;
    var turn := 0;
    while turn < limit
      invariant Partial(code, |words|, e, states, steps) && p.View() == states[|steps|] && |p.regs| == REGS
      invariant fresh(p) && fresh(p.memory) && outcome.StillRunning? && |steps| == turn <= limit
      decreases limit - turn
    {
      Determined(code, |words|, e, states, steps);
      if p.pc !in code { return Aborted(PcVistInv), steps, p.memory.trace; }
      var f := code[p.pc];
      var regs, pc := p.regs, p.pc;
      ghost var s := p.View();
      var err := p.ExecuteOne(f);
      if err.Some? { return Aborted(err.value), steps, p.memory.trace; }
      var step := Step(0, 0, e.storage, e.code, e.tp, p.clk, pc, 0, 0, regs, f.word, p.op1Imm, p.opcode, f.imm,
                       p.ops, 0, 0);
      assert step == MakeStep(e, s, f, Exec(s, f).value);
      assert (steps + [step])[..|steps|] == steps;
      if f.ins.End? {
        EndIs(s, f);
        Close(code, |words|, e, states, steps, step);
        return Finished, steps + [step], p.memory.trace;
      }
      if p.pc >= |words| { return LeftProgram, steps + [step], p.memory.trace; }
      p.clk := p.clk + 1;
      Extend(code, |words|, e, states, steps, p.View(), step);
      steps, states := steps + [step], states + [p.View()];
      turn := turn + 1;
    }
    Determined(code, |words|, e, states, steps);
    log := p.memory.trace;
  }

  lemma EndIs(s: State, f: Fetched)
    requires s.Valid() && f.ins.End?
    ensures Exec(s, f) == Ok(ExecEnd(s, f)) && ExecEnd(s, f).next == s
  {
  }
}
