/** What assembly means, without addresses: a machine whose program counter and return addresses are
    positions in functions. The loaded binary simulates it step for step. */
module AsmMachine {
  import opened Common
  import opened Isa
  import opened Asm
  import opened AsmEncode
  import E = Executor
  import S = Storage

  /** A position: a function and the number of its instructions before it. */
  datatype Ptr = Ptr(scope: nat, at: nat)

  /** A word, or a position in the code, which supports jumps, moves, loads and stores but no arithmetic. */
  datatype Val = Word(v: nat) | At(p: Ptr)

  datatype Machine = Machine(pc: Ptr, regs: seq<Val>, cells: map<nat, Val>, psp: nat, pspStart: nat, output: seq<nat>)

  /** Where a program runs, and what its prophets answer. */
  datatype Env = Env(h: E.Host, mode: E.Mode, ctx: E.Context, ask: (nat, Machine) -> Option<seq<nat>>)

  type Prog = seq<Scope>

  /** The prophets, by the instruction they are attached to. */
  type Attached = Ptr -> Option<nat>

  function InstrsOf(prog: Prog, s: nat): seq<AsmInstr>
    requires s < |prog|
  {
    Instrs(prog[s].rows)
  }

  predicate InProg(prog: Prog, p: Ptr) { p.scope < |prog| && p.at <= |InstrsOf(prog, p.scope)| }

  /** The position of a row: the number of instructions before it. */
  function PtrOf(prog: Prog, s: nat, k: nat): Ptr
    requires s < |prog| && k <= |prog[s].rows|
  {
    Ptr(s, |Instrs(prog[s].rows[..k])|)
  }

  predicate HasRow(prog: Prog, s: nat, k: nat, r: Row) { s < |prog| && k < |prog[s].rows| && prog[s].rows[k] == r }

  /** No label occurs twice. */
  ghost predicate UniqueLabels(prog: Prog) {
    forall s: nat, k: nat, t: nat, j: nat, r: Row {:trigger HasRow(prog, s, k, r), HasRow(prog, t, j, r)} ::
      HasRow(prog, s, k, r) && HasRow(prog, t, j, r) && !r.Ins? ==> s == t && k == j
  }

  ghost function Target(prog: Prog, r: Row): Option<Ptr> {
    if exists s: nat, k: nat :: HasRow(prog, s, k, r) then
      var s: nat, k: nat :| HasRow(prog, s, k, r);
      Some(PtrOf(prog, s, k))
    else None
  }

  ghost function ValueOf(prog: Prog, m: Machine, o: Option<AsmOperand>): Option<Val>
    requires |m.regs| == REGS && RegsOk(o)
  {
    if o.None? then None else
      match o.value
      case AImm(v) => Some(Word(v))
      case AReg(r) => Some(m.regs[r])
      case ALabel(l) => var p := Target(prog, LabelJmp(l)); if p.Some? then Some(At(p.value)) else None
      case AIdent(l) => var p := Target(prog, LabelCall(l)); if p.Some? then Some(At(p.value)) else None
      case _ => None
  }

  /** The value of an operand that has to be a word. */
  ghost function NumberOf(prog: Prog, m: Machine, o: Option<AsmOperand>): Option<nat>
    requires |m.regs| == REGS && RegsOk(o)
  {
    var v := ValueOf(prog, m, o);
    if v.Some? && v.value.Word? then Some(v.value.v) else None
  }

  function ReadVal(m: Machine, addr: int): Option<Val> {
    if 0 <= addr < P && addr in m.cells then Some(m.cells[addr]) else None
  }

  function WriteVal(m: Machine, addr: int, v: Val): Option<Machine> {
    if (v.Word? && v.v > P) || addr < 0 || addr >= P then None
    else if addr < PROPHETS then Some(m.(cells := m.cells[addr := v]))
    else Some(m.(cells := m.cells[m.psp := v], psp := m.psp + 1))
  }

  function WriteWords(m: Machine, words: seq<(int, nat)>): Option<Machine> {
    if words == [] then Some(m) else
      var n := |words| - 1;
      var below := WriteWords(m, words[..n]);
      if below.None? then None else WriteVal(below.value, words[n].0, Word(words[n].1))
  }

  /** The words in memory; positions in the code are not among them. */
  function WordsOf(m: Machine): Memory {
    Memory(map a | a in m.cells && m.cells[a].Word? :: m.cells[a].v, m.psp)
  }

  /** The address of a load or store. */
  function PlaceOf(m: Machine, o: Option<AsmOperand>): Option<nat>
    requires |m.regs| == REGS && RegsOk(o)
  {
    if o.None? then None else
      match o.value
      case AOffset(r, offset) => if m.regs[r].Word? then Some((m.regs[r].v + offset) % P) else None
      case AFactored(r, index, factor) =>
        if !m.regs[r].Word? || !m.regs[index].Word? then None
        else Some((m.regs[r].v + (m.regs[index].v * factor) % P) % P)
      case _ => None
  }

  function Fp(m: Machine): Option<int>
    requires |m.regs| == REGS
  {
    if m.regs[FP].Word? then Some(m.regs[FP].v) else None
  }

  function DstOf(i: AsmInstr): Option<nat> {
    if i.dst.Some? && i.dst.value.AReg? then Some(i.dst.value.r) else None
  }

  // ---- steps ----

  /** Registers and jumps. */
  ghost function StepPlain(h: E.Host, prog: Prog, m: Machine, i: AsmInstr): Option<Machine>
    requires |m.regs| == REGS && AsmOk(i)
  {
    var next := m.(pc := Ptr(m.pc.scope, m.pc.at + 1));
    var a, b, dst := ValueOf(prog, m, i.op0), ValueOf(prog, m, i.op1), DstOf(i);
    if i.op.End? then Some(next)
    else if i.op.Mov? && i.op1 == Some(ASpecial) then
      if dst.None? then None else Some(next.(regs := m.regs[dst.value := Word(m.pspStart)]))
    else if b.None? then None
    else if E.IsBinary(i.op) then
      if a.None? || !a.value.Word? || !b.value.Word? || dst.None? then None else
        var v := E.BinaryResult(h, i.op, a.value.v, b.value.v);
        if v.None? then None else Some(next.(regs := m.regs[dst.value := Word(v.value)]))
    else if i.op.Assert? then
      if i.op1.value.AReg? && b.value == Word(1) then Some(next) else None
    else if i.op.Mov? then
      if dst.None? then None else Some(next.(regs := m.regs[dst.value := b.value]))
    else if i.op.Not? then
      if dst.None? || !b.value.Word? then None
      else Some(next.(regs := m.regs[dst.value := Word((P - 1 - b.value.v) % P)]))
    else if i.op.Rc? then
      if !b.value.Word? || b.value.v > U32_MAX then None else Some(next)
    else if i.op.Jmp? then
      if i.op0.Some? || !b.value.At? then None else Some(m.(pc := b.value.p))
    else if i.op.Cjmp? then
      if a.None? || !a.value.Word? || a.value.v > 1 || !b.value.At? then None
      else if a.value.v == 1 then Some(m.(pc := b.value.p)) else Some(next)
    else None
  }

  /** Calls, returns, loads and stores. While a trace is kept, a call also needs a saved frame pointer. */
  ghost function StepMemory(mode: E.Mode, prog: Prog, m: Machine, i: AsmInstr): Option<Machine>
    requires |m.regs| == REGS && AsmOk(i)
  {
    var next := m.(pc := Ptr(m.pc.scope, m.pc.at + 1));
    if i.op.Call? then
      var b, fp := ValueOf(prog, m, i.op1), Fp(m);
      if b.None? || !b.value.At? || fp.None? then None
      else if E.Traces(mode) && ReadVal(m, fp.value - 2).None? then None
      else WriteVal(m.(pc := b.value.p), fp.value - 1, At(next.pc))
    else if i.op.Ret? then
      if Fp(m).None? then None else
        var pc, saved := ReadVal(m, Fp(m).value - 1), ReadVal(m, Fp(m).value - 2);
        if pc.None? || !pc.value.At? || saved.None? then None
        else Some(m.(pc := pc.value.p, regs := m.regs[FP := saved.value]))
    else if i.op.Mload? then
      var place, dst := PlaceOf(m, i.op1), DstOf(i);
      if place.None? || dst.None? then None else
        var v := ReadVal(m, place.value);
        if v.None? then None else Some(next.(regs := m.regs[dst.value := v.value]))
    else if i.op.Mstore? then
      var place := PlaceOf(m, i.op0);
      if place.None? || i.op1.None? || !i.op1.value.AReg? then None
      else WriteVal(next, place.value, m.regs[i.op1.value.r])
    else None
  }

  /** A machine and what it shares with others. */
  datatype Shared = Shared(m: Machine, w: E.World)

  /** One difference of an instruction that works on words. */
  function ApplyWords(env: Env, m: Machine, w: E.World, d: E.Diff): Option<Shared>
    requires |m.regs| == REGS && E.DiffOk(d)
  {
    match d
    case PcTo(_) => Some(Shared(m, w))
    case RegTo(r, v) => Some(Shared(m.(regs := m.regs[r := Word(v)]), w))
    case MemTo(cells) => var t := WriteWords(m, cells); if t.None? then None else Some(Shared(t.value, w))
    case StoreTo(key, v) =>
      Some(Shared(m, w.(store := S.AfterStore(env.h.treeKey, w.store, env.h.disk, env.ctx.storage, key, v))))
    case TapeTo(values) => Some(Shared(m.(output := m.output + values), w.(tape := w.tape + values)))
  }

  /** What an instruction that works on words sees and does: hashing, signatures, storage, tape, contract calls,
      events. */
  ghost function OuterEffect(env: Env, prog: Prog, m: Machine, w: E.World, i: AsmInstr): (e: E.Effect)
    requires |m.regs| == REGS && AsmOk(i)
    ensures E.EffectOk(e)
    ensures e.Effect? ==> 1 <= |e.diffs| <= 2 && (|e.diffs| == 2 ==> !e.diffs[1].PcTo?)
  {
    E.OuterOn(env.h, env.mode, env.ctx, WordsOf(m), w, 0, i.op, NumberOf(prog, m, i.op0), NumberOf(prog, m, i.op1),
              NumberOf(prog, m, i.dst), DstOf(i))
  }

  ghost function StepOuter(env: Env, prog: Prog, m: Machine, w: E.World, i: AsmInstr): Option<Shared>
    requires |m.regs| == REGS && AsmOk(i)
  {
    var next := m.(pc := Ptr(m.pc.scope, m.pc.at + 1));
    var e := OuterEffect(env, prog, m, w, i);
    if e.None_? then None
    else if |e.diffs| == 1 then Some(Shared(next, e.w))
    else ApplyWords(env, next, e.w, e.diffs[1])
  }

  /** The instruction itself, before its prophet. */
  ghost function StepCore(env: Env, prog: Prog, m: Machine, w: E.World, i: AsmInstr): (r: Option<Shared>)
    requires |m.regs| == REGS && AsmOk(i)
    ensures r.Some? ==> |r.value.m.regs| == REGS
  {
    if E.IsOuter(i.op) then
      OuterKeepsShape(env, prog, m, w, i);
      StepOuter(env, prog, m, w, i)
    else
      var t := if E.IsMemorial(i.op) then StepMemory(env.mode, prog, m, i) else StepPlain(env.h, prog, m, i);
      if t.None? then None else Some(Shared(t.value, w))
  }

  lemma OuterKeepsShape(env: Env, prog: Prog, m: Machine, w: E.World, i: AsmInstr)
    requires |m.regs| == REGS && AsmOk(i)
    ensures var r := StepOuter(env, prog, m, w, i); r.Some? ==> |r.value.m.regs| == REGS
  {
    hide OuterEffect;
    var e := OuterEffect(env, prog, m, w, i);
    if e.Effect? && |e.diffs| == 2 && e.diffs[1].MemTo? {
      WritesKeepRegs(m.(pc := Ptr(m.pc.scope, m.pc.at + 1)), e.diffs[1].cells);
    }
  }

  lemma {:induction false} WritesKeepRegs(m: Machine, words: seq<(int, nat)>)
    ensures var t := WriteWords(m, words);
            t.Some? ==>
              && t.value.regs == m.regs && t.value.pc == m.pc
              && t.value.output == m.output && t.value.pspStart == m.pspStart
  {
    if words != [] { WritesKeepRegs(m, words[..|words| - 1]); }
  }

  /** An attached prophet answers, and its answer is appended to the prophet region. */
  function Prophesied(env: Env, att: Attached, p: Ptr, m: Machine): (r: Option<Machine>)
    ensures r.Some? ==> r.value.regs == m.regs && r.value.pc == m.pc && r.value.output == m.output
  {
    if att(p).None? then Some(m) else
      var values := env.ask(att(p).value, m);
      if values.None? then None else
        var words := seq(|values.value|, k requires 0 <= k < |values.value| => (m.psp as int, values.value[k]));
        var t := WriteWords(m, words);
        WritesKeepRegs(m, words);
        if t.None? then None else Some(t.value.(pspStart := m.psp))
  }

  datatype Next = Next(m: Machine, w: E.World, status: E.Status)

  /** How a step ends: a contract call starts the recorded output afresh and reports the callee. */
  ghost function Reported(env: Env, prog: Prog, m: Machine, i: AsmInstr, after: Machine, w: E.World): (r: Option<Next>)
    requires |m.regs| == REGS && AsmOk(i)
    ensures r.Some? ==> r.value.m.regs == after.regs
  {
    if i.op.Sccall? then
      var a, b := NumberOf(prog, m, i.op0), NumberOf(prog, m, i.op1);
      if a.None? || b.None? then None else
        var callee := BatchRead(WordsOf(m), a.value, 4);
        if callee.None? then None
        else Some(Next(after.(output := []), w, E.Calling(E.ToWord4(callee.value), b.value == 1)))
    else if i.op.End? then Some(Next(after, w, E.Ended(after.output)))
    else Some(Next(after, w, E.Running))
  }

  /** One step; none if the machine is stuck: it leaves a function, computes with a position in the code, jumps to a
      number, reads a cell that is not there, or meets what the executor refuses. */
  ghost function Step(env: Env, prog: Prog, att: Attached, m: Machine, w: E.World): (r: Option<Next>)
    requires |m.regs| == REGS
    ensures r.Some? ==> |r.value.m.regs| == REGS
  {
    if m.pc.scope >= |prog| || m.pc.at >= |InstrsOf(prog, m.pc.scope)| then None else
      var i := InstrsOf(prog, m.pc.scope)[m.pc.at];
      if !AsmOk(i) then None else
        var t := StepCore(env, prog, m, w, i);
        if t.None? then None else
          var u := Prophesied(env, att, m.pc, t.value.m);
          if u.None? then None else Reported(env, prog, m, i, u.value, t.value.w)
  }

  // ---- representation ----

  /** The base address of each function. */
  type Bases = seq<nat>

  function Address(prog: Prog, base: Bases, p: Ptr): nat
    requires |base| == |prog| && InProg(prog, p)
  {
    base[p.scope] + AddrOf(InstrsOf(prog, p.scope), p.at)
  }

  predicate Reps(prog: Prog, base: Bases, v: Val, n: nat)
    requires |base| == |prog|
  {
    match v
    case Word(x) => n == x
    case At(p) => InProg(prog, p) && n == Address(prog, base, p) && n <= P
  }

  /** Registers and memory of the two machines. */
  predicate SameData(prog: Prog, base: Bases, m: Machine, regs: seq<nat>, memory: Memory)
    requires |base| == |prog|
  {
    && |m.regs| == |regs| == REGS && (forall r :: 0 <= r < REGS ==> Reps(prog, base, m.regs[r], regs[r]))
    && m.cells.Keys == memory.cells.Keys
    && (forall a :: a in m.cells ==> Reps(prog, base, m.cells[a], memory.cells[a]))
    && m.psp == memory.psp
  }

  predicate Related(prog: Prog, base: Bases, m: Machine, x: E.Exec)
    requires |base| == |prog|
  {
    && x.Valid() && InProg(prog, m.pc) && x.pc == Address(prog, base, m.pc)
    && SameData(prog, base, m, x.regs, x.memory) && m.pspStart == x.pspStart && m.output == x.output
  }

  /** The label machine's prophets answer what the executor's answer on the same data. */
  ghost predicate Answers(env: Env, prog: Prog, base: Bases)
    requires |base| == |prog|
  {
    forall c: nat, m: Machine, regs: seq<nat>, memory: Memory :: SameData(prog, base, m, regs, memory) ==>
      env.h.oracle(c, regs, memory) == env.ask(c, m)
  }

  /** Every instruction of every function is in the loaded code at its address, converted, with its prophet, and as
      long as the assembler counted. */
  predicate Loaded(prog: Prog, base: Bases, att: Attached, calls: map<string, nat>, jumps: map<string, nat>,
                   code: E.Code)
    requires |base| == |prog|
  {
    forall s, n :: 0 <= s < |prog| && 0 <= n < |InstrsOf(prog, s)| ==>
      LoadedAt(prog, base, att, calls, jumps, code, Ptr(s, n))
  }

  function ProphetOf(prog: Prog, base: Bases, att: Attached, p: Ptr): Option<Prophet>
    requires |base| == |prog| && InProg(prog, p)
  {
    if att(p).Some? then Some(Prophet(Address(prog, base, p), att(p).value)) else None
  }

  predicate LoadedAt(prog: Prog, base: Bases, att: Attached, calls: map<string, nat>, jumps: map<string, nat>,
                     code: E.Code, p: Ptr)
    requires |base| == |prog| && p.scope < |prog| && p.at < |InstrsOf(prog, p.scope)|
  {
    var i := InstrsOf(prog, p.scope)[p.at];
    var b := Convert(i, calls, jumps, ProphetOf(prog, base, att, p));
    && Address(prog, base, p) in code
    && b.Some? && Assembled(b.value) && Length(b.value) == AsmLength(i)
    && code[Address(prog, base, p)] == Normal(b.value)
  }

  ghost predicate LeadsTo(prog: Prog, base: Bases, r: Row, a: nat)
    requires |base| == |prog|
  {
    var p := Target(prog, r);
    p.Some? ==> Reps(prog, base, At(p.value), a)
  }

  /** Labels map to the addresses of their positions. */
  ghost predicate Resolved(prog: Prog, base: Bases, calls: map<string, nat>, jumps: map<string, nat>)
    requires |base| == |prog|
  {
    && (forall l :: l in jumps ==> LeadsTo(prog, base, LabelJmp(l), jumps[l]))
    && (forall l :: l in calls ==> LeadsTo(prog, base, LabelCall(l), calls[l]))
  }

  lemma NextAddress(prog: Prog, base: Bases, p: Ptr)
    requires |base| == |prog| && p.scope < |prog| && p.at < |InstrsOf(prog, p.scope)|
    ensures var i := InstrsOf(prog, p.scope)[p.at];
            Address(prog, base, Ptr(p.scope, p.at + 1)) == Address(prog, base, p) + AsmLength(i)
  {
  }

  /** An operand has, in the loaded program, the representation of its value. */
  lemma OperandRelated(prog: Prog, base: Bases, calls: map<string, nat>, jumps: map<string, nat>, m: Machine, x: E.Exec,
                       o: Option<AsmOperand>)
    requires |base| == |prog| && Resolved(prog, base, calls, jumps) && Related(prog, base, m, x)
    requires RegsOk(o) && ValueOf(prog, m, o).Some? && ConvertOperand(o, calls, jumps).Good?
    ensures var c := ConvertOperand(o, calls, jumps).o;
            c.Some? && OperandOk(c) && E.Get(x, c).Some?
            && Reps(prog, base, ValueOf(prog, m, o).value, E.Get(x, c).value)
  {
    hide Target;
  }

  // ---- the instruction itself ----

  /** The situation of one step: related machines in front of an instruction and its binary form. */
  ghost predicate Facing(env: Env, prog: Prog, base: Bases, calls: map<string, nat>, jumps: map<string, nat>,
                         m: Machine, x: E.Exec, i: AsmInstr, b: Instr)
    requires |base| == |prog|
  {
    && Resolved(prog, base, calls, jumps) && Related(prog, base, m, x) && x.mode == env.mode && x.ctx == env.ctx
    && m.pc.at < |InstrsOf(prog, m.pc.scope)| && i == InstrsOf(prog, m.pc.scope)[m.pc.at]
    && AsmOk(i) && Convert(i, calls, jumps, b.prophet) == Some(b) && Assembled(b) && Length(b) == AsmLength(i)
  }

  /** The executor carries out the instruction, up to its prophet, and reaches the matching state. */
  ghost predicate CoreDone(env: Env, prog: Prog, base: Bases, t: Shared, x: E.Exec, w: E.World, i: Instr)
    requires |base| == |prog| && x.Valid() && InstrOk(i)
  {
    var e := E.EffectOf(env.h, x, w, i);
    && e.Effect? && !E.TraceFails(x, i)
    && var r := E.ApplyAll(env.h, x, e.w, e.diffs);
    && r.Ok? && r.w == t.w && Related(prog, base, t.m, r.x)
  }

  lemma NormalEncodable(b: Instr)
    requires Assembled(b)
    ensures InstrOk(Normal(b)) && Encodable(Normal(b)) && Length(Normal(b)) == Length(b) && Normal(b).op == b.op
  {
  }

  /** Differences that are a jump, or a jump and one more change. */
  lemma Applied(h: E.Host, x: E.Exec, w: E.World, pc: nat, d: E.Diff)
    requires x.Valid() && E.DiffOk(d)
    ensures E.ApplyAll(h, x, w, [E.PcTo(pc)]) == E.Ok(x.(pc := pc), w)
    ensures E.ApplyAll(h, x, w, [E.PcTo(pc), d]) == E.Apply(h, x.(pc := pc), w, d)
  {
    E.TwoDiffs(h, x, w, E.PcTo(pc), d);
    assert [E.PcTo(pc)][..0] == [];
    assert E.ApplyAll(h, x, w, []) == E.Ok(x, w);
    assert E.ApplyAll(h, x, w, [E.PcTo(pc)]) == E.Apply(h, x, w, E.PcTo(pc));
  }

  /** Changing one register on both sides. */
  lemma RegisterRelated(prog: Prog, base: Bases, m: Machine, x: E.Exec, r: nat, v: Val, n: nat, p: Ptr)
    requires |base| == |prog| && Related(prog, base, m, x) && r < REGS && Reps(prog, base, v, n) && InProg(prog, p)
    ensures Related(prog, base, m.(pc := p, regs := m.regs[r := v]),
                    x.(pc := Address(prog, base, p), regs := x.regs[r := n]))
  {
  }

  lemma JumpRelated(prog: Prog, base: Bases, m: Machine, x: E.Exec, p: Ptr)
    requires |base| == |prog| && Related(prog, base, m, x) && InProg(prog, p)
    ensures Related(prog, base, m.(pc := p), x.(pc := Address(prog, base, p)))
  {
  }

  lemma PcIs(prog: Prog, base: Bases, m: Machine, x: E.Exec)
    requires |base| == |prog| && Related(prog, base, m, x)
    ensures x.Valid() && |m.regs| == REGS && InProg(prog, m.pc) && x.pc == Address(prog, base, m.pc)
    ensures m.pspStart == x.pspStart && m.output == x.output && m.psp == x.memory.psp
  {
  }

  /** A result written to the destination register. */
  lemma ResultSimulates(env: Env, prog: Prog, base: Bases, calls: map<string, nat>, jumps: map<string, nat>,
                        m: Machine, x: E.Exec, w: E.World, i: AsmInstr, b: Instr, r: nat, v: Val, n: nat)
    requires |base| == |prog| && Facing(env, prog, base, calls, jumps, m, x, i, b) && r < REGS && Reps(prog, base, v, n)
    requires !i.op.Call?
    requires E.EffectOf(env.h, x, w, Normal(b)) == E.Effect([E.PcTo(x.pc + Length(Normal(b))), E.RegTo(r, n)], w)
    ensures CoreDone(env, prog, base, Shared(m.(pc := Ptr(m.pc.scope, m.pc.at + 1), regs := m.regs[r := v]), w), x,
                     w, Normal(b))
  {
    hide E.EffectOf, Resolved, Related, Reps, E.ApplyAll, Assembled;
    PcIs(prog, base, m, x);
    NormalEncodable(b);
    NextAddress(prog, base, m.pc);
    Applied(env.h, x, w, x.pc + Length(Normal(b)), E.RegTo(r, n));
    RegisterRelated(prog, base, m, x, r, v, n, Ptr(m.pc.scope, m.pc.at + 1));
  }

  lemma JumpSimulates(env: Env, prog: Prog, base: Bases, calls: map<string, nat>, jumps: map<string, nat>,
                      m: Machine, x: E.Exec, w: E.World, i: AsmInstr, b: Instr, p: Ptr, n: nat)
    requires |base| == |prog| && Facing(env, prog, base, calls, jumps, m, x, i, b)
    requires InProg(prog, p) && n == Address(prog, base, p) && !i.op.Call?
    requires E.EffectOf(env.h, x, w, Normal(b)) == E.Effect([E.PcTo(n)], w)
    ensures CoreDone(env, prog, base, Shared(m.(pc := p), w), x, w, Normal(b))
  {
    hide E.EffectOf, Resolved, Related, Reps, E.ApplyAll, Assembled;
    PcIs(prog, base, m, x);
    NormalEncodable(b);
    Applied(env.h, x, w, n, E.PcTo(n));
    JumpRelated(prog, base, m, x, p);
  }

  lemma BinarySimulates(env: Env, prog: Prog, base: Bases, calls: map<string, nat>, jumps: map<string, nat>,
                        m: Machine, x: E.Exec, w: E.World, i: AsmInstr, b: Instr)
    requires |base| == |prog| && Facing(env, prog, base, calls, jumps, m, x, i, b) && E.IsBinary(i.op)
    requires StepPlain(env.h, prog, m, i).Some?
    ensures CoreDone(env, prog, base, Shared(StepPlain(env.h, prog, m, i).value, w), x, w, Normal(b))
  {
    hide Target, E.BinaryResult, Resolved, Related, Reps, CoreDone, E.Get, ValueOf;
    PcIs(prog, base, m, x);
    var v, u := ValueOf(prog, m, i.op1).value, ValueOf(prog, m, i.op0).value;
    NumberRelated(prog, base, calls, jumps, m, x, i.op0);
    NumberRelated(prog, base, calls, jumps, m, x, i.op1);
    var res := E.BinaryResult(env.h, i.op, u.v, v.v).value;
    WordIs(prog, base, res);
    ResultSimulates(env, prog, base, calls, jumps, m, x, w, i, b, i.dst.value.r, Word(res), res);
  }

  lemma WordIs(prog: Prog, base: Bases, n: nat)
    requires |base| == |prog|
    ensures Reps(prog, base, Word(n), n)
  {
  }

  lemma MovesSimulate(env: Env, prog: Prog, base: Bases, calls: map<string, nat>, jumps: map<string, nat>,
                      m: Machine, x: E.Exec, w: E.World, i: AsmInstr, b: Instr)
    requires |base| == |prog| && Facing(env, prog, base, calls, jumps, m, x, i, b) && (i.op.Mov? || i.op.Not?)
    requires StepPlain(env.h, prog, m, i).Some?
    ensures CoreDone(env, prog, base, Shared(StepPlain(env.h, prog, m, i).value, w), x, w, Normal(b))
  {
    hide Target, E.BinaryResult, Resolved, CoreDone;
    var r := i.dst.value.r;
    if i.op.Mov? && i.op1 == Some(ASpecial) {
      ResultSimulates(env, prog, base, calls, jumps, m, x, w, i, b, r, Word(m.pspStart), x.pspStart);
    } else {
      OperandRelated(prog, base, calls, jumps, m, x, i.op1);
      var v, n := ValueOf(prog, m, i.op1).value, E.Get(x, b.op1).value;
      if i.op.Mov? {
        ResultSimulates(env, prog, base, calls, jumps, m, x, w, i, b, r, v, n);
      } else {
        var res := (P - 1 - n) % P;
        ResultSimulates(env, prog, base, calls, jumps, m, x, w, i, b, r, Word(res), res);
      }
    }
  }

  lemma ChecksSimulate(env: Env, prog: Prog, base: Bases, calls: map<string, nat>, jumps: map<string, nat>,
                       m: Machine, x: E.Exec, w: E.World, i: AsmInstr, b: Instr)
    requires |base| == |prog| && Facing(env, prog, base, calls, jumps, m, x, i, b)
    requires i.op.Assert? || i.op.Rc? || i.op.End?
    requires StepPlain(env.h, prog, m, i).Some?
    ensures CoreDone(env, prog, base, Shared(StepPlain(env.h, prog, m, i).value, w), x, w, Normal(b))
  {
    hide Target, E.BinaryResult, Resolved, CoreDone;
    NextAddress(prog, base, m.pc);
    if !i.op.End? { OperandRelated(prog, base, calls, jumps, m, x, i.op1); }
    JumpSimulates(env, prog, base, calls, jumps, m, x, w, i, b, Ptr(m.pc.scope, m.pc.at + 1), x.pc + Length(b));
  }

  lemma JumpsSimulate(env: Env, prog: Prog, base: Bases, calls: map<string, nat>, jumps: map<string, nat>,
                      m: Machine, x: E.Exec, w: E.World, i: AsmInstr, b: Instr)
    requires |base| == |prog| && Facing(env, prog, base, calls, jumps, m, x, i, b) && (i.op.Jmp? || i.op.Cjmp?)
    requires StepPlain(env.h, prog, m, i).Some?
    ensures CoreDone(env, prog, base, Shared(StepPlain(env.h, prog, m, i).value, w), x, w, Normal(b))
  {
    hide Target, E.BinaryResult, Resolved, CoreDone;
    NextAddress(prog, base, m.pc);
    var next, after := Ptr(m.pc.scope, m.pc.at + 1), x.pc + Length(b);
    OperandRelated(prog, base, calls, jumps, m, x, i.op1);
    var v, n := ValueOf(prog, m, i.op1).value, E.Get(x, b.op1).value;
    if i.op.Jmp? {
      JumpSimulates(env, prog, base, calls, jumps, m, x, w, i, b, v.p, n);
    } else {
      OperandRelated(prog, base, calls, jumps, m, x, i.op0);
      var jumping := ValueOf(prog, m, i.op0).value.v == 1;
      JumpSimulates(env, prog, base, calls, jumps, m, x, w, i, b, if jumping then v.p else next,
                    if jumping then n else after);
    }
  }

  // ---- memory ----

  lemma OneWrite(m: Memory, addr: int, v: nat)
    ensures WriteAll(m, [(addr, v)]) == WriteMem(m, addr, v)
  {
    assert [(addr, v)][..0] == [];
    assert WriteAll(m, []) == Some(m);
  }

  /** Writing one cell on both sides. */
  lemma WriteSame(prog: Prog, base: Bases, m: Machine, regs: seq<nat>, memory: Memory, addr: int, v: Val, n: nat)
    requires |base| == |prog| && SameData(prog, base, m, regs, memory) && Reps(prog, base, v, n)
    requires WriteVal(m, addr, v).Some?
    ensures WriteMem(memory, addr, n).Some?
    ensures SameData(prog, base, WriteVal(m, addr, v).value, regs, WriteMem(memory, addr, n).value)
  {
  }

  lemma {:induction false} WritesSame(prog: Prog, base: Bases, m: Machine, regs: seq<nat>, memory: Memory,
                                      words: seq<(int, nat)>)
    requires |base| == |prog| && SameData(prog, base, m, regs, memory) && WriteWords(m, words).Some?
    ensures WriteAll(memory, words).Some?
    ensures SameData(prog, base, WriteWords(m, words).value, regs, WriteAll(memory, words).value)
  {
    hide SameData, WriteVal, WriteMem;
    if words != [] {
      var n := |words| - 1;
      WritesSame(prog, base, m, regs, memory, words[..n]);
      WriteSame(prog, base, WriteWords(m, words[..n]).value, regs, WriteAll(memory, words[..n]).value, words[n].0,
                Word(words[n].1), words[n].1);
    }
  }

  /** Reading one cell on both sides. */
  lemma ReadRelated(prog: Prog, base: Bases, m: Machine, x: E.Exec, addr: int)
    requires |base| == |prog| && Related(prog, base, m, x) && ReadVal(m, addr).Some?
    ensures ReadMem(x.memory, addr).Some? && Reps(prog, base, ReadVal(m, addr).value, ReadMem(x.memory, addr).value)
  {
    assert addr in m.cells.Keys;
  }

  lemma WriteRelated(prog: Prog, base: Bases, m: Machine, x: E.Exec, addr: int, v: Val, n: nat, p: Ptr)
    requires |base| == |prog| && Related(prog, base, m, x) && Reps(prog, base, v, n) && InProg(prog, p)
    requires WriteVal(m.(pc := p), addr, v).Some?
    ensures WriteMem(x.memory, addr, n).Some?
    ensures Related(prog, base, WriteVal(m.(pc := p), addr, v).value,
                    x.(pc := Address(prog, base, p), memory := WriteMem(x.memory, addr, n).value))
  {
    WriteSame(prog, base, m.(pc := p), x.regs, x.memory, addr, v, n);
  }

  /** A value written to memory, on the way to another position. */
  lemma WriteSimulates(env: Env, prog: Prog, base: Bases, calls: map<string, nat>, jumps: map<string, nat>,
                       m: Machine, x: E.Exec, w: E.World, i: AsmInstr, b: Instr, addr: int, v: Val, n: nat, p: Ptr)
    requires |base| == |prog| && Facing(env, prog, base, calls, jumps, m, x, i, b) && Reps(prog, base, v, n)
             && InProg(prog, p)
    requires WriteVal(m.(pc := p), addr, v).Some? && !E.TraceFails(x, Normal(b))
    requires E.EffectOf(env.h, x, w, Normal(b)) == E.Effect([E.PcTo(Address(prog, base, p)), E.MemTo([(addr, n)])], w)
    ensures CoreDone(env, prog, base, Shared(WriteVal(m.(pc := p), addr, v).value, w), x, w, Normal(b))
  {
    hide E.EffectOf, Resolved, Related, Reps, WriteVal, WriteMem, WriteAll, E.ApplyAll, E.TraceFails;
    PcIs(prog, base, m, x);
    WriteRelated(prog, base, m, x, addr, v, n, p);
    OneWrite(x.memory, addr, n);
    Applied(env.h, x, w, Address(prog, base, p), E.MemTo([(addr, n)]));
  }

  lemma CallSimulates(env: Env, prog: Prog, base: Bases, calls: map<string, nat>, jumps: map<string, nat>,
                      m: Machine, x: E.Exec, w: E.World, i: AsmInstr, b: Instr)
    requires |base| == |prog| && Facing(env, prog, base, calls, jumps, m, x, i, b) && i.op.Call?
    requires StepMemory(env.mode, prog, m, i).Some? && x.pc + Length(b) <= P
    ensures CoreDone(env, prog, base, Shared(StepMemory(env.mode, prog, m, i).value, w), x, w, Normal(b))
  {
    hide Target, Resolved, CoreDone, WriteVal;
    NextAddress(prog, base, m.pc);
    OperandRelated(prog, base, calls, jumps, m, x, i.op1);
    NormalEncodable(b);
    var v, fp := ValueOf(prog, m, i.op1).value, Fp(m).value;
    if E.Traces(env.mode) { ReadRelated(prog, base, m, x, fp - 2); }
    WriteSimulates(env, prog, base, calls, jumps, m, x, w, i, b, fp - 1, At(Ptr(m.pc.scope, m.pc.at + 1)),
                   x.pc + Length(b), v.p);
  }

  lemma RetSimulates(env: Env, prog: Prog, base: Bases, calls: map<string, nat>, jumps: map<string, nat>,
                     m: Machine, x: E.Exec, w: E.World, i: AsmInstr, b: Instr)
    requires |base| == |prog| && Facing(env, prog, base, calls, jumps, m, x, i, b) && i.op.Ret?
    requires StepMemory(env.mode, prog, m, i).Some?
    ensures CoreDone(env, prog, base, Shared(StepMemory(env.mode, prog, m, i).value, w), x, w, Normal(b))
  {
    hide Target, Resolved, E.ApplyAll;
    var fp: int := Fp(m).value;
    ReadRelated(prog, base, m, x, fp - 1);
    ReadRelated(prog, base, m, x, fp - 2);
    NormalEncodable(b);
    var pc, saved := ReadVal(m, fp - 1).value, ReadVal(m, fp - 2).value;
    var n, k := ReadMem(x.memory, fp - 1).value, ReadMem(x.memory, fp - 2).value;
    Applied(env.h, x, w, n, E.RegTo(FP, k));
    RegisterRelated(prog, base, m, x, FP, saved, k, pc.p);
  }

  /** The address of a load or store is the same number on both sides. */
  lemma PlaceRelated(prog: Prog, base: Bases, m: Machine, x: E.Exec, o: Option<AsmOperand>, v: Option<AsmOperand>)
    requires |base| == |prog| && Related(prog, base, m, x) && RegsOk(o) && RegsOk(v)
    requires PlaceOf(m, o).Some? && ConvertAccess(o, v).Some?
    ensures var ops := ConvertAccess(o, v).value;
            && OperandOk(Some(ops.0)) && OperandOk(Some(ops.1))
            && E.Get(x, Some(ops.0)).Some? && E.Get(x, Some(ops.1)).Some?
            && (E.Get(x, Some(ops.0)).value + E.Get(x, Some(ops.1)).value) % P == PlaceOf(m, o).value
  {
  }

  lemma LoadSimulates(env: Env, prog: Prog, base: Bases, calls: map<string, nat>, jumps: map<string, nat>,
                      m: Machine, x: E.Exec, w: E.World, i: AsmInstr, b: Instr)
    requires |base| == |prog| && Facing(env, prog, base, calls, jumps, m, x, i, b) && i.op.Mload?
    requires StepMemory(env.mode, prog, m, i).Some?
    ensures CoreDone(env, prog, base, Shared(StepMemory(env.mode, prog, m, i).value, w), x, w, Normal(b))
  {
    hide Target, Resolved, CoreDone, E.Get, Reps;
    PlaceRelated(prog, base, m, x, i.op1, i.dst);
    var addr := PlaceOf(m, i.op1).value;
    ReadRelated(prog, base, m, x, addr);
    ResultSimulates(env, prog, base, calls, jumps, m, x, w, i, b, i.dst.value.r, ReadVal(m, addr).value,
                    ReadMem(x.memory, addr).value);
  }

  lemma StoreSimulates(env: Env, prog: Prog, base: Bases, calls: map<string, nat>, jumps: map<string, nat>,
                       m: Machine, x: E.Exec, w: E.World, i: AsmInstr, b: Instr)
    requires |base| == |prog| && Facing(env, prog, base, calls, jumps, m, x, i, b) && i.op.Mstore?
    requires StepMemory(env.mode, prog, m, i).Some?
    ensures CoreDone(env, prog, base, Shared(StepMemory(env.mode, prog, m, i).value, w), x, w, Normal(b))
  {
    hide Target, Resolved, CoreDone, E.Get, WriteVal;
    NextAddress(prog, base, m.pc);
    NormalEncodable(b);
    PlaceRelated(prog, base, m, x, i.op0, i.op1);
    var r := i.op1.value.r;
    WriteSimulates(env, prog, base, calls, jumps, m, x, w, i, b, PlaceOf(m, i.op0).value, m.regs[r], x.regs[r],
                   Ptr(m.pc.scope, m.pc.at + 1));
  }

  // ---- words ----

  /** Memory that has at least the cells of another one. */
  predicate Extends(big: Memory, small: Memory) {
    forall a :: a in small.cells ==> a in big.cells && big.cells[a] == small.cells[a]
  }

  lemma WordsExtend(prog: Prog, base: Bases, m: Machine, x: E.Exec)
    requires |base| == |prog| && Related(prog, base, m, x)
    ensures Extends(x.memory, WordsOf(m))
  {
    forall a | a in WordsOf(m).cells ensures a in x.memory.cells && x.memory.cells[a] == WordsOf(m).cells[a] {
      assert a in m.cells.Keys && Reps(prog, base, m.cells[a], x.memory.cells[a]);
    }
  }

  lemma {:induction false} CellsExtend(big: Memory, small: Memory, from: nat, len: nat)
    requires Extends(big, small) && ReadCells(small, from, len).Some?
    ensures ReadCells(big, from, len) == ReadCells(small, from, len)
  {
    if len > 0 { CellsExtend(big, small, from, len - 1); }
  }

  lemma BatchExtends(big: Memory, small: Memory, from: int, len: nat)
    requires Extends(big, small) && BatchRead(small, from, len).Some?
    ensures BatchRead(big, from, len) == BatchRead(small, from, len)
  {
    CellsExtend(big, small, from, len);
  }

  lemma {:induction false} TopicsExtend(big: Memory, small: Memory, addrs: seq<nat>)
    requires Extends(big, small) && E.Topics(small, addrs).Some?
    ensures E.Topics(big, addrs) == E.Topics(small, addrs)
  {
    hide BatchRead, Extends;
    if addrs != [] {
      TopicsExtend(big, small, addrs[..|addrs| - 1]);
      BatchExtends(big, small, addrs[|addrs| - 1], 4);
    }
  }

  /** An effect with another next address. */
  function Onward(e: E.Effect, next: nat): E.Effect
    requires e.Effect? ==> |e.diffs| > 0
  {
    if e.None_? then e else e.(diffs := [E.PcTo(next)] + e.diffs[1..])
  }

  lemma EventExtends(h: E.Host, big: Memory, small: Memory, w: E.World, next: nat, a: nat, b: nat)
    requires Extends(big, small) && E.EventEffect(h, small, w, 0, a, b).Effect?
    ensures E.EventEffect(h, big, w, next, a, b) == Onward(E.EventEffect(h, small, w, 0, a, b), next)
  {
    hide BatchRead, E.Topics;
    var n, len := ReadMem(small, a).value, ReadMem(small, b).value;
    BatchExtends(big, small, a + 1, n);
    TopicsExtend(big, small, BatchRead(small, a + 1, n).value);
    BatchExtends(big, small, b + 1, len);
  }

  predicate Refined(less: Option<nat>, more: Option<nat>) { less.Some? ==> more == less }

  /** What works with fewer cells and operands works the same with more. */
  lemma OuterExtends(h: E.Host, mode: E.Mode, ctx: E.Context, big: Memory, small: Memory, w: E.World, next: nat,
                     op: Opcode, a: Option<nat>, b: Option<nat>, to: Option<nat>, dst: Option<nat>,
                     a': Option<nat>, b': Option<nat>, to': Option<nat>)
    requires Extends(big, small) && Refined(a, a') && Refined(b, b') && Refined(to, to')
    requires E.OuterOn(h, mode, ctx, small, w, 0, op, a, b, to, dst).Effect?
    ensures E.OuterOn(h, mode, ctx, big, w, next, op, a', b', to', dst)
         == Onward(E.OuterOn(h, mode, ctx, small, w, 0, op, a, b, to, dst), next)
  {
    hide BatchRead, E.EventEffect, E.CallWords, E.Cells, Extends;
    if op.Sigcheck? {
      BatchExtends(big, small, b.value, 20);
    } else if op.Poseidon? || op.Tstore? {
      BatchExtends(big, small, a.value, b.value);
    } else if op.Sload? || op.Sccall? {
      BatchExtends(big, small, a.value, 4);
    } else if op.Sstore? {
      BatchExtends(big, small, a.value, 4);
      BatchExtends(big, small, b.value, 4);
    } else if !op.Tload? {
      EventExtends(h, big, small, w, next, a.value, b.value);
    }
  }

  lemma NumberRelated(prog: Prog, base: Bases, calls: map<string, nat>, jumps: map<string, nat>, m: Machine, x: E.Exec,
                      o: Option<AsmOperand>)
    requires |base| == |prog| && Resolved(prog, base, calls, jumps) && Related(prog, base, m, x)
    requires RegsOk(o) && ConvertOperand(o, calls, jumps).Good? && OperandOk(ConvertOperand(o, calls, jumps).o)
    ensures Refined(NumberOf(prog, m, o), E.Get(x, ConvertOperand(o, calls, jumps).o))
  {
    hide Target, Resolved, Related;
    PcIs(prog, base, m, x);
    if NumberOf(prog, m, o).Some? { OperandRelated(prog, base, calls, jumps, m, x, o); }
  }

  /** The effect of the binary instruction is that of the assembly. */
  lemma OuterSame(env: Env, prog: Prog, base: Bases, calls: map<string, nat>, jumps: map<string, nat>,
                  m: Machine, x: E.Exec, w: E.World, i: AsmInstr, b: Instr)
    requires |base| == |prog| && Facing(env, prog, base, calls, jumps, m, x, i, b) && E.IsOuter(i.op)
    requires OuterEffect(env, prog, m, w, i).Effect?
    ensures Normal(b) == b && InstrOk(b)
    ensures E.EffectOf(env.h, x, w, b) == Onward(OuterEffect(env, prog, m, w, i), x.pc + Length(b))
  {
    hide E.OuterOn, Resolved, Related, NumberOf, E.Get, WordsOf, ConvertOperand;
    PcIs(prog, base, m, x);
    OuterOperands(env, prog, base, calls, jumps, m, x, i, b);
    NumberRelated(prog, base, calls, jumps, m, x, i.op0);
    NumberRelated(prog, base, calls, jumps, m, x, i.op1);
    NumberRelated(prog, base, calls, jumps, m, x, i.dst);
    WordsExtend(prog, base, m, x);
    OuterExtends(env.h, env.mode, env.ctx, x.memory, WordsOf(m), w, x.pc + Length(b), i.op,
                 NumberOf(prog, m, i.op0), NumberOf(prog, m, i.op1), NumberOf(prog, m, i.dst), DstOf(i),
                 E.Get(x, b.op0), E.Get(x, b.op1), E.Get(x, b.dst));
  }

  lemma OuterOperands(env: Env, prog: Prog, base: Bases, calls: map<string, nat>, jumps: map<string, nat>,
                      m: Machine, x: E.Exec, i: AsmInstr, b: Instr)
    requires |base| == |prog| && Facing(env, prog, base, calls, jumps, m, x, i, b) && E.IsOuter(i.op)
    ensures Normal(b) == b && InstrOk(b) && b.op == i.op && E.DstReg(b) == DstOf(i)
    ensures ConvertOperand(i.op0, calls, jumps) == Good(b.op0) && ConvertOperand(i.op1, calls, jumps) == Good(b.op1)
    ensures ConvertOperand(i.dst, calls, jumps) == Good(b.dst)
  {
    hide Related, Resolved;
  }

  lemma OuterSimulates(env: Env, prog: Prog, base: Bases, calls: map<string, nat>, jumps: map<string, nat>,
                       m: Machine, x: E.Exec, w: E.World, i: AsmInstr, b: Instr)
    requires |base| == |prog| && Facing(env, prog, base, calls, jumps, m, x, i, b) && E.IsOuter(i.op)
    requires StepOuter(env, prog, m, w, i).Some?
    ensures CoreDone(env, prog, base, StepOuter(env, prog, m, w, i).value, x, w, Normal(b))
  {
    hide OuterEffect, Resolved, Related, E.EffectOf, E.ApplyAll, E.Apply, ApplyWords, Assembled;
    PcIs(prog, base, m, x);
    NormalEncodable(b);
    NextAddress(prog, base, m.pc);
    OuterSame(env, prog, base, calls, jumps, m, x, w, i, b);
    var e, next, to := OuterEffect(env, prog, m, w, i), x.pc + Length(b), Ptr(m.pc.scope, m.pc.at + 1);
    var d := if |e.diffs| == 1 then E.PcTo(0) else e.diffs[1];
    Applied(env.h, x, e.w, next, d);
    JumpRelated(prog, base, m, x, to);
    if |e.diffs| == 1 {
      assert Onward(e, next).diffs == [E.PcTo(next)];
    } else {
      assert Onward(e, next).diffs == [E.PcTo(next), d];
      WordsRelated(env, prog, base, m.(pc := to), x.(pc := next), e.w, d);
    }
  }

  /** One difference on both sides. */
  lemma WordsRelated(env: Env, prog: Prog, base: Bases, m: Machine, x: E.Exec, w: E.World, d: E.Diff)
    requires |base| == |prog| && Related(prog, base, m, x) && x.ctx == env.ctx && E.DiffOk(d) && !d.PcTo?
    requires ApplyWords(env, m, w, d).Some?
    ensures var t, r := ApplyWords(env, m, w, d).value, E.Apply(env.h, x, w, d);
            r.Ok? && r.w == t.w && Related(prog, base, t.m, r.x)
  {
    hide WriteAll, WriteWords;
    if d.MemTo? {
      WritesSame(prog, base, m, x.regs, x.memory, d.cells);
      WritesKeepRegs(m, d.cells);
    }
  }

  // ---- a whole step ----

  /** The instruction itself, whatever it is. */
  lemma CoreSimulates(env: Env, prog: Prog, base: Bases, calls: map<string, nat>, jumps: map<string, nat>,
                      m: Machine, x: E.Exec, w: E.World, i: AsmInstr, b: Instr)
    requires |base| == |prog| && Facing(env, prog, base, calls, jumps, m, x, i, b)
    requires StepCore(env, prog, m, w, i).Some? && x.pc + Length(b) <= P
    ensures CoreDone(env, prog, base, StepCore(env, prog, m, w, i).value, x, w, Normal(b))
  {
    hide CoreDone, StepPlain, StepMemory, StepOuter, Resolved, Related, Convert, Assembled;
    if E.IsOuter(i.op) {
      OuterSimulates(env, prog, base, calls, jumps, m, x, w, i, b);
    } else if i.op.Call? {
      CallSimulates(env, prog, base, calls, jumps, m, x, w, i, b);
    } else if i.op.Ret? {
      RetSimulates(env, prog, base, calls, jumps, m, x, w, i, b);
    } else if i.op.Mload? {
      LoadSimulates(env, prog, base, calls, jumps, m, x, w, i, b);
    } else if i.op.Mstore? {
      StoreSimulates(env, prog, base, calls, jumps, m, x, w, i, b);
    } else if E.IsBinary(i.op) {
      BinarySimulates(env, prog, base, calls, jumps, m, x, w, i, b);
    } else if i.op.Mov? || i.op.Not? {
      MovesSimulate(env, prog, base, calls, jumps, m, x, w, i, b);
    } else if i.op.Assert? || i.op.Rc? || i.op.End? {
      ChecksSimulate(env, prog, base, calls, jumps, m, x, w, i, b);
    } else {
      JumpsSimulate(env, prog, base, calls, jumps, m, x, w, i, b);
    }
  }

  /** The prophet of an instruction does the same on both sides. */
  lemma ProphetSimulates(env: Env, prog: Prog, base: Bases, att: Attached, p: Ptr, m: Machine, x: E.Exec, i: Instr)
    requires |base| == |prog| && Related(prog, base, m, x) && Answers(env, prog, base) && InProg(prog, p)
    requires i.prophet == ProphetOf(prog, base, att, p) && Prophesied(env, att, p, m).Some?
    ensures var y := E.AfterProphet(env.h, x, i);
            y.Some? && Related(prog, base, Prophesied(env, att, p, m).value, y.value)
            && y.value.mode == x.mode && y.value.ctx == x.ctx && y.value.code == x.code
  {
    hide Answers, SameData, WriteAll, WriteWords;
    if att(p).Some? {
      Answered(env, prog, base, att(p).value, m, x.regs, x.memory);
      var values := env.ask(att(p).value, m).value;
      var words := seq(|values|, k requires 0 <= k < |values| => (m.psp as int, values[k]));
      PcIs(prog, base, m, x);
      WritesSame(prog, base, m, x.regs, x.memory, words);
      WritesKeepRegs(m, words);
      var t := WriteWords(m, words).value;
      DataOnly(prog, base, t, m.psp, x.regs, WriteAll(x.memory, words).value);
    }
  }

  lemma DataOnly(prog: Prog, base: Bases, m: Machine, start: nat, regs: seq<nat>, memory: Memory)
    requires |base| == |prog| && SameData(prog, base, m, regs, memory)
    ensures SameData(prog, base, m.(pspStart := start), regs, memory)
            && SameData(prog, base, m.(output := []), regs, memory)
  {
  }

  lemma Answered(env: Env, prog: Prog, base: Bases, c: nat, m: Machine, regs: seq<nat>, memory: Memory)
    requires |base| == |prog| && Answers(env, prog, base) && SameData(prog, base, m, regs, memory)
    ensures env.h.oracle(c, regs, memory) == env.ask(c, m)
  {
  }

  /** The next step of both machines agree. */
  ghost predicate Simulates(env: Env, prog: Prog, base: Bases, n: Next, x: E.Exec, w: E.World, i: Instr)
    requires |base| == |prog| && x.Valid() && InstrOk(i)
  {
    var r := E.RunOneStep(env.h, x, w, i);
    r.Stepped? && r.w == n.w && r.status == n.status && Related(prog, base, n.m, r.x)
  }

  /** From the instruction and its prophet to the step. */
  lemma ReportSimulates(env: Env, prog: Prog, base: Bases, calls: map<string, nat>, jumps: map<string, nat>,
                        att: Attached, m: Machine, x: E.Exec, w: E.World, i: AsmInstr, b: Instr, t: Shared, u: Machine)
    requires |base| == |prog| && Facing(env, prog, base, calls, jumps, m, x, i, b) && Answers(env, prog, base)
    requires CoreDone(env, prog, base, t, x, w, Normal(b))
    requires b.prophet == ProphetOf(prog, base, att, m.pc) && Prophesied(env, att, m.pc, t.m) == Some(u)
    requires Reported(env, prog, m, i, u, t.w).Some?
    ensures Simulates(env, prog, base, Reported(env, prog, m, i, u, t.w).value, x, w, Normal(b))
  {
    hide E.EffectOf, E.ApplyAll, E.TraceFails, E.AfterProphet, Resolved, Related, Answers, Prophesied, BatchRead,
         Assembled, Convert, NumberOf;
    PcIs(prog, base, m, x);
    NormalEncodable(b);
    SameKind(i, b, calls, jumps);
    var e := E.EffectOf(env.h, x, w, Normal(b));
    var r := E.ApplyAll(env.h, x, e.w, e.diffs);
    ProphetSimulates(env, prog, base, att, m.pc, t.m, r.x, Normal(b));
    var y := E.AfterProphet(env.h, r.x, Normal(b)).value;
    Ticks(prog, base, u, y);
    PcIs(prog, base, u, y);
    if i.op.Sccall? { CalleeSame(env, prog, base, calls, jumps, m, x, i, b); }
  }

  lemma SameKind(i: AsmInstr, b: Instr, calls: map<string, nat>, jumps: map<string, nat>)
    requires Convert(i, calls, jumps, b.prophet) == Some(b)
    ensures b.op == i.op && Normal(b).op == i.op && Normal(b).prophet == b.prophet
  {
  }

  /** The clock and the recorded output are not part of the data. */
  lemma Ticks(prog: Prog, base: Bases, m: Machine, x: E.Exec)
    requires |base| == |prog| && Related(prog, base, m, x)
    ensures Related(prog, base, m, x.(clk := x.clk + 1))
    ensures Related(prog, base, m.(output := []), x.(clk := x.clk + 1).(output := []))
  {
  }

  lemma CalleeSame(env: Env, prog: Prog, base: Bases, calls: map<string, nat>, jumps: map<string, nat>,
                   m: Machine, x: E.Exec, i: AsmInstr, b: Instr)
    requires |base| == |prog| && Facing(env, prog, base, calls, jumps, m, x, i, b) && i.op.Sccall?
    requires NumberOf(prog, m, i.op0).Some? && NumberOf(prog, m, i.op1).Some?
    requires BatchRead(WordsOf(m), NumberOf(prog, m, i.op0).value, 4).Some?
    ensures Normal(b) == b && InstrOk(b)
    ensures E.Get(x, b.op0) == NumberOf(prog, m, i.op0) && E.Get(x, b.op1) == NumberOf(prog, m, i.op1)
    ensures var a := NumberOf(prog, m, i.op0).value; BatchRead(x.memory, a, 4) == BatchRead(WordsOf(m), a, 4)
  {
    hide Resolved, Related, NumberOf, E.Get, WordsOf, ConvertOperand, BatchRead;
    PcIs(prog, base, m, x);
    OuterOperands(env, prog, base, calls, jumps, m, x, i, b);
    NumberRelated(prog, base, calls, jumps, m, x, i.op0);
    NumberRelated(prog, base, calls, jumps, m, x, i.op1);
    WordsExtend(prog, base, m, x);
    BatchExtends(x.memory, WordsOf(m), NumberOf(prog, m, i.op0).value, 4);
  }

  /** Functions end below the order of the field. */
  predicate Fits(prog: Prog, base: Bases)
    requires |base| == |prog|
  {
    forall s :: 0 <= s < |prog| ==> base[s] + AddrOf(InstrsOf(prog, s), |InstrsOf(prog, s)|) <= P
  }

  /** Whenever the label machine takes a step, the executor on the loaded code takes the same step: calls other
      contracts, ends and runs on alike, in every mode. */
  lemma StepSimulates(env: Env, prog: Prog, base: Bases, att: Attached, calls: map<string, nat>,
                      jumps: map<string, nat>, m: Machine, x: E.Exec, w: E.World)
    requires |base| == |prog| && Resolved(prog, base, calls, jumps) && Related(prog, base, m, x) && Fits(prog, base)
    requires x.mode == env.mode && x.ctx == env.ctx && Answers(env, prog, base)
    requires Loaded(prog, base, att, calls, jumps, x.code) && |m.regs| == REGS && Step(env, prog, att, m, w).Some?
    ensures x.pc in x.code
    ensures Simulates(env, prog, base, Step(env, prog, att, m, w).value, x, w, x.code[x.pc])
  {
    hide Resolved, Related, Simulates, StepCore, Convert, Assembled, Answers, Reported, Prophesied;
    PcIs(prog, base, m, x);
    assert LoadedAt(prog, base, att, calls, jumps, x.code, m.pc);
    var i := InstrsOf(prog, m.pc.scope)[m.pc.at];
    var b := Convert(i, calls, jumps, ProphetOf(prog, base, att, m.pc)).value;
    ConvertKeepsProphet(i, calls, jumps, ProphetOf(prog, base, att, m.pc));
    assert Facing(env, prog, base, calls, jumps, m, x, i, b);
    NextAddress(prog, base, m.pc);
    AddrGrows(InstrsOf(prog, m.pc.scope), m.pc.at + 1, |InstrsOf(prog, m.pc.scope)|);
    CoreSimulates(env, prog, base, calls, jumps, m, x, w, i, b);
    var t := StepCore(env, prog, m, w, i).value;
    ReportSimulates(env, prog, base, calls, jumps, att, m, x, w, i, b, t, Prophesied(env, att, m.pc, t.m).value);
  }

  lemma ConvertKeepsProphet(i: AsmInstr, calls: map<string, nat>, jumps: map<string, nat>, prophet: Option<Prophet>)
    ensures var b := Convert(i, calls, jumps, prophet); b.Some? ==> b.value.prophet == prophet
  {
  }

  lemma {:induction false} AddrGrows(instrs: seq<AsmInstr>, k: nat, n: nat)
    requires k <= n <= |instrs|
    ensures AddrOf(instrs, k) <= AddrOf(instrs, n)
  {
    if k < n { AddrGrows(instrs, k, n - 1); }
  }

  // ---- runs ----

  /** What an environment finds when it goes on after its n-th step: after a call, whatever the callee left. */
  type Back = (nat, E.World) -> E.World

  function GoesOnWith(back: Back, n: nat, w: E.World, status: E.Status): E.World {
    if status.Calling? then back(n, w) else w
  }

  /** The machine after n steps, none of them beyond an END. */
  ghost function Steps(env: Env, prog: Prog, att: Attached, back: Back, m: Machine, w: E.World,
                       n: nat): (r: Option<Next>)
    requires |m.regs| == REGS
    ensures r.Some? ==> |r.value.m.regs| == REGS
  {
    if n == 0 then Some(Next(m, w, E.Running)) else
      var r := Steps(env, prog, att, back, m, w, n - 1);
      if r.None? || r.value.status.Ended? then None else
        Step(env, prog, att, r.value.m, GoesOnWith(back, n - 1, r.value.w, r.value.status))
  }

  /** The same for the executor on its own code. */
  ghost function Runs(h: E.Host, back: Back, x: E.Exec, w: E.World, n: nat): (r: E.StepResult)
    requires x.Valid()
    ensures r.Stepped? ==> r.x.Valid() && r.x.code == x.code && r.x.mode == x.mode && r.x.ctx == x.ctx
  {
    if n == 0 then E.Stepped(x, w, E.Running) else
      var r := Runs(h, back, x, w, n - 1);
      if r.StepFail? || r.status.Ended? || r.x.pc !in r.x.code then E.StepFail(r.w) else
        var v := GoesOnWith(back, n - 1, r.w, r.status);
        KeepsCode(h, r.x, v, r.x.code[r.x.pc]);
        E.RunOneStep(h, r.x, v, r.x.code[r.x.pc])
  }

  lemma KeepsCode(h: E.Host, x: E.Exec, w: E.World, i: Instr)
    requires x.Valid() && InstrOk(i)
    ensures var r := E.RunOneStep(h, x, w, i); r.Stepped? ==> r.x.code == x.code
  {
    hide E.EffectOf;
    var e := E.EffectOf(h, x, w, i);
    if e.Effect? { AppliesKeepCode(h, x, e.w, e.diffs); }
  }

  lemma {:induction false} AppliesKeepCode(h: E.Host, x: E.Exec, w: E.World, diffs: seq<E.Diff>)
    requires x.Valid() && forall i :: 0 <= i < |diffs| ==> E.DiffOk(diffs[i])
    ensures var r := E.ApplyAll(h, x, w, diffs); r.Ok? ==> r.x.code == x.code
  {
    if diffs != [] { AppliesKeepCode(h, x, w, diffs[..|diffs| - 1]); }
  }

  /** Any number of steps of the label machine is the same number of steps of the executor. */
  lemma {:induction false} RunSimulates(env: Env, prog: Prog, base: Bases, att: Attached, calls: map<string, nat>,
                                        jumps: map<string, nat>, back: Back, m: Machine, x: E.Exec, w: E.World, n: nat)
    requires |base| == |prog| && Resolved(prog, base, calls, jumps) && Related(prog, base, m, x) && Fits(prog, base)
    requires x.mode == env.mode && x.ctx == env.ctx && Answers(env, prog, base) && |m.regs| == REGS
    requires Loaded(prog, base, att, calls, jumps, x.code) && Steps(env, prog, att, back, m, w, n).Some?
    ensures var s, r := Steps(env, prog, att, back, m, w, n).value, Runs(env.h, back, x, w, n);
            r.Stepped? && r.w == s.w && r.status == s.status && Related(prog, base, s.m, r.x)
  {
    hide Resolved, Related, Step, E.RunOneStep, Loaded, Answers, Fits;
    PcIs(prog, base, m, x);
    if n > 0 {
      RunSimulates(env, prog, base, att, calls, jumps, back, m, x, w, n - 1);
      var r, s := Runs(env.h, back, x, w, n - 1), Steps(env, prog, att, back, m, w, n - 1).value;
      StepSimulates(env, prog, base, att, calls, jumps, s.m, r.x, GoesOnWith(back, n - 1, r.w, r.status));
    }
  }

  /** The executor runs on by itself as long as nothing is called and nothing ends. */
  ghost predicate RunsOn(h: E.Host, back: Back, x: E.Exec, w: E.World, n: nat)
    requires x.Valid()
  {
    forall k :: 0 <= k < n ==> Runs(h, back, x, w, k).Stepped? && Runs(h, back, x, w, k).status.Running?
  }

  lemma {:induction false} ResumeReaches(h: E.Host, back: Back, x: E.Exec, w: E.World, k: nat)
    requires x.Valid() && RunsOn(h, back, x, w, k + 1) && x.clk + k < E.MAX_CLK
    ensures var r := Runs(h, back, x, w, k); r.x.clk == x.clk + k && E.Resume(h, x, w) == E.Resume(h, r.x, r.w)
  {
    hide E.RunOneStep;
    assert Runs(h, back, x, w, k).Stepped?;
    if k > 0 { ResumeReaches(h, back, x, w, k - 1); }
  }

  /** `resume` gives what the steps up to the first call or end give. */
  lemma ResumeIs(h: E.Host, back: Back, x: E.Exec, w: E.World, n: nat)
    requires x.Valid() && 0 < n && x.clk + n <= E.MAX_CLK && RunsOn(h, back, x, w, n)
    requires Runs(h, back, x, w, n).Stepped? && !Runs(h, back, x, w, n).status.Running?
    ensures E.Resume(h, x, w) == Runs(h, back, x, w, n)
  {
    hide E.RunOneStep;
    ResumeReaches(h, back, x, w, n - 1);
    assert Runs(h, back, x, w, n - 1).Stepped?;
  }

  // ---- prophets can always be answered ----

  function NumberAt(prog: Prog, base: Bases, v: Val): nat
    requires |base| == |prog|
  {
    match v
    case Word(x) => x
    case At(p) => if InProg(prog, p) then Address(prog, base, p) else 0
  }

  /** What the executor's prophets answer on the data of the label machine, as it is laid out. */
  function AskAt(h: E.Host, prog: Prog, base: Bases): (nat, Machine) -> Option<seq<nat>>
    requires |base| == |prog|
  {
    (c: nat, m: Machine) =>
      if |base| == |prog| then h.oracle(c, RegsAt(prog, base, m), MemoryAt(prog, base, m)) else None
  }

  function RegsAt(prog: Prog, base: Bases, m: Machine): seq<nat>
    requires |base| == |prog|
  {
    seq(|m.regs|, r requires 0 <= r < |m.regs| && |base| == |prog| => NumberAt(prog, base, m.regs[r]))
  }

  function MemoryAt(prog: Prog, base: Bases, m: Machine): Memory
    requires |base| == |prog|
  {
    Memory(map a | a in m.cells :: NumberAt(prog, base, m.cells[a]), m.psp)
  }

  /** For every host and every layout there are answers that agree. */
  lemma AskAnswers(env: Env, prog: Prog, base: Bases)
    requires |base| == |prog| && env.ask == AskAt(env.h, prog, base)
    ensures Answers(env, prog, base)
  {
    forall c: nat, m: Machine, regs: seq<nat>, memory: Memory | SameData(prog, base, m, regs, memory)
      ensures env.h.oracle(c, regs, memory) == env.ask(c, m)
    {
      assert regs == RegsAt(prog, base, m);
      assert memory.cells == MemoryAt(prog, base, m).cells;
      assert memory == MemoryAt(prog, base, m);
    }
  }
}
