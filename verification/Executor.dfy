/** The contract executor: what each instruction computes, how its differences are applied, and the
    loop that runs one environment until it calls another one or ends. */
module Executor {
  import opened Common
  import opened Isa
  import opened Storage

  datatype Mode = Invoking | ViewCall | PreExecute | Debug

  datatype Context = Context(storage: Word4, code: Word4)

  type Code = map<nat, Instr>

  /** One environment. */
  datatype Exec = Exec(mode: Mode, ctx: Context, clk: nat, pc: nat, pspStart: nat, regs: seq<nat>, memory: Memory,
                       code: Code, output: seq<nat>)
  {
    predicate Valid() {
      |regs| == REGS && forall a :: a in code ==> InstrOk(code[a])
    }
  }

  datatype EventEntry = EventEntry(index: nat, address: Word4, topics: seq<seq<nat>>, data: seq<nat>)

  /** What all environments of a transaction share. */
  datatype World = World(tape: seq<nat>, events: seq<EventEntry>, store: Store)

  /** Everything outside the executor: the tree-key hash, the disk, Poseidon, signature checks, prophet
      code, bitwise operators, programs by address, and where events are filed. */
  datatype Host = Host(
    treeKey: TreeKey, disk: Kv, hash: seq<nat> -> Word4, sig: seq<nat> -> Option<bool>,
    oracle: (nat, seq<nat>, Memory) -> Option<seq<nat>>, bits: (Opcode, nat, nat) -> nat,
    program: Word4 -> Option<Code>, prevEvents: nat, eventAddress: Word4)

  datatype Status = Running | Calling(callee: Word4, delegate: bool) | Ended(output: seq<nat>)

  function Words(w: Word4): (r: seq<nat>)
    ensures |r| == 4
  {
    [w.0, w.1, w.2, w.3]
  }

  function ToWord4(s: seq<nat>): (r: Word4)
    requires |s| == 4
    ensures Words(r) == s
  {
    (s[0], s[1], s[2], s[3])
  }

  // ---- operands ----

  function OperandValue(x: Exec, o: Operand): Option<nat>
    requires x.Valid() && OperandOk(Some(o))
  {
    match o
    case Imm(v) => Some(v)
    case Reg(r) => Some(x.regs[r])
    case RegOffset(r, offset) => Some((x.regs[r] + offset) % P)
    case RegFactor(r, factor) => Some((x.regs[r] * factor) % P)
    case Psp => Some(x.pspStart)
    case Pc => None
  }

  function Get(x: Exec, o: Option<Operand>): Option<nat>
    requires x.Valid() && OperandOk(o)
  {
    if o.None? then None else OperandValue(x, o.value)
  }

  function DstReg(i: Instr): Option<nat> {
    if i.dst.Some? && i.dst.value.Reg? then Some(i.dst.value.r) else None
  }

  // ---- differences ----

  datatype Diff =
    | PcTo(pc: nat) | RegTo(r: nat, v: nat) | MemTo(cells: seq<(int, nat)>) | StoreTo(key: Word4, value: Word4)
    | TapeTo(values: seq<nat>)

  predicate DiffOk(d: Diff) { d.RegTo? ==> d.r < REGS }

  /** A failure leaves the shared state as far as it has been changed. */
  datatype Result = Fail(w: World) | Ok(x: Exec, w: World)

  function Apply(h: Host, x: Exec, w: World, d: Diff): (r: Result)
    requires x.Valid() && DiffOk(d)
    ensures r.Ok? ==> r.x.Valid() && r.x.mode == x.mode && r.x.ctx == x.ctx && r.x.clk == x.clk
    ensures r.Ok? ==> r.w.events == w.events && w.tape <= r.w.tape
  {
    match d
    case PcTo(pc) => Ok(x.(pc := pc), w)
    case RegTo(r, v) => Ok(x.(regs := x.regs[r := v]), w)
    case MemTo(cells) =>
      var m := WriteAll(x.memory, cells);
      if m.None? then Fail(w) else Ok(x.(memory := m.value), w)
    case StoreTo(key, v) =>
      Ok(x, w.(store := AfterStore(h.treeKey, w.store, h.disk, x.ctx.storage, key, v)))
    case TapeTo(values) => Ok(x.(output := x.output + values), w.(tape := w.tape + values))
  }

  function ApplyAll(h: Host, x: Exec, w: World, diffs: seq<Diff>): (r: Result)
    requires x.Valid() && forall i :: 0 <= i < |diffs| ==> DiffOk(diffs[i])
    ensures r.Ok? ==> r.x.Valid() && r.x.mode == x.mode && r.x.ctx == x.ctx && r.x.clk == x.clk
    ensures r.Ok? ==> r.w.events == w.events && w.tape <= r.w.tape
  {
    if diffs == [] then Ok(x, w) else
      var n := |diffs| - 1;
      var below := ApplyAll(h, x, w, diffs[..n]);
      if below.Fail? then below else Apply(h, below.x, below.w, diffs[n])
  }

  // ---- instructions ----

  /** The differences of an instruction, with the side effects loading and logging have already had. */
  datatype Effect = None_ | Effect(diffs: seq<Diff>, w: World)

  predicate EffectOk(e: Effect) { e.Effect? ==> forall i :: 0 <= i < |e.diffs| ==> DiffOk(e.diffs[i]) }

  function Cells(from: nat, values: seq<nat>): (r: seq<(int, nat)>) {
    seq(|values|, i requires 0 <= i < |values| => (from + i, values[i]))
  }

  predicate IsBinary(op: Opcode) {
    op.Add? || op.Mul? || op.Eq? || op.And? || op.Or? || op.Xor? || op.Neq? || op.Gte?
  }

  function BinaryResult(h: Host, op: Opcode, a: nat, b: nat): Option<nat>
    requires IsBinary(op)
  {
    if (op.And? || op.Or? || op.Xor? || op.Gte?) && (a >= U32_MAX || b >= U32_MAX) then None
    else if op.Add? then Some((a + b) % P)
    else if op.Mul? then Some((a * b) % P)
    else if op.Eq? then Some(if a == b then 1 else 0)
    else if op.Neq? then Some(if a != b then 1 else 0)
    else if op.Gte? then Some(if a >= b then 1 else 0)
    else Some(h.bits(op, a, b))
  }

  /** Arithmetic, moves and control flow: registers and program counter only. */
  function Plain(h: Host, x: Exec, w: World, i: Instr): Effect
    requires x.Valid() && InstrOk(i)
  {
    var next := x.pc + Length(i);
    var a, b, dst := Get(x, i.op0), Get(x, i.op1), DstReg(i);
    if IsBinary(i.op) then
      if a.None? || b.None? || dst.None? then None_ else
        var v := BinaryResult(h, i.op, a.value, b.value);
        if v.None? then None_ else Effect([PcTo(next), RegTo(dst.value, v.value)], w)
    else if i.op.Assert? then
      if i.op1.Some? && i.op1.value.Reg? && b == Some(1) then Effect([PcTo(next)], w) else None_
    else if i.op.Mov? then
      if b.None? || dst.None? then None_ else Effect([PcTo(next), RegTo(dst.value, b.value)], w)
    else if i.op.Not? then
      if b.None? || dst.None? then None_ else Effect([PcTo(next), RegTo(dst.value, (P - 1 - b.value) % P)], w)
    else if i.op.Rc? then
      if b.None? || b.value > U32_MAX then None_ else Effect([PcTo(next)], w)
    else if i.op.Jmp? then
      if i.op0.Some? || b.None? then None_ else Effect([PcTo(b.value)], w)
    else if i.op.Cjmp? then
      if a.None? || a.value > 1 || b.None? then None_
      else Effect([PcTo(if a.value == 1 then b.value else next)], w)
    else Effect([PcTo(next)], w)
  }

  /** Calls and memory access. */
  function Memorial(h: Host, x: Exec, w: World, i: Instr): Effect
    requires x.Valid() && InstrOk(i)
  {
    var next := x.pc + Length(i);
    var a, b, dst := Get(x, i.op0), Get(x, i.op1), DstReg(i);
    var fp: int := x.regs[FP];
    if i.op.Call? then
      if b.None? then None_ else Effect([PcTo(b.value), MemTo([(fp - 1, next)])], w)
    else if i.op.Ret? then
      var pc, saved := ReadMem(x.memory, fp - 1), ReadMem(x.memory, fp - 2);
      if pc.None? || saved.None? then None_ else Effect([PcTo(pc.value), RegTo(FP, saved.value)], w)
    else if a.None? || b.None? || dst.None? then None_
    else
      var addr := (a.value + b.value) % P;
      if i.op.Mload? then
        var v := ReadMem(x.memory, addr);
        if v.None? then None_ else Effect([PcTo(next), RegTo(dst.value, v.value)], w)
      else Effect([PcTo(next), MemTo([(addr, x.regs[dst.value])])], w)
  }

  /** Hashing, signatures, storage, tape, calls to other contracts and events, given the values of the
      operands. */
  function OuterOn(h: Host, mode: Mode, ctx: Context, memory: Memory, w: World, next: nat, op: Opcode,
                   a: Option<nat>, b: Option<nat>, to: Option<nat>, dst: Option<nat>): (e: Effect)
    ensures e.Effect? ==> 1 <= |e.diffs| <= 2 && e.diffs[0] == PcTo(next)
    ensures e.Effect? && |e.diffs| == 2 ==> !e.diffs[1].PcTo? && (e.diffs[1].RegTo? ==> dst == Some(e.diffs[1].r))
  {
    if op.Sigcheck? then
      if b.None? || dst.None? then None_ else
        var params := BatchRead(memory, b.value, 20);
        if params.None? || h.sig(params.value).None? then None_
        else Effect([PcTo(next), RegTo(dst.value, if h.sig(params.value).value then 1 else 0)], w)
    else if a.None? || b.None? then None_
    else if op.Poseidon? then
      var input := BatchRead(memory, a.value, b.value);
      if to.None? || input.None? then None_
      else Effect([PcTo(next), MemTo(Cells(to.value, Words(h.hash(input.value))))], w)
    else if op.Sload? then
      var key := BatchRead(memory, a.value, 4);
      if key.None? then None_ else LoadEffect(h, ctx, w, next, ToWord4(key.value), b.value)
    else if op.Sstore? then
      if mode.ViewCall? then None_ else
        var key, v := BatchRead(memory, a.value, 4), BatchRead(memory, b.value, 4);
        if key.None? || v.None? then None_
        else StoreEffect(h, ctx, w, next, ToWord4(key.value), ToWord4(v.value))
    else if op.Tload? then
      if to.None? || a.value > 1 then None_ else
        var values := if a.value == 1 then TapeStack(w.tape, b.value) else TapeTop(w.tape, b.value);
        if values.None? then None_ else Effect([PcTo(next), MemTo(Cells(to.value, values.value))], w)
    else if op.Tstore? then
      var values := BatchRead(memory, a.value, b.value);
      if values.None? then None_ else Effect([PcTo(next), TapeTo(values.value)], w)
    else if op.Sccall? then
      var callee := BatchRead(memory, a.value, 4);
      if callee.None? then None_
      else Effect([PcTo(next), TapeTo(CallWords(ctx, ToWord4(callee.value), b.value == 1))], w)
    else if mode.ViewCall? then None_
    else EventEffect(h, memory, w, next, a.value, b.value)
  }

  function Outer(h: Host, x: Exec, w: World, i: Instr): Effect
    requires x.Valid() && InstrOk(i)
  {
    OuterOn(h, x.mode, x.ctx, x.memory, w, x.pc + Length(i), i.op, Get(x, i.op0), Get(x, i.op1), Get(x, i.dst),
            DstReg(i))
  }

  function LoadEffect(h: Host, ctx: Context, w: World, next: nat, key: Word4, to: nat): Effect {
    var v := Lookup(Visible(w.store, h.disk), h.treeKey(ctx.storage, key));
    var value := if v.Some? then Words(v.value) else [0, 0, 0, 0];
    Effect([PcTo(next), MemTo(Cells(to, value))],
           w.(store := AfterLoad(h.treeKey, w.store, h.disk, ctx.storage, key)))
  }

  /** The previous value is read, which may fill the cache, before the write is applied. */
  function StoreEffect(h: Host, ctx: Context, w: World, next: nat, key: Word4, v: Word4): Effect {
    Effect([PcTo(next), StoreTo(key, v)],
           w.(store := Filled(w.store, h.disk, h.treeKey(ctx.storage, key))))
  }

  /** Caller storage address, callee code address and callee storage address. */
  function CallWords(ctx: Context, callee: Word4, delegate: bool): (r: seq<nat>)
    ensures |r| == 12
  {
    Words(ctx.storage) + Words(callee) + Words(if delegate then ctx.storage else callee)
  }

  function EventEffect(h: Host, memory: Memory, w: World, next: nat, topicsAt: nat, dataAt: nat): Effect {
    var n, len := ReadMem(memory, topicsAt), ReadMem(memory, dataAt);
    if n.None? then None_ else
      var addrs := BatchRead(memory, topicsAt + 1, n.value);
      if addrs.None? then None_ else
        var topics := Topics(memory, addrs.value);
        if topics.None? || len.None? then None_ else
          var data := BatchRead(memory, dataAt + 1, len.value);
          if data.None? then None_ else
            var entry := EventEntry(|w.events| + h.prevEvents, h.eventAddress, topics.value, data.value);
            Effect([PcTo(next)], w.(events := w.events + [entry]))
  }

  function Topics(m: Memory, addrs: seq<nat>): Option<seq<seq<nat>>> {
    if addrs == [] then Some([]) else
      var below := Topics(m, addrs[..|addrs| - 1]);
      var topic := BatchRead(m, addrs[|addrs| - 1], 4);
      if below.None? || topic.None? then None else Some(below.value + [topic.value])
  }

  predicate IsMemorial(op: Opcode) { op.Call? || op.Ret? || op.Mload? || op.Mstore? }

  predicate IsOuter(op: Opcode) {
    op.Sigcheck? || op.Poseidon? || op.Sload? || op.Sstore? || op.Tload? || op.Tstore? || op.Sccall? || op.Event?
  }

  function EffectOf(h: Host, x: Exec, w: World, i: Instr): (e: Effect)
    requires x.Valid() && InstrOk(i)
    ensures EffectOk(e)
  {
    if IsMemorial(i.op) then Memorial(h, x, w, i) else if IsOuter(i.op) then Outer(h, x, w, i) else Plain(h, x, w, i)
  }

  // ---- one step ----

  predicate Traces(mode: Mode) { mode.Invoking? || mode.Debug? }

  /** Building the trace entry can fail on its own: the instruction has to encode, and a call reads the
      saved frame pointer. */
  predicate TraceFails(x: Exec, i: Instr)
    requires x.Valid()
  {
    var fp: int := x.regs[FP];
    Traces(x.mode) && (!Encodable(i) || (i.op.Call? && ReadMem(x.memory, fp - 2).None?))
  }

  /** The values an attached prophet writes, and the region they start at. */
  function AfterProphet(h: Host, x: Exec, i: Instr): Option<Exec>
    requires x.Valid()
  {
    if i.prophet.None? then Some(x) else
      var values := h.oracle(i.prophet.value.code, x.regs, x.memory);
      if values.None? then None else
        var at := x.memory.psp;
        var m := WriteAll(x.memory,
                          seq(|values.value|, k requires 0 <= k < |values.value| => (at as int, values.value[k])));
        if m.None? then None else Some(x.(memory := m.value, pspStart := at))
  }

  function ProcessStep(h: Host, x: Exec, w: World, i: Instr): (r: Result)
    requires x.Valid() && InstrOk(i)
    ensures r.Ok? ==> r.x.Valid() && r.x.mode == x.mode && r.x.ctx == x.ctx && r.x.clk == x.clk
    ensures r.Ok? ==> w.tape <= r.w.tape
  {
    var e := EffectOf(h, x, w, i);
    if e.None_? then Fail(w) else if TraceFails(x, i) then Fail(e.w) else
      EffectKeepsTape(h, x, w, i);
      var r := ApplyAll(h, x, e.w, e.diffs);
      if r.Fail? then r else
        var y := AfterProphet(h, r.x, i);
        if y.None? then Fail(r.w) else Ok(y.value, r.w)
  }

  lemma EffectKeepsTape(h: Host, x: Exec, w: World, i: Instr)
    requires x.Valid() && InstrOk(i)
    ensures var e := EffectOf(h, x, w, i); e.Effect? ==> e.w.tape == w.tape
  {
  }

  datatype StepResult = StepFail(w: World) | Stepped(x: Exec, w: World, status: Status)

  /** `run_one_step`: after a call to another contract the recorded output starts afresh. */
  function RunOneStep(h: Host, x: Exec, w: World, i: Instr): (r: StepResult)
    requires x.Valid() && InstrOk(i)
    ensures r.Stepped? ==> r.x.Valid() && r.x.mode == x.mode && r.x.ctx == x.ctx && r.x.clk == x.clk + 1
    ensures r.Stepped? ==> w.tape <= r.w.tape
  {
    var r := ProcessStep(h, x, w, i);
    if r.Fail? then StepFail(r.w) else
      var y := r.x.(clk := r.x.clk + 1);
      if i.op.Sccall? then
        var callee := BatchRead(x.memory, if Get(x, i.op0).Some? then Get(x, i.op0).value else 0, 4);
        if callee.None? then StepFail(r.w)
        else Stepped(y.(output := []), r.w, Calling(ToWord4(callee.value), Get(x, i.op1) == Some(1)))
      else if i.op.End? then Stepped(y, r.w, Ended(y.output))
      else Stepped(y, r.w, Running)
  }

  const MAX_CLK: nat := 1000000000000

  /** `resume`: runs until the environment calls, ends or fails. The clock bounds the number of steps. */
  function Resume(h: Host, x: Exec, w: World): (r: StepResult)
    requires x.Valid()
    ensures r.Stepped? ==>
              r.x.Valid() && r.x.mode == x.mode && r.x.ctx == x.ctx && r.x.clk > x.clk && !r.status.Running?
    ensures r.Stepped? ==> w.tape <= r.w.tape
    decreases if x.clk < MAX_CLK then MAX_CLK - x.clk else 0
  {
    if x.pc !in x.code then StepFail(w) else
      var r := RunOneStep(h, x, w, x.code[x.pc]);
      if r.StepFail? then r
      else if !r.status.Running? then r
      else if r.x.clk >= MAX_CLK then StepFail(r.w)
      else Resume(h, r.x, r.w)
  }

  // ---- modes ----

  function InMode(x: Exec, m: Mode): Exec { x.(mode := m) }

  lemma {:induction false} ApplyInMode(h: Host, x: Exec, w: World, diffs: seq<Diff>, m: Mode)
    requires x.Valid() && forall i :: 0 <= i < |diffs| ==> DiffOk(diffs[i])
    ensures var r, s := ApplyAll(h, x, w, diffs), ApplyAll(h, InMode(x, m), w, diffs);
            if r.Ok? then s == Ok(InMode(r.x, m), r.w) else s == r
  {
    if diffs != [] { ApplyInMode(h, x, w, diffs[..|diffs| - 1], m); }
  }

  lemma GetInMode(x: Exec, o: Option<Operand>, m: Mode)
    requires x.Valid() && OperandOk(o)
    ensures Get(InMode(x, m), o) == Get(x, o)
  {
  }

  lemma PlainInMode(h: Host, x: Exec, w: World, i: Instr, m: Mode)
    requires x.Valid() && InstrOk(i)
    ensures Plain(h, InMode(x, m), w, i) == Plain(h, x, w, i)
    ensures Memorial(h, InMode(x, m), w, i) == Memorial(h, x, w, i)
  {
    hide Get, BinaryResult, Length;
    GetInMode(x, i.op0, m);
    GetInMode(x, i.op1, m);
  }

  lemma OuterInMode(h: Host, x: Exec, w: World, i: Instr, m: Mode)
    requires x.Valid() && InstrOk(i) && !x.mode.ViewCall? && !m.ViewCall?
    ensures Outer(h, InMode(x, m), w, i) == Outer(h, x, w, i)
  {
    hide Get, BatchRead, Length, Cells, CallWords, LoadEffect, StoreEffect, EventEffect;
    GetInMode(x, i.op0, m);
    GetInMode(x, i.op1, m);
    GetInMode(x, i.dst, m);
  }

  /** What an instruction computes depends on the mode only where a view call forbids it. */
  lemma EffectInMode(h: Host, x: Exec, w: World, i: Instr, m: Mode)
    requires x.Valid() && InstrOk(i) && !x.mode.ViewCall? && !m.ViewCall?
    ensures EffectOf(h, InMode(x, m), w, i) == EffectOf(h, x, w, i)
  {
    hide Plain, Memorial, Outer;
    PlainInMode(h, x, w, i, m);
    OuterInMode(h, x, w, i, m);
  }

  /** A step that succeeds with tracing succeeds without it, with the same outcome. */
  lemma ProphetInMode(h: Host, x: Exec, i: Instr, m: Mode)
    requires x.Valid()
    ensures var r := AfterProphet(h, x, i);
            AfterProphet(h, InMode(x, m), i) == if r.Some? then Some(InMode(r.value, m)) else None
  {
    hide WriteAll;
  }

  lemma StepWithoutTrace(h: Host, x: Exec, w: World, i: Instr)
    requires x.Valid() && InstrOk(i) && Traces(x.mode) && RunOneStep(h, x, w, i).Stepped?
    ensures var r := RunOneStep(h, x, w, i);
            RunOneStep(h, InMode(x, PreExecute), w, i) == Stepped(InMode(r.x, PreExecute), r.w, r.status)
  {
    hide EffectOf, ApplyAll, AfterProphet, Get, BatchRead, Encodable;
    EffectInMode(h, x, w, i, PreExecute);
    GetInMode(x, i.op0, PreExecute);
    GetInMode(x, i.op1, PreExecute);
    var e := EffectOf(h, x, w, i);
    ApplyInMode(h, x, e.w, e.diffs, PreExecute);
    ProphetInMode(h, ApplyAll(h, x, e.w, e.diffs).x, i, PreExecute);
  }

  lemma {:induction false} ResumeWithoutTrace(h: Host, x: Exec, w: World)
    requires x.Valid() && Traces(x.mode) && Resume(h, x, w).Stepped?
    ensures var r := Resume(h, x, w);
            Resume(h, InMode(x, PreExecute), w) == Stepped(InMode(r.x, PreExecute), r.w, r.status)
    decreases if x.clk < MAX_CLK then MAX_CLK - x.clk else 0
  {
    hide RunOneStep;
    StepWithoutTrace(h, x, w, x.code[x.pc]);
    var r := RunOneStep(h, x, w, x.code[x.pc]);
    if r.status.Running? {
      ResumeWithoutTrace(h, r.x, r.w);
    }
  }

  /** The part of the world that a view call must leave alone. */
  predicate SameView(h: Host, w: World, v: World) {
    v.events == w.events && Visible(v.store, h.disk) == Visible(w.store, h.disk)
  }

  predicate StoresNothing(diffs: seq<Diff>) { forall i :: 0 <= i < |diffs| ==> !diffs[i].StoreTo? }

  lemma {:induction false} ApplyKeepsView(h: Host, x: Exec, w: World, diffs: seq<Diff>)
    requires x.Valid() && (forall i :: 0 <= i < |diffs| ==> DiffOk(diffs[i])) && StoresNothing(diffs)
    ensures var r := ApplyAll(h, x, w, diffs); r.w.store == w.store && r.w.events == w.events
  {
    if diffs != [] {
      ApplyKeepsView(h, x, w, diffs[..|diffs| - 1]);
    }
  }

  lemma LoadView(h: Host, ctx: Context, w: World, next: nat, key: Word4, to: nat)
    ensures var e := LoadEffect(h, ctx, w, next, key, to); e.Effect? && StoresNothing(e.diffs) && SameView(h, w, e.w)
  {
    hide Cells;
    LoadKeepsView(h.treeKey, w.store, h.disk, ctx.storage, key);
  }

  lemma OuterView(h: Host, x: Exec, w: World, i: Instr)
    requires x.Valid() && InstrOk(i) && x.mode.ViewCall? && IsOuter(i.op)
    ensures var e := Outer(h, x, w, i); e.Effect? ==> StoresNothing(e.diffs) && SameView(h, w, e.w)
  {
    hide Visible, Get, BatchRead, Length, Cells, LoadEffect, StoreEffect, EventEffect, CallWords;
    var a, b := Get(x, i.op0), Get(x, i.op1);
    if i.op.Sload? && a.Some? && b.Some? {
      var key := BatchRead(x.memory, a.value, 4);
      if key.Some? { LoadView(h, x.ctx, w, x.pc + Length(i), ToWord4(key.value), b.value); }
    }
  }

  lemma ViewEffect(h: Host, x: Exec, w: World, i: Instr)
    requires x.Valid() && InstrOk(i) && x.mode.ViewCall?
    ensures var e := EffectOf(h, x, w, i); e.Effect? ==> StoresNothing(e.diffs) && SameView(h, w, e.w)
  {
    hide Visible, Get, Length, BinaryResult, Outer;
    if IsOuter(i.op) { OuterView(h, x, w, i); }
  }

  /** Whether the step succeeds or fails. */
  lemma ViewStep(h: Host, x: Exec, w: World, i: Instr)
    requires x.Valid() && InstrOk(i) && x.mode.ViewCall?
    ensures SameView(h, w, RunOneStep(h, x, w, i).w)
  {
    hide EffectOf, ApplyAll;
    ViewEffect(h, x, w, i);
    var e := EffectOf(h, x, w, i);
    if e.Effect? { ApplyKeepsView(h, x, e.w, e.diffs); }
  }

  lemma {:induction false} ViewResume(h: Host, x: Exec, w: World)
    requires x.Valid() && x.mode.ViewCall?
    ensures SameView(h, w, Resume(h, x, w).w)
    decreases if x.clk < MAX_CLK then MAX_CLK - x.clk else 0
  {
    hide RunOneStep;
    if x.pc in x.code {
      ViewStep(h, x, w, x.code[x.pc]);
      var r := RunOneStep(h, x, w, x.code[x.pc]);
      if r.Stepped? && r.status.Running? && r.x.clk < MAX_CLK {
        ViewResume(h, r.x, r.w);
      }
    }
  }

  // ---- what a call leaves on the tape ----

  /** A step that calls another contract has just put the twelve words of the call on the tape. */
  lemma CallStep(h: Host, x: Exec, w: World, i: Instr)
    requires x.Valid() && InstrOk(i)
    ensures var r := RunOneStep(h, x, w, i);
            r.Stepped? && r.status.Calling? ==>
              r.w.tape == w.tape + CallWords(x.ctx, r.status.callee, r.status.delegate)
  {
    var r := RunOneStep(h, x, w, i);
    if r.Stepped? && r.status.Calling? {
      var e := EffectOf(h, x, w, i);
      var words := CallWords(x.ctx, r.status.callee, r.status.delegate);
      assert e.diffs == [PcTo(x.pc + Length(i)), TapeTo(words)] && e.w == w;
      TwoDiffs(h, x, w, e.diffs[0], e.diffs[1]);
    }
  }

  /** Differences are applied in order, and the first failure stops. */
  lemma {:induction false} ApplyConcat(h: Host, x: Exec, w: World, a: seq<Diff>, b: seq<Diff>)
    requires x.Valid() && (forall i :: 0 <= i < |a| ==> DiffOk(a[i])) && (forall i :: 0 <= i < |b| ==> DiffOk(b[i]))
    ensures ApplyAll(h, x, w, a + b) == var r := ApplyAll(h, x, w, a); if r.Fail? then r else ApplyAll(h, r.x, r.w, b)
  {
    hide Apply;
    if b == [] {
      assert a + b == a;
    } else {
      ApplyConcat(h, x, w, a, b[..|b| - 1]);
      assert (a + b)[..|a + b| - 1] == a + b[..|b| - 1];
    }
  }

  lemma TwoDiffs(h: Host, x: Exec, w: World, d: Diff, e: Diff)
    requires x.Valid() && DiffOk(d) && DiffOk(e)
    ensures ApplyAll(h, x, w, [d, e]) ==
            var r := Apply(h, x, w, d); if r.Fail? then r else Apply(h, r.x, r.w, e)
  {
    assert [d, e][..1] == [d] && [d][..0] == [];
    assert ApplyAll(h, x, w, []) == Ok(x, w);
    assert ApplyAll(h, x, w, [d]) == Apply(h, x, w, d);
  }

  predicate EndsWith(tape: seq<nat>, words: seq<nat>) {
    |words| <= |tape| && tape[|tape| - |words|..] == words
  }

  lemma {:induction false} CallResume(h: Host, x: Exec, w: World)
    requires x.Valid()
    ensures var r := Resume(h, x, w);
            r.Stepped? && r.status.Calling? ==> EndsWith(r.w.tape, CallWords(x.ctx, r.status.callee, r.status.delegate))
    decreases if x.clk < MAX_CLK then MAX_CLK - x.clk else 0
  {
    hide RunOneStep, CallWords;
    if x.pc in x.code {
      CallStep(h, x, w, x.code[x.pc]);
      var r := RunOneStep(h, x, w, x.code[x.pc]);
      if r.Stepped? && r.status.Running? && r.x.clk < MAX_CLK {
        CallResume(h, r.x, r.w);
      }
    }
  }
}
