/** The executor and the transaction manager as objects that update their fields, proved to follow the
    functions of the state machine. */
module ExecutorObjects {
  import opened Common
  import opened Isa
  import opened Storage
  import opened Executor
  import T = TxManager

  /** Tape, events and storage, lent to each environment in turn. */
  class Shared {
    var w: World

    constructor (w: World)
      ensures this.w == w
    {
      this.w := w;
    }
  }

  class ContractExecutor {
    const mode: Mode
    const ctx: Context
    const code: Code
    var clk: nat
    var pc: nat
    var pspStart: nat
    var regs: seq<nat>
    var memory: Memory
    var output: seq<nat>

    constructor (x: Exec)
      ensures View() == x
    {
      mode, ctx, code := x.mode, x.ctx, x.code;
      clk, pc, pspStart, regs, memory, output := x.clk, x.pc, x.pspStart, x.regs, x.memory, x.output;
    }

    function View(): Exec
      reads this
    {
      Exec(mode, ctx, clk, pc, pspStart, regs, memory, code, output)
    }

    method ApplyOne(h: Host, shared: Shared, d: Diff) returns (ok: bool)
      requires View().Valid() && DiffOk(d)
      modifies this, shared
      ensures var r := Apply(h, old(View()), old(shared.w), d);
              if ok then r == Ok(View(), shared.w) else r == Fail(shared.w)
    {
      ok := true;
      match d {
        case PcTo(to) => pc := to;
        case RegTo(r, v) => regs := regs[r := v];
        case MemTo(cells) =>
          var m := WriteAll(memory, cells);
          if m.None? { return false; }
          memory := m.value;
        case StoreTo(key, v) =>
          shared.w := shared.w.(store := AfterStore(h.treeKey, shared.w.store, h.disk, ctx.storage, key, v));
        case TapeTo(values) =>
          output := output + values;
          shared.w := shared.w.(tape := shared.w.tape + values);
      }
    }

    /** `apply_state_diff`: in order, up to the first one that fails. */
    method ApplyStateDiff(h: Host, shared: Shared, diffs: seq<Diff>) returns (ok: bool)
      requires View().Valid() && forall i :: 0 <= i < |diffs| ==> DiffOk(diffs[i])
      modifies this, shared
      ensures var r := ApplyAll(h, old(View()), old(shared.w), diffs);
              if ok then r == Ok(View(), shared.w) else r == Fail(shared.w)
    {
      hide Apply, WriteAll, AfterStore;
      ghost var x, w := View(), shared.w;
      for i := 0 to |diffs|
        invariant View().Valid() && ApplyAll(h, x, w, diffs[..i]) == Ok(View(), shared.w)
      {
        assert diffs[..i + 1][..i] == diffs[..i];
        ok := ApplyOne(h, shared, diffs[i]);
        if !ok {
          FailsLater(h, x, w, diffs, i + 1);
          return false;
        }
      }
      assert diffs[..|diffs|] == diffs;
      ok := true;
    }

    method RunStep(h: Host, shared: Shared, i: Instr) returns (status: Option<Status>)
      requires View().Valid() && InstrOk(i)
      modifies this, shared
      ensures var r := RunOneStep(h, old(View()), old(shared.w), i);
              if status.Some? then r == Stepped(View(), shared.w, status.value) else r == StepFail(shared.w)
    {
      hide EffectOf, ApplyAll, AfterProphet, BatchRead, TraceFails;
      var before := View();
      var e := EffectOf(h, before, shared.w, i);
      if e.None_? { return None; }
      shared.w := e.w;
      if TraceFails(before, i) { return None; }
      var ok := ApplyStateDiff(h, shared, e.diffs);
      if !ok { return None; }
      var y := AfterProphet(h, View(), i);
      if y.None? { return None; }
      ProphetChanges(h, View(), i);
      memory, pspStart := y.value.memory, y.value.pspStart;
      clk := clk + 1;
      if i.op.Sccall? {
        var at := Get(before, i.op0);
        var callee := BatchRead(before.memory, if at.Some? then at.value else 0, 4);
        if callee.None? { return None; }
        output := [];
        return Some(Calling(ToWord4(callee.value), Get(before, i.op1) == Some(1)));
      } else if i.op.End? {
        return Some(Ended(output));
      }
      return Some(Running);
    }

    /** `resume`: the loop that runs one environment. */
    method ResumeLoop(h: Host, shared: Shared) returns (status: Option<Status>)
      requires View().Valid()
      modifies this, shared
      ensures var r := Resume(h, old(View()), old(shared.w));
              if status.Some? then r == Stepped(View(), shared.w, status.value) else r == StepFail(shared.w)
    {
      hide RunOneStep;
      ghost var goal := Resume(h, View(), shared.w);
      while true
        invariant View().Valid() && Resume(h, View(), shared.w) == goal
        decreases if clk < MAX_CLK then MAX_CLK - clk else 0
      {
        if pc !in code { return None; }
        var i := code[pc];
        status := RunStep(h, shared, i);
        if status.None? || !status.value.Running? { return; }
        if clk >= MAX_CLK { return None; }
      }
    }
  }

  lemma {:induction false} FailsLater(h: Host, x: Exec, w: World, diffs: seq<Diff>, i: nat)
    requires x.Valid() && (forall k :: 0 <= k < |diffs| ==> DiffOk(diffs[k])) && i <= |diffs|
    requires ApplyAll(h, x, w, diffs[..i]).Fail?
    ensures ApplyAll(h, x, w, diffs) == ApplyAll(h, x, w, diffs[..i])
  {
    if i == |diffs| {
      assert diffs[..i] == diffs;
    } else {
      var n := |diffs| - 1;
      assert diffs[..n][..i] == diffs[..i];
      FailsLater(h, x, w, diffs[..n], i);
    }
  }

  lemma ProphetChanges(h: Host, x: Exec, i: Instr)
    requires x.Valid() && AfterProphet(h, x, i).Some?
    ensures var y := AfterProphet(h, x, i).value; y == x.(memory := y.memory, pspStart := y.pspStart)
  {
  }

  class TxExeManager {
    const mode: Mode
    var envStack: seq<T.Env>
    var nextEnvIdx: nat
    const shared: Shared

    constructor (mode: Mode, tape: seq<nat>, store: Store)
      ensures View() == T.State(mode, [], 0, World(tape, [], store)) && fresh(shared)
    {
      this.mode := mode;
      envStack, nextEnvIdx := [], 0;
      shared := new Shared(World(tape, [], store));
    }

    function View(): T.State
      reads this, shared
    {
      T.State(mode, envStack, nextEnvIdx, shared.w)
    }

    method PopEnv() returns (env: Option<T.Env>)
      modifies this`envStack
      ensures old(envStack) == [] ==> env.None? && envStack == []
      ensures old(envStack) != [] ==> env.Some? && old(envStack) == envStack + [env.value]
    {
      if envStack == [] { return None; }
      env := Some(envStack[|envStack| - 1]);
      envStack := envStack[..|envStack| - 1];
    }

    method EnqueueCaller(idx: nat, kind: T.Kind, x: Exec)
      modifies this`envStack
      ensures envStack == old(envStack) + [T.Env(idx, kind, x)]
    {
      envStack := envStack + [T.Env(idx, kind, x)];
    }

    method EnqueueNewEnv(kind: T.Kind, x: Exec)
      modifies this`envStack, this`nextEnvIdx
      ensures envStack == old(envStack) + [T.Env(old(nextEnvIdx), kind, x)] && nextEnvIdx == old(nextEnvIdx) + 1
    {
      envStack := envStack + [T.Env(nextEnvIdx, kind, x)];
      nextEnvIdx := nextEnvIdx + 1;
    }

    method Begin(h: Host, entry: Word4) returns (ok: bool)
      requires envStack == [] && nextEnvIdx == 0 && shared.w.events == []
      modifies this
      ensures var o := T.Start(h, mode, entry, shared.w.tape, shared.w.store);
              if ok then o == T.More(View()) else o == T.Failed(shared.w)
    {
      var code := h.program(entry);
      if code.None? { return false; }
      EnqueueNewEnv(T.Entry, T.NewEnv(mode, Context(entry, entry), code.value));
      ok := true;
    }

    /** One turn of the loop. */
    method Turn(h: Host) returns (o: T.Outcome)
      requires T.AllValid(View())
      modifies this, shared
      ensures o == T.Round(h, old(View())) && (if o.Failed? then o.w == shared.w else o.s == View())
    {
      hide Resume;
      ghost var s := View();
      var env := PopEnv();
      if env.None? { return T.Done(View()); }
      assert s.envs[|s.envs| - 1] == env.value && s.envs[..|s.envs| - 1] == envStack;
      var executor := new ContractExecutor(env.value.x);
      var status := executor.ResumeLoop(h, shared);
      if status.None? { return T.Failed(shared.w); }
      match status.value {
        case Ended(_) =>
          return T.More(View());
        case Calling(callee, delegate) =>
          var code := h.program(callee);
          if code.None? { return T.Failed(shared.w); }
          var storage := if delegate then executor.ctx.storage else callee;
          EnqueueCaller(env.value.idx, env.value.kind, executor.View());
          EnqueueNewEnv(if delegate then T.Delegated else T.Called,
                        T.NewEnv(mode, Context(storage, callee), code.value));
          assert envStack ==
                 s.envs[..|s.envs| - 1] + [T.Env(env.value.idx, env.value.kind, executor.View()), envStack[|s.envs|]];
          return T.More(View());
      }
    }

    /** `invoke`, for at most `limit` turns: every state it passes through is one of a run, and it gives up
        only when the start or a round fails. */
    method Invoke(h: Host, ghost b: T.BlockInfo, ghost tx: T.TxInfo, entry: Word4, limit: nat)
      returns (ok: bool, ghost states: seq<T.State>)
      requires T.HostOk(h) && envStack == [] && nextEnvIdx == 0 && shared.w.events == []
      requires shared.w.tape == T.InitialTape(b, tx, entry)
      modifies this, shared
      ensures ok ==> T.Run(h, mode, b, tx, entry, old(shared.w.store), states)
      ensures ok ==> states[|states| - 1] == View() && envStack == []
      ensures !ok && states == [] ==>
                T.Start(h, mode, entry, T.InitialTape(b, tx, entry), old(shared.w.store)) == T.Failed(shared.w)
      ensures !ok && states != [] ==>
                && T.Run(h, mode, b, tx, entry, old(shared.w.store), states)
                && (|states| == limit + 1 ||
                    (T.AllValid(states[|states| - 1]) && T.Round(h, states[|states| - 1]) == T.Failed(shared.w)))
    {
      hide T.Round, T.Inv, T.InitialTape;
      states := [];
      ok := Begin(h, entry);
      if !ok { return; }
      states := [View()];
      for n := 0 to limit
        invariant T.Run(h, mode, b, tx, entry, old(shared.w.store), states)
        invariant states[|states| - 1] == View() && |states| == n + 1
      {
        T.RunInv(h, mode, b, tx, entry, old(shared.w.store), states, |states| - 1);
        T.RoundInv(h, View(), tx.origin, entry);
        var o := Turn(h);
        if o.Failed? { return false, states; }
        if o.Done? {
          DoneIsEmpty(h, states[|states| - 1]);
          return true, states;
        }
        states := AddRound(h, b, tx, entry, old(shared.w.store), states, View());
      }
      ok := false;
    }
  }

  lemma DoneIsEmpty(h: Host, s: T.State)
    requires T.AllValid(s) && T.Round(h, s).Done?
    ensures T.Round(h, s) == T.Done(s) && s.envs == []
  {
  }

  lemma AddRound(h: Host, b: T.BlockInfo, tx: T.TxInfo, entry: Word4, store: Store, states: seq<T.State>, s: T.State)
    returns (more: seq<T.State>)
    requires states != [] && T.Run(h, states[0].mode, b, tx, entry, store, states)
    requires T.AllValid(states[|states| - 1]) && T.Round(h, states[|states| - 1]) == T.More(s)
    ensures more == states + [s] && T.Run(h, states[0].mode, b, tx, entry, store, more)
  {
    more := states + [s];
    forall i | 0 < i < |more| ensures T.RoundAt(h, more, i) {
      if i < |states| { assert T.RoundAt(h, states, i); }
    }
  }
}
