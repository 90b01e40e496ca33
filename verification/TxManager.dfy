/** The transaction manager: a stack of environments that share one tape, and the rounds in which the
    topmost environment runs until it calls, ends or fails. */
module TxManager {
  import opened Common
  import opened Isa
  import opened Storage
  import opened Executor

  /** How an environment came to be. The source does not store this; it follows from who pushed it. */
  datatype Kind = Entry | Called | Delegated

  datatype Env = Env(idx: nat, kind: Kind, x: Exec)

  datatype State = State(mode: Mode, envs: seq<Env>, next: nat, w: World)

  datatype BlockInfo = BlockInfo(number: nat, timestamp: nat, sequencer: Word4, chainId: nat)

  datatype TxInfo = TxInfo(version: nat, origin: Word4, calldata: seq<nat>, nonce: Option<nat>,
                           sigR: Option<Word4>, sigS: Option<Word4>, txHash: Option<Word4>)

  function OrZero(w: Option<Word4>): seq<nat> { if w.Some? then Words(w.value) else [0, 0, 0, 0] }

  /** `init_tape`: block, transaction, call data, and then who calls the entry contract. */
  function InitialTape(b: BlockInfo, tx: TxInfo, entry: Word4): seq<nat> {
    [b.number, b.timestamp] + Words(b.sequencer) + [tx.version, b.chainId] + Words(tx.origin)
    + [if tx.nonce.Some? then tx.nonce.value else 0] + OrZero(tx.sigR) + OrZero(tx.sigS) + OrZero(tx.txHash)
    + tx.calldata + Words(tx.origin) + Words(entry) + Words(entry)
  }

  predicate CodeOk(code: Code) { code != map[] && forall a :: a in code ==> InstrOk(code[a]) }

  /** The programs a host hands out are decoded instructions. */
  ghost predicate HostOk(h: Host) { forall a :: h.program(a).Some? ==> CodeOk(h.program(a).value) }

  function NewEnv(mode: Mode, ctx: Context, code: Code): Exec {
    Exec(mode, ctx, 0, 0, PROPHETS, seq(REGS, _ => 0), FRESH, code, [])
  }

  datatype Outcome = Failed(w: World) | Done(s: State) | More(s: State)

  function Start(h: Host, mode: Mode, entry: Word4, tape: seq<nat>, store: Store): Outcome {
    var code := h.program(entry);
    if code.None? then Failed(World(tape, [], store))
    else More(State(mode, [Env(0, Entry, NewEnv(mode, Context(entry, entry), code.value))], 1, World(tape, [], store)))
  }

  /** The caller goes back on the stack, and the callee above it. */
  function PushCall(h: Host, s: State, idx: nat, kind: Kind, x: Exec, w: World, callee: Word4, delegate: bool): Outcome
    requires s.envs != []
  {
    var code := h.program(callee);
    if code.None? then Failed(w) else
      var ctx := Context(if delegate then x.ctx.storage else callee, callee);
      var fresh_ := Env(s.next, if delegate then Delegated else Called, NewEnv(s.mode, ctx, code.value));
      More(State(s.mode, s.envs[..|s.envs| - 1] + [Env(idx, kind, x), fresh_], s.next + 1, w))
  }

  predicate AllValid(s: State) { forall i :: 0 <= i < |s.envs| ==> s.envs[i].x.Valid() }

  /** One turn of the loop in `invoke`. */
  function Round(h: Host, s: State): Outcome
    requires AllValid(s)
  {
    if s.envs == [] then Done(s) else
      var top := s.envs[|s.envs| - 1];
      var r := Resume(h, top.x, s.w);
      if r.StepFail? then Failed(r.w)
      else if r.status.Ended? then More(State(s.mode, s.envs[..|s.envs| - 1], s.next, r.w))
      else PushCall(h, s, top.idx, top.kind, r.x, r.w, r.status.callee, r.status.delegate)
  }

  // ---- the invariant ----

  function Origin(s: State, origin: Word4, i: nat): Word4
    requires i < |s.envs|
  {
    if i == 0 then origin else s.envs[i - 1].x.ctx.storage
  }

  /** How the storage address of an environment follows from how it was called. */
  predicate ContextOk(s: State, entry: Word4, i: nat)
    requires i < |s.envs|
  {
    var ctx := s.envs[i].x.ctx;
    match s.envs[i].kind
    case Entry => i == 0 && ctx == Context(entry, entry)
    case Called => i > 0 && ctx.storage == ctx.code
    case Delegated => i > 0 && ctx.storage == s.envs[i - 1].x.ctx.storage
  }

  /** Who calls, whose code runs, and on whose storage. */
  function Header(s: State, origin: Word4, i: nat): seq<nat>
    requires i < |s.envs|
  {
    Words(Origin(s, origin, i)) + Words(s.envs[i].x.ctx.code) + Words(s.envs[i].x.ctx.storage)
  }

  predicate Increasing(s: State, i: nat)
    requires 0 < i < |s.envs|
  {
    s.envs[i - 1].idx < s.envs[i].idx
  }

  predicate EnvOk(s: State, entry: Word4, i: nat)
    requires i < |s.envs|
  {
    && s.envs[i].x.Valid() && s.envs[i].x.mode == s.mode && s.envs[i].idx < s.next && ContextOk(s, entry, i)
    && (i + 1 < |s.envs| ==> s.envs[i].x.clk > 0)
  }

  /** Indices increase along the stack and stay below the next one, every environment has the storage
      address it should have, and an environment that has not stepped yet finds its header on top of
      the tape. */
  predicate Inv(s: State, origin: Word4, entry: Word4) {
    && (forall i :: 0 <= i < |s.envs| ==> EnvOk(s, entry, i))
    && (forall i :: 0 < i < |s.envs| ==> Increasing(s, i))
    && (s.envs != [] && s.envs[|s.envs| - 1].x.clk == 0 ==> EndsWith(s.w.tape, Header(s, origin, |s.envs| - 1)))
  }

  lemma StartInv(h: Host, mode: Mode, b: BlockInfo, tx: TxInfo, entry: Word4, store: Store)
    requires HostOk(h)
    ensures var r := Start(h, mode, entry, InitialTape(b, tx, entry), store); r.More? ==> Inv(r.s, tx.origin, entry)
  {
    var code := h.program(entry);
    if code.Some? {
      var tape := InitialTape(b, tx, entry);
      var header := Words(tx.origin) + Words(entry) + Words(entry);
      var front := [b.number, b.timestamp] + Words(b.sequencer) + [tx.version, b.chainId] + Words(tx.origin)
        + [if tx.nonce.Some? then tx.nonce.value else 0] + OrZero(tx.sigR) + OrZero(tx.sigS) + OrZero(tx.txHash)
        + tx.calldata;
      assert tape == front + header;
      NewValid(mode, Context(entry, entry), code.value);
    }
  }

  lemma NewValid(mode: Mode, ctx: Context, code: Code)
    requires CodeOk(code)
    ensures var x := NewEnv(mode, ctx, code); x.Valid() && x.mode == mode && x.ctx == ctx && x.clk == 0
  {
  }

  lemma EndedInv(h: Host, s: State, origin: Word4, entry: Word4, w: World)
    requires Inv(s, origin, entry) && s.envs != []
    ensures Inv(State(s.mode, s.envs[..|s.envs| - 1], s.next, w), origin, entry)
  {
    var n := |s.envs| - 1;
    var t := State(s.mode, s.envs[..n], s.next, w);
    forall i | 0 <= i < n ensures EnvOk(t, entry, i) {
      assert EnvOk(s, entry, i);
    }
    forall i | 0 < i < n ensures Increasing(t, i) {
      assert Increasing(s, i);
    }
    if n > 0 { assert EnvOk(s, entry, n - 1); }
  }

  lemma PushInv(h: Host, s: State, origin: Word4, entry: Word4, r: StepResult)
    requires HostOk(h) && Inv(s, origin, entry) && s.envs != []
    requires r.Stepped? && r.status.Calling?
    requires var x := s.envs[|s.envs| - 1].x;
             r.x.Valid() && r.x.mode == x.mode && r.x.ctx == x.ctx && r.x.clk > 0
    requires EndsWith(r.w.tape, CallWords(r.x.ctx, r.status.callee, r.status.delegate))
    ensures var top := s.envs[|s.envs| - 1];
            var o := PushCall(h, s, top.idx, top.kind, r.x, r.w, r.status.callee, r.status.delegate);
            o.More? ==> Inv(o.s, origin, entry)
  {
    var n := |s.envs| - 1;
    var top := s.envs[n];
    var code := h.program(r.status.callee);
    var o := PushCall(h, s, top.idx, top.kind, r.x, r.w, r.status.callee, r.status.delegate);
    if o.More? {
      var t := o.s;
      NewValid(s.mode, t.envs[n + 1].x.ctx, code.value);
      assert EnvOk(s, entry, n);
      forall i | 0 <= i < |t.envs| ensures EnvOk(t, entry, i) {
        if i <= n { assert EnvOk(s, entry, i); }
      }
      forall i | 0 < i < |t.envs| ensures Increasing(t, i) {
        if i <= n { assert Increasing(s, i); }
      }
      assert Header(t, origin, n + 1) == CallWords(r.x.ctx, r.status.callee, r.status.delegate);
    }
  }

  /** Every round keeps the invariant. */
  lemma RoundInv(h: Host, s: State, origin: Word4, entry: Word4)
    requires HostOk(h) && Inv(s, origin, entry)
    ensures AllValid(s)
    ensures var o := Round(h, s); o.More? ==> Inv(o.s, origin, entry)
  {
    hide Resume;
    forall i | 0 <= i < |s.envs| ensures s.envs[i].x.Valid() {
      assert EnvOk(s, entry, i);
    }
    if s.envs != [] {
      hide Inv, PushCall, EnvOk, CallWords, EndsWith;
      var top := s.envs[|s.envs| - 1];
      var r := Resume(h, top.x, s.w);
      CallResume(h, top.x, s.w);
      if r.Stepped? && r.status.Ended? {
        EndedInv(h, s, origin, entry, r.w);
      } else if r.Stepped? {
        PushInv(h, s, origin, entry, r);
      }
    }
  }

  // ---- whole runs ----

  /** A run of `invoke` or `call`: a start and any number of rounds. */
  ghost predicate Run(h: Host, mode: Mode, b: BlockInfo, tx: TxInfo, entry: Word4, store: Store, states: seq<State>) {
    && states != []
    && Start(h, mode, entry, InitialTape(b, tx, entry), store) == More(states[0])
    && (forall i :: 0 < i < |states| ==> RoundAt(h, states, i))
  }

  predicate RoundAt(h: Host, states: seq<State>, i: nat)
    requires 0 < i < |states|
  {
    && AllValid(states[i - 1])
    && Round(h, states[i - 1]) == More(states[i])
  }

  lemma {:induction false} RunInv(h: Host, mode: Mode, b: BlockInfo, tx: TxInfo, entry: Word4, store: Store,
                                  states: seq<State>, i: nat)
    requires HostOk(h) && Run(h, mode, b, tx, entry, store, states) && i < |states|
    ensures Inv(states[i], tx.origin, entry) && states[i].mode == mode
  {
    hide HostOk, Inv, InitialTape;
    if i == 0 {
      StartInv(h, mode, b, tx, entry, store);
    } else {
      RunInv(h, mode, b, tx, entry, store, states, i - 1);
      assert RoundAt(h, states, i);
      RoundInv(h, states[i - 1], tx.origin, entry);
      RoundMode(h, states[i - 1]);
    }
  }

  lemma RoundMode(h: Host, s: State)
    requires AllValid(s)
    ensures var r := Round(h, s); r.More? || r.Done? ==> r.s.mode == s.mode
  {
    hide Resume;
  }

  /** In every state of every run, the indices on the stack increase strictly and stay below the next. */
  lemma IndicesIncrease(h: Host, mode: Mode, b: BlockInfo, tx: TxInfo, entry: Word4, store: Store,
                        states: seq<State>, n: nat, i: nat, j: nat)
    requires HostOk(h) && Run(h, mode, b, tx, entry, store, states) && n < |states|
    requires i < j < |states[n].envs|
    ensures states[n].envs[i].idx < states[n].envs[j].idx < states[n].next
  {
    RunInv(h, mode, b, tx, entry, store, states, n);
    assert EnvOk(states[n], entry, j);
    Ascending(states[n], tx.origin, entry, i, j);
  }

  lemma {:induction false} Ascending(s: State, origin: Word4, entry: Word4, i: nat, j: nat)
    requires Inv(s, origin, entry) && i < j < |s.envs|
    ensures s.envs[i].idx < s.envs[j].idx
  {
    assert Increasing(s, j);
    if i < j - 1 { Ascending(s, origin, entry, i, j - 1); }
  }

  /** Whenever an environment takes its first step, the top twelve words of the tape are its caller's
      storage address, or the origin address for the entry environment, then its own code address and
      its own storage address. */
  lemma FirstStepSeesHeader(h: Host, mode: Mode, b: BlockInfo, tx: TxInfo, entry: Word4, store: Store,
                            states: seq<State>, n: nat)
    requires HostOk(h) && Run(h, mode, b, tx, entry, store, states) && n < |states| && states[n].envs != []
    ensures var s := states[n]; var top := |s.envs| - 1;
            s.envs[top].x.clk == 0 ==>
              EndsWith(s.w.tape, Words(if top == 0 then tx.origin else s.envs[top - 1].x.ctx.storage)
                                 + Words(s.envs[top].x.ctx.code) + Words(s.envs[top].x.ctx.storage))
  {
    RunInv(h, mode, b, tx, entry, store, states, n);
  }

  /** Along a chain of delegate calls every environment works on the storage of the one that started it. */
  lemma {:induction false} DelegatesInherit(s: State, origin: Word4, entry: Word4, i: nat, j: nat)
    requires Inv(s, origin, entry) && i <= j < |s.envs|
    requires forall k :: i < k <= j ==> s.envs[k].kind.Delegated?
    ensures s.envs[j].x.ctx.storage == s.envs[i].x.ctx.storage
  {
    if i < j {
      assert EnvOk(s, entry, j);
      DelegatesInherit(s, origin, entry, i, j - 1);
    }
  }

  // ---- modes ----

  function WithMode(s: State, m: Mode): State {
    State(m, seq(|s.envs|, i requires 0 <= i < |s.envs| => s.envs[i].(x := InMode(s.envs[i].x, m))), s.next, s.w)
  }

  /** A round that succeeds in invoke mode succeeds in pre-execution mode, with the same registers,
      memories, tape, storage and events. */
  lemma RoundWithoutTrace(h: Host, s: State, origin: Word4, entry: Word4)
    requires Inv(s, origin, entry) && s.mode.Invoking?
    ensures AllValid(s) && AllValid(WithMode(s, PreExecute))
    ensures var o, p := Round(h, s), Round(h, WithMode(s, PreExecute));
            && (o.More? ==> p.More? && p.s == WithMode(o.s, PreExecute))
            && (o.Done? ==> p.Done? && p.s == WithMode(o.s, PreExecute))
  {
    hide Resume, PushCall;
    forall i | 0 <= i < |s.envs| ensures s.envs[i].x.Valid() && s.envs[i].x.mode.Invoking? {
      assert EnvOk(s, entry, i);
    }
    if s.envs != [] {
      var n := |s.envs| - 1;
      var top := s.envs[n];
      var r := Resume(h, top.x, s.w);
      if r.Stepped? {
        ResumeWithoutTrace(h, top.x, s.w);
        if r.status.Ended? {
          assert WithMode(s, PreExecute).envs[..n] ==
                 WithMode(State(s.mode, s.envs[..n], s.next, r.w), PreExecute).envs;
        } else {
          PushWithoutTrace(h, s, top.idx, top.kind, r.x, r.w, r.status.callee, r.status.delegate);
        }
      }
    }
  }

  lemma PushWithoutTrace(h: Host, s: State, idx: nat, kind: Kind, x: Exec, w: World, callee: Word4, delegate: bool)
    requires s.envs != []
    ensures var o := PushCall(h, s, idx, kind, x, w, callee, delegate);
            var p := PushCall(h, WithMode(s, PreExecute), idx, kind, InMode(x, PreExecute), w, callee, delegate);
            if o.More? then p == More(WithMode(o.s, PreExecute)) else p == o && o.Failed?
  {
    var o := PushCall(h, s, idx, kind, x, w, callee, delegate);
    if o.More? {
      var p := PushCall(h, WithMode(s, PreExecute), idx, kind, InMode(x, PreExecute), w, callee, delegate);
      assert p.s.envs == WithMode(o.s, PreExecute).envs;
    }
  }

  /** Every run in invoke mode is, state by state, a run in pre-execution mode. */
  lemma InvokeThenPreExecute(h: Host, b: BlockInfo, tx: TxInfo, entry: Word4, store: Store, states: seq<State>,
                             pre: seq<State>)
    requires HostOk(h) && Run(h, Invoking, b, tx, entry, store, states)
    requires |pre| == |states| && forall i :: 0 <= i < |states| ==> pre[i] == WithMode(states[i], PreExecute)
    ensures Run(h, PreExecute, b, tx, entry, store, pre)
  {
    hide Round, Inv;
    assert states[0].envs[0].(x := InMode(states[0].envs[0].x, PreExecute)).x
        == NewEnv(PreExecute, Context(entry, entry), states[0].envs[0].x.code);
    forall i | 0 < i < |pre| ensures RoundAt(h, pre, i) {
      RunInv(h, Invoking, b, tx, entry, store, states, i - 1);
      assert RoundAt(h, states, i);
      RoundWithoutTrace(h, states[i - 1], tx.origin, entry);
    }
  }

  function WorldOf(o: Outcome): World { if o.Failed? then o.w else o.s.w }

  /** A round of a view call leaves visible storage and events alone, whether it succeeds or fails. */
  lemma ViewRound(h: Host, s: State, origin: Word4, entry: Word4)
    requires Inv(s, origin, entry) && s.mode.ViewCall?
    ensures AllValid(s) && SameView(h, s.w, WorldOf(Round(h, s)))
  {
    hide Resume, Visible;
    forall i | 0 <= i < |s.envs|
      ensures s.envs[i].x.Valid() && s.envs[i].x.mode == s.mode { assert EnvOk(s, entry, i); }
    if s.envs != [] { ViewResume(h, s.envs[|s.envs| - 1].x, s.w); }
  }

  /** No view call changes visible storage or files an event, at any nesting depth: neither in the states of a
      run nor in what the next round leaves, even if that round fails. */
  lemma {:induction false} ViewCallChangesNothing(h: Host, b: BlockInfo, tx: TxInfo, entry: Word4, store: Store,
                                                  states: seq<State>, i: nat)
    requires HostOk(h) && Run(h, ViewCall, b, tx, entry, store, states) && i < |states|
    ensures states[i].w.events == [] && Visible(states[i].w.store, h.disk) == Visible(store, h.disk)
    ensures AllValid(states[i])
    ensures var w := WorldOf(Round(h, states[i]));
            w.events == [] && Visible(w.store, h.disk) == Visible(store, h.disk)
  {
    hide Resume, Inv, Visible, Round;
    if i > 0 {
      ViewCallChangesNothing(h, b, tx, entry, store, states, i - 1);
      assert RoundAt(h, states, i);
    }
    RunInv(h, ViewCall, b, tx, entry, store, states, i);
    ViewRound(h, states[i], tx.origin, entry);
  }

}
