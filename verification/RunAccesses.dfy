/** What a run of the transaction manager does to storage is a list of accesses, which is how batches see a
    transaction. */
module RunAccesses {
  import opened Isa
  import opened Storage
  import opened Executor
  import opened TxManager

  lemma {:induction false} AccessesConcat(h: TreeKey, s: Store, disk: Kv, a: seq<Access>, b: seq<Access>)
    ensures AfterAccesses(h, s, disk, a + b) == AfterAccesses(h, AfterAccesses(h, s, disk, a), disk, b)
  {
    hide AfterAccess;
    if b == [] {
      assert a + b == a;
    } else {
      AccessesConcat(h, s, disk, a, b[..|b| - 1]);
      assert (a + b)[..|a + b| - 1] == a + b[..|b| - 1];
    }
  }

  lemma OneAccess(h: TreeKey, s: Store, disk: Kv, a: Access)
    ensures AfterAccesses(h, s, disk, []) == s && AfterAccesses(h, s, disk, [a]) == AfterAccess(h, s, disk, a)
  {
    assert [a][..0] == [];
  }

  /** The store after some accesses, except that a failure may come after a read has filled the cache and before
      the access it was for. */
  ghost predicate Reached(h: Host, s: Store, t: Store, accesses: seq<Access>, failed: bool) {
    var u := AfterAccesses(h.treeKey, s, h.disk, accesses);
    t == u || (failed && exists k :: t == Filled(u, h.disk, k))
  }

  lemma {:induction false} DiffsKeepStore(h: Host, x: Exec, w: World, diffs: seq<Diff>)
    requires x.Valid() && (forall i :: 0 <= i < |diffs| ==> DiffOk(diffs[i])) && StoresNothing(diffs)
    ensures ApplyAll(h, x, w, diffs).w.store == w.store
  {
    ApplyKeepsView(h, x, w, diffs);
  }

  /** The access of an instruction, if it makes one. */
  function AccessOf(x: Exec, i: Instr): seq<Access>
    requires x.Valid() && InstrOk(i)
  {
    var a, b := Get(x, i.op0), Get(x, i.op1);
    if a.None? || b.None? || !(i.op.Sload? || i.op.Sstore?) then [] else
      var key, v := BatchRead(x.memory, a.value, 4), BatchRead(x.memory, b.value, 4);
      if key.None? then []
      else if i.op.Sload? then [Load(x.ctx.storage, ToWord4(key.value))]
      else if v.None? || x.mode.ViewCall? then []
      else [Store_(x.ctx.storage, ToWord4(key.value), ToWord4(v.value))]
  }

  lemma EffectStore(h: Host, x: Exec, w: World, i: Instr)
    requires x.Valid() && InstrOk(i)
    ensures var e := EffectOf(h, x, w, i);
            e.Effect? ==>
              if i.op.Sstore? then
                && AccessOf(x, i) != [] && AccessOf(x, i)[0].Store_?
                && var a := AccessOf(x, i)[0];
                && e.w == w.(store := Filled(w.store, h.disk, h.treeKey(a.addr, a.key))) && a.addr == x.ctx.storage
                && |e.diffs| == 2 && e.diffs[0].PcTo? && e.diffs[1] == StoreTo(a.key, a.value)
              else
                StoresNothing(e.diffs) && e.w.store == AfterAccesses(h.treeKey, w.store, h.disk, AccessOf(x, i))
  {
    hide Get, BatchRead, Length, Cells, CallWords, Filled, AfterLoad, BinaryResult;
    if i.op.Sload? && AccessOf(x, i) != [] { OneAccess(h.treeKey, w.store, h.disk, AccessOf(x, i)[0]); }
  }

  /** One step of an environment, successful or not. */
  lemma StepStore(h: Host, x: Exec, w: World, i: Instr) returns (accesses: seq<Access>)
    requires x.Valid() && InstrOk(i)
    ensures var r := RunOneStep(h, x, w, i); Reached(h, w.store, r.w.store, accesses, r.StepFail?)
  {
    hide EffectOf, ApplyAll, AccessOf, AfterAccess, Filled;
    EffectStore(h, x, w, i);
    var e := EffectOf(h, x, w, i);
    accesses := [];
    if e.Effect? {
      if i.op.Sstore? {
        var a := AccessOf(x, i)[0];
        OneAccess(h.treeKey, w.store, h.disk, a);
        TwoDiffs(h, x, e.w, e.diffs[0], e.diffs[1]);
        assert e.diffs == [e.diffs[0], e.diffs[1]];
        if !TraceFails(x, i) { accesses := [a]; StoredIs(h, w.store, a); }
      } else {
        DiffsKeepStore(h, x, e.w, e.diffs);
        accesses := AccessOf(x, i);
      }
    }
  }

  lemma StoredIs(h: Host, s: Store, a: Access)
    requires a.Store_?
    ensures AfterAccess(h.treeKey, s, h.disk, a)
         == AfterStore(h.treeKey, Filled(s, h.disk, h.treeKey(a.addr, a.key)), h.disk, a.addr, a.key, a.value)
  {
  }

  lemma {:induction false} ResumeStore(h: Host, x: Exec, w: World) returns (accesses: seq<Access>)
    requires x.Valid()
    ensures var r := Resume(h, x, w); Reached(h, w.store, r.w.store, accesses, r.StepFail?)
    decreases if x.clk < MAX_CLK then MAX_CLK - x.clk else 0
  {
    hide RunOneStep, AfterAccess, Filled;
    accesses := [];
    if x.pc in x.code {
      var r := RunOneStep(h, x, w, x.code[x.pc]);
      accesses := StepStore(h, x, w, x.code[x.pc]);
      if r.Stepped? && r.status.Running? && r.x.clk < MAX_CLK {
        var more := ResumeStore(h, r.x, r.w);
        AccessesConcat(h.treeKey, w.store, h.disk, accesses, more);
        accesses := accesses + more;
      }
    }
  }

  /** What a round leaves, even a failing one. */
  lemma RoundStore(h: Host, s: State) returns (accesses: seq<Access>)
    requires AllValid(s)
    ensures var o := Round(h, s); Reached(h, s.w.store, WorldOf(o).store, accesses, o.Failed?)
  {
    hide Resume, AfterAccess, Filled;
    accesses := [];
    if s.envs != [] { accesses := ResumeStore(h, s.envs[|s.envs| - 1].x, s.w); }
  }

  /** In every state of every run, the store is the one before the transaction after some accesses, so a
      finished run is a transaction of a batch. */
  lemma {:induction false} RunStore(h: Host, mode: Mode, b: BlockInfo, tx: TxInfo, entry: Word4, store: Store,
                                    states: seq<State>, i: nat) returns (accesses: seq<Access>)
    requires HostOk(h) && Run(h, mode, b, tx, entry, store, states) && i < |states|
    ensures states[i].w.store == AfterAccesses(h.treeKey, store, h.disk, accesses)
  {
    hide Round, AfterAccess, Filled, Inv;
    accesses := [];
    if i > 0 {
      accesses := RunStore(h, mode, b, tx, entry, store, states, i - 1);
      assert RoundAt(h, states, i);
      var more := RoundStore(h, states[i - 1]);
      AccessesConcat(h.treeKey, store, h.disk, accesses, more);
      accesses := accesses + more;
    }
  }
}
