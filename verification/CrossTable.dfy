/** Cross-table lookups: the prover, the constraint checker and the verifier each walk the list of
    lookups on their own, and have to meet the Z columns of every table in the same order. */
module CrossTable {
  import opened Goldilocks
  import opened GrandProduct
  import opened ProductSound
  import Consumer

  const NUM_TABLES: nat := 12

  datatype TableColumns = TableColumns(table: nat, selection: Selection)

  datatype Ctl = Ctl(looking: seq<TableColumns>, looked: TableColumns)

  predicate TablesExist(ctls: seq<Ctl>) {
    forall i :: 0 <= i < |ctls| ==>
      && ctls[i].looked.table < NUM_TABLES
      && forall j :: 0 <= j < |ctls[i].looking| ==> ctls[i].looking[j].table < NUM_TABLES
  }

  // ---- the common order ----

  /** One Z column: a lookup, a challenge and one of the lookup's tables, the looked one last. */
  datatype Slot = Slot(lookup: nat, challenge: nat, index: nat, cols: TableColumns)

  function TableAt(ctl: Ctl, j: nat): TableColumns
    requires j <= |ctl.looking|
  {
    if j < |ctl.looking| then ctl.looking[j] else ctl.looked
  }

  function SlotsOf(ctl: Ctl, i: nat, c: nat): (r: seq<Slot>)
    ensures |r| == |ctl.looking| + 1
    ensures forall j :: 0 <= j <= |ctl.looking| ==> r[j] == Slot(i, c, j, TableAt(ctl, j))
  {
    seq(|ctl.looking| + 1, j requires 0 <= j <= |ctl.looking| => Slot(i, c, j, TableAt(ctl, j)))
  }

  function OfLookup(ctl: Ctl, i: nat, c: nat): seq<Slot> {
    if c == 0 then [] else OfLookup(ctl, i, c - 1) + SlotsOf(ctl, i, c - 1)
  }

  function Order(ctls: seq<Ctl>, k: nat, i: nat): seq<Slot>
    requires i <= |ctls|
  {
    if i == 0 then [] else Order(ctls, k, i - 1) + OfLookup(ctls[i - 1], i - 1, k)
  }

  /** Everything walked before slot j of challenge c of lookup i. */
  function Walked(ctls: seq<Ctl>, k: nat, i: nat, c: nat, j: nat): seq<Slot>
    requires i < |ctls| && j <= |ctls[i].looking| + 1
  {
    Order(ctls, k, i) + OfLookup(ctls[i], i, c) + SlotsOf(ctls[i], i, c)[..j]
  }

  lemma WalkOn(ctls: seq<Ctl>, k: nat, i: nat, c: nat)
    requires i < |ctls|
    ensures Walked(ctls, k, i, c, |ctls[i].looking| + 1) == Walked(ctls, k, i, c + 1, 0)
    ensures Walked(ctls, k, i, 0, 0) == Order(ctls, k, i)
    ensures Walked(ctls, k, i, k, 0) == Order(ctls, k, i + 1)
    ensures forall j :: 0 <= j <= |ctls[i].looking| ==>
              Walked(ctls, k, i, c, j + 1) == Walked(ctls, k, i, c, j) + [Slot(i, c, j, TableAt(ctls[i], j))]
  {
    var s := SlotsOf(ctls[i], i, c);
    assert s[..|s|] == s;
    forall j | 0 <= j <= |ctls[i].looking|
      ensures Walked(ctls, k, i, c, j + 1) == Walked(ctls, k, i, c, j) + [Slot(i, c, j, TableAt(ctls[i], j))]
    {
      assert s[..j + 1] == s[..j] + [s[j]];
    }
  }

  /** The slots of one table, in order. */
  function Of(t: nat, slots: seq<Slot>): seq<Slot> {
    if slots == [] then [] else
      var n := |slots| - 1;
      Of(t, slots[..n]) + if slots[n].cols.table == t then [slots[n]] else []
  }

  lemma OfStep(t: nat, slots: seq<Slot>, s: Slot)
    ensures Of(t, slots + [s]) == if s.cols.table == t then Of(t, slots) + [s] else Of(t, slots)
  {
    assert (slots + [s])[..|slots|] == slots;
  }

  /** Slots stay where they are as the walk goes on. */
  lemma {:induction false} OfPrefix(t: nat, a: seq<Slot>, b: seq<Slot>)
    requires a <= b
    ensures Of(t, a) <= Of(t, b)
  {
    if a != b {
      OfPrefix(t, a, b[..|b| - 1]);
    }
  }

  lemma {:induction false} WalkedInOrder(ctls: seq<Ctl>, k: nat, i: nat, n: nat)
    requires i <= n <= |ctls|
    ensures Order(ctls, k, i) <= Order(ctls, k, n)
  {
    if i < n { WalkedInOrder(ctls, k, i, n - 1); }
  }

  lemma {:induction false} OfLookupPrefix(ctl: Ctl, i: nat, c: nat, d: nat)
    requires c <= d
    ensures OfLookup(ctl, i, c) <= OfLookup(ctl, i, d)
  {
    if c < d { OfLookupPrefix(ctl, i, c, d - 1); }
  }

  lemma PrefixJoin<T>(a: seq<T>, b: seq<T>, c: seq<T>)
    requires b <= c
    ensures a + b <= a + c
  {
  }

  lemma WalkedPrefix(ctls: seq<Ctl>, k: nat, i: nat, c: nat, j: nat)
    requires i < |ctls| && c < k && j <= |ctls[i].looking| + 1
    ensures Walked(ctls, k, i, c, j) <= Order(ctls, k, |ctls|)
  {
    hide SlotsOf, OfLookup, Order;
    var before, mine, here := Order(ctls, k, i), OfLookup(ctls[i], i, k), OfLookup(ctls[i], i, c);
    var slots := SlotsOf(ctls[i], i, c);
    assert OfLookup(ctls[i], i, c + 1) == here + slots by { LookupStep(ctls[i], i, c); }
    PrefixJoin(here, slots[..j], slots);
    OfLookupPrefix(ctls[i], i, c + 1, k);
    PrefixJoin(before, here + slots[..j], mine);
    assert before + (here + slots[..j]) == Walked(ctls, k, i, c, j);
    assert before + mine == Order(ctls, k, i + 1) by { OrderStep(ctls, k, i); }
    WalkedInOrder(ctls, k, i + 1, |ctls|);
  }

  lemma LookupStep(ctl: Ctl, i: nat, c: nat)
    ensures OfLookup(ctl, i, c + 1) == OfLookup(ctl, i, c) + SlotsOf(ctl, i, c)
  {
  }

  lemma OrderStep(ctls: seq<Ctl>, k: nat, i: nat)
    requires i < |ctls|
    ensures Order(ctls, k, i + 1) == Order(ctls, k, i) + OfLookup(ctls[i], i, k)
  {
  }

  // ---- the prover's walk ----

  datatype ZData = ZData(z: seq<Felt>, challenge: Challenge, selection: Selection)

  type Traces = traces: seq<seq<Row>> | |traces| == NUM_TABLES witness seq(NUM_TABLES, _ => [])

  /** Every table of every lookup can be evaluated and has a binary filter. */
  predicate Provable(traces: Traces, ctls: seq<Ctl>) {
    && TablesExist(ctls)
    && forall i :: 0 <= i < |ctls| ==> ProvableCtl(traces, ctls[i])
  }

  predicate ProvableCtl(traces: Traces, ctl: Ctl) {
    forall j :: 0 <= j <= |ctl.looking| ==> ProvableAt(traces, TableAt(ctl, j))
  }

  predicate ProvableAt(traces: Traces, c: TableColumns) {
    && c.table < NUM_TABLES && TableFits(c.selection, traces[c.table]) && BinaryFilter(c.selection, traces[c.table])
    && traces[c.table] != []
  }

  function Produce(traces: Traces, chs: seq<Challenge>, s: Slot): ZData
    requires ProvableAt(traces, s.cols) && s.challenge < |chs|
  {
    ZData(Products(s.cols.selection, chs[s.challenge], traces[s.cols.table]), chs[s.challenge], s.cols.selection)
  }

  /** The lists hold, for every table, what the prover produced for its slots. */
  ghost predicate Produced(traces: Traces, chs: seq<Challenge>, data: seq<seq<ZData>>, slots: seq<Slot>) {
    && |data| == NUM_TABLES
    && (forall n :: 0 <= n < |slots| ==> ProvableAt(traces, slots[n].cols) && slots[n].challenge < |chs|)
    && forall t :: 0 <= t < NUM_TABLES ==> ProducedAt(traces, chs, data[t], Of(t, slots))
  }

  ghost predicate ProducedAt(traces: Traces, chs: seq<Challenge>, zs: seq<ZData>, slots: seq<Slot>) {
    |zs| == |slots| && forall n :: 0 <= n < |slots| ==>
      && ProvableAt(traces, slots[n].cols) && slots[n].challenge < |chs|
      && zs[n] == Produce(traces, chs, slots[n])
  }

  lemma Push(traces: Traces, chs: seq<Challenge>, data: seq<seq<ZData>>, slots: seq<Slot>, s: Slot)
    requires Produced(traces, chs, data, slots) && ProvableAt(traces, s.cols) && s.challenge < |chs|
    ensures var t := s.cols.table;
            Produced(traces, chs, data[t := data[t] + [Produce(traces, chs, s)]], slots + [s])
  {
    hide ProvableAt, Produce, Of;
    assert s.cols.table < NUM_TABLES by { TableOf(traces, s.cols); }
    forall t | 0 <= t < NUM_TABLES
      ensures Of(t, slots + [s]) == if s.cols.table == t then Of(t, slots) + [s] else Of(t, slots) {
      OfStep(t, slots, s);
    }
  }

  lemma TableOf(traces: Traces, c: TableColumns)
    requires ProvableAt(traces, c)
    ensures c.table < NUM_TABLES && TableFits(c.selection, traces[c.table])
            && BinaryFilter(c.selection, traces[c.table])
  {
  }

  /** The tables of one lookup under one challenge: looking tables first, then the looked one. */
  method ProveOne(traces: Traces, ctls: seq<Ctl>, chs: seq<Challenge>, i: nat, c: nat, data: seq<seq<ZData>>)
    returns (r: seq<seq<ZData>>)
    requires Provable(traces, ctls) && i < |ctls| && c < |chs| && |data| == NUM_TABLES
    requires Produced(traces, chs, data, Walked(ctls, |chs|, i, c, 0))
    ensures |r| == NUM_TABLES && Produced(traces, chs, r, Walked(ctls, |chs|, i, c + 1, 0))
  {
    hide Produced, ProvableAt, Walked, BinaryFilter, TableFits;
    var ctl := ctls[i];
    WalkOn(ctls, |chs|, i, c);
    r := data;
    for j := 0 to |ctl.looking| + 1
      invariant |r| == NUM_TABLES
      invariant Produced(traces, chs, r, Walked(ctls, |chs|, i, c, j))
    {
      var cols := if j < |ctl.looking| then ctl.looking[j] else ctl.looked;
      assert ProvableAt(traces, TableAt(ctl, j));
      TableOf(traces, cols);
      var z := PartialProducts(cols.selection, chs[c], traces[cols.table]);
      ghost var slot := Slot(i, c, j, TableAt(ctl, j));
      Push(traces, chs, r, Walked(ctls, |chs|, i, c, j), slot);
      r := r[cols.table := r[cols.table] + [ZData(z.value, chs[c], cols.selection)]];
    }
  }

  lemma NothingProduced(traces: Traces, chs: seq<Challenge>, data: seq<seq<ZData>>, ctls: seq<Ctl>)
    requires data == seq(NUM_TABLES, _ => [])
    ensures Produced(traces, chs, data, Order(ctls, |chs|, 0))
  {
  }

  method CrossTableLookupData(traces: Traces, ctls: seq<Ctl>, chs: seq<Challenge>) returns (data: seq<seq<ZData>>)
    requires Provable(traces, ctls)
    ensures Produced(traces, chs, data, Order(ctls, |chs|, |ctls|))
  {
    hide Provable, Produced, Walked, Order;
    data := seq(NUM_TABLES, _ => []);
    NothingProduced(traces, chs, data, ctls);
    for i := 0 to |ctls|
      invariant |data| == NUM_TABLES && Produced(traces, chs, data, Order(ctls, |chs|, i))
    {
      WalkOn(ctls, |chs|, i, 0);
      for c := 0 to |chs|
        invariant |data| == NUM_TABLES && Produced(traces, chs, data, Walked(ctls, |chs|, i, c, 0))
      {
        data := ProveOne(traces, ctls, chs, i, c, data);
      }
    }
  }

  // ---- the constraint checker's walk ----

  /** A Z column opened at a row and at the next one, with what it has to be checked against. */
  datatype CheckVars = CheckVars(localZ: Felt, nextZ: Felt, challenge: Challenge, selection: Selection)

  type Openings = openings: seq<seq<(Felt, Felt)>> | |openings| == NUM_TABLES witness seq(NUM_TABLES, _ => [])

  function Vars(chs: seq<Challenge>, z: (Felt, Felt), s: Slot): CheckVars
    requires s.challenge < |chs|
  {
    CheckVars(z.0, z.1, chs[s.challenge], s.cols.selection)
  }

  /** For every table, opening n was handed out for the table's slot n, and nothing else was. */
  ghost predicate Handed(open: Openings, chs: seq<Challenge>, vars: seq<seq<CheckVars>>, next: seq<nat>,
                         slots: seq<Slot>) {
    && |vars| == |next| == NUM_TABLES
    && forall t :: 0 <= t < NUM_TABLES ==> next[t] == |vars[t]| && HandedAt(open[t], chs, vars[t], Of(t, slots))
  }

  ghost predicate HandedAt(open: seq<(Felt, Felt)>, chs: seq<Challenge>, vars: seq<CheckVars>, slots: seq<Slot>) {
    |vars| == |slots| <= |open| && forall n :: 0 <= n < |slots| ==>
      slots[n].challenge < |chs| && vars[n] == Vars(chs, open[n], slots[n])
  }

  lemma Hand(open: Openings, chs: seq<Challenge>, vars: seq<seq<CheckVars>>, next: seq<nat>, slots: seq<Slot>, s: Slot)
    requires Handed(open, chs, vars, next, slots) && s.cols.table < NUM_TABLES && s.challenge < |chs|
    requires next[s.cols.table] < |open[s.cols.table]|
    ensures var t := s.cols.table;
            Handed(open, chs, vars[t := vars[t] + [Vars(chs, open[t][next[t]], s)]], next[t := next[t] + 1],
                   slots + [s])
  {
    hide Vars, Of;
    forall t | 0 <= t < NUM_TABLES
      ensures Of(t, slots + [s]) == if s.cols.table == t then Of(t, slots) + [s] else Of(t, slots) {
      OfStep(t, slots, s);
    }
  }

  /** `unwrap` fails on a table that has fewer columns than slots. */
  ghost predicate Enough(open: Openings, slots: seq<Slot>) {
    forall t :: 0 <= t < NUM_TABLES ==> |Of(t, slots)| <= |open[t]|
  }

  lemma Short(open: Openings, chs: seq<Challenge>, vars: seq<seq<CheckVars>>, next: seq<nat>, slots: seq<Slot>, s: Slot,
              all: seq<Slot>)
    requires Handed(open, chs, vars, next, slots) && s.cols.table < NUM_TABLES
    requires next[s.cols.table] >= |open[s.cols.table]| && slots + [s] <= all
    ensures !Enough(open, all)
  {
    var t := s.cols.table;
    OfStep(t, slots, s);
    OfPrefix(t, slots + [s], all);
    assert |Of(t, all)| > |open[t]|;
  }

  method HandOne(open: Openings, ctls: seq<Ctl>, chs: seq<Challenge>, i: nat, c: nat,
                 vars: seq<seq<CheckVars>>, next: seq<nat>)
    returns (ok: bool, r: seq<seq<CheckVars>>, n: seq<nat>)
    requires TablesExist(ctls) && i < |ctls| && c < |chs| && |vars| == |next| == NUM_TABLES
    requires Handed(open, chs, vars, next, Walked(ctls, |chs|, i, c, 0))
    ensures |r| == |n| == NUM_TABLES
    ensures ok ==> Handed(open, chs, r, n, Walked(ctls, |chs|, i, c + 1, 0))
    ensures !ok ==> !Enough(open, Order(ctls, |chs|, |ctls|))
  {
    hide Handed, Walked, Enough, Order;
    var ctl := ctls[i];
    WalkOn(ctls, |chs|, i, c);
    ok, r, n := true, vars, next;
    for j := 0 to |ctl.looking| + 1
      invariant ok && |r| == |n| == NUM_TABLES
      invariant Handed(open, chs, r, n, Walked(ctls, |chs|, i, c, j))
    {
      var cols := if j < |ctl.looking| then ctl.looking[j] else ctl.looked;
      var t := cols.table;
      ghost var slots, slot := Walked(ctls, |chs|, i, c, j), Slot(i, c, j, TableAt(ctl, j));
      if n[t] >= |open[t]| {
        WalkedPrefix(ctls, |chs|, i, c, j + 1);
        Short(open, chs, r, n, slots, slot, Order(ctls, |chs|, |ctls|));
        return false, r, n;
      }
      Hand(open, chs, r, n, slots, slot);
      var z := open[t][n[t]];
      r := r[t := r[t] + [CheckVars(z.0, z.1, chs[c], cols.selection)]];
      n := n[t := n[t] + 1];
    }
  }

  /** `from_proofs`: it fails exactly if some table has too few columns, and otherwise column n of a
      table is checked for slot n of that table. */
  method FromProofs(open: Openings, ctls: seq<Ctl>, chs: seq<Challenge>)
    returns (ok: bool, vars: seq<seq<CheckVars>>, next: seq<nat>)
    requires TablesExist(ctls)
    ensures ok <==> Enough(open, Order(ctls, |chs|, |ctls|))
    ensures ok ==> Handed(open, chs, vars, next, Order(ctls, |chs|, |ctls|))
  {
    hide Handed, Walked, Enough, TablesExist;
    vars, next := seq(NUM_TABLES, _ => []), seq(NUM_TABLES, _ => 0);
    NothingHanded(open, chs, vars, next);
    for i := 0 to |ctls|
      invariant |vars| == |next| == NUM_TABLES
      invariant Handed(open, chs, vars, next, Order(ctls, |chs|, i))
    {
      WalkOn(ctls, |chs|, i, 0);
      for c := 0 to |chs|
        invariant |vars| == |next| == NUM_TABLES
        invariant Handed(open, chs, vars, next, Walked(ctls, |chs|, i, c, 0))
      {
        ok, vars, next := HandOne(open, ctls, chs, i, c, vars, next);
        if !ok { return; }
      }
    }
    ok := true;
    HandedEnough(open, chs, vars, next, Order(ctls, |chs|, |ctls|));
  }

  lemma NothingHanded(open: Openings, chs: seq<Challenge>, vars: seq<seq<CheckVars>>, next: seq<nat>)
    requires vars == seq(NUM_TABLES, _ => []) && next == seq(NUM_TABLES, _ => 0)
    ensures Handed(open, chs, vars, next, [])
  {
  }

  lemma HandedEnough(open: Openings, chs: seq<Challenge>, vars: seq<seq<CheckVars>>, next: seq<nat>, slots: seq<Slot>)
    requires Handed(open, chs, vars, next, slots)
    ensures Enough(open, slots)
  {
  }

  // ---- counting ----

  lemma {:induction false} OfConcat(t: nat, a: seq<Slot>, b: seq<Slot>)
    ensures Of(t, a + b) == Of(t, a) + Of(t, b)
  {
    if b == [] {
      assert a + b == a;
    } else {
      OfConcat(t, a, b[..|b| - 1]);
      assert (a + b)[..|a + b| - 1] == a + b[..|b| - 1];
    }
  }

  lemma {:induction false} EveryChallenge(t: nat, ctl: Ctl, i: nat, c: nat)
    ensures |Of(t, OfLookup(ctl, i, c))| == |Of(t, SlotsOf(ctl, i, 0))| * c
  {
    hide Of, SlotsOf;
    if c == 0 {
      OfNone(t);
    } else {
      EveryChallenge(t, ctl, i, c - 1);
      OfConcat(t, OfLookup(ctl, i, c - 1), SlotsOf(ctl, i, c - 1));
      SameCount(t, ctl, i, c - 1, |ctl.looking| + 1);
      var s, s0 := SlotsOf(ctl, i, c - 1), SlotsOf(ctl, i, 0);
      assert s[..|s|] == s && s0[..|s0|] == s0;
    }
  }

  lemma {:induction false} SameCount(t: nat, ctl: Ctl, i: nat, c: nat, n: nat)
    requires n <= |ctl.looking| + 1
    ensures |Of(t, SlotsOf(ctl, i, c)[..n])| == |Of(t, SlotsOf(ctl, i, 0)[..n])|
  {
    if n > 0 {
      SameCount(t, ctl, i, c, n - 1);
      var s, s0 := SlotsOf(ctl, i, c), SlotsOf(ctl, i, 0);
      assert s[..n] == s[..n - 1] + [s[n - 1]] && s0[..n] == s0[..n - 1] + [s0[n - 1]];
      OfStep(t, s[..n - 1], s[n - 1]);
      OfStep(t, s0[..n - 1], s0[n - 1]);
    }
  }

  /** The slots of one lookup that belong to a table: the looked one, chained with the looking ones. */
  method CountOne(ctl: Ctl, table: nat, ghost i: nat) returns (n: nat)
    ensures n == |Of(table, SlotsOf(ctl, i, 0))|
  {
    ghost var s := SlotsOf(ctl, i, 0);
    var looked := if ctl.looked.table == table then 1 else 0;
    n := looked;
    for j := 0 to |ctl.looking|
      invariant n == |Of(table, s[..j])| + looked
    {
      assert s[..j + 1] == s[..j] + [s[j]];
      OfStep(table, s[..j], s[j]);
      if ctl.looking[j].table == table { n := n + 1; }
    }
    ghost var l := |ctl.looking|;
    assert s == s[..l] + [s[l]];
    OfStep(table, s[..l], s[l]);
  }

  /** `num_ctl_zs` is the number of columns the walks expect of a table. */
  method NumCtlZs(ctls: seq<Ctl>, table: nat, k: nat) returns (n: nat)
    ensures n == |Of(table, Order(ctls, k, |ctls|))|
  {
    hide Of, SlotsOf, OfLookup;
    var count := 0;
    assert Of(table, []) == [] by { OfNone(table); }
    for i := 0 to |ctls|
      invariant count * k == |Of(table, Order(ctls, k, i))|
    {
      var here := CountOne(ctls[i], table, i);
      EveryChallenge(table, ctls[i], i, k);
      OfConcat(table, Order(ctls, k, i), OfLookup(ctls[i], i, k));
      assert (count + here) * k == count * k + here * k;
      count := count + here;
    }
    n := count * k;
  }

  lemma OfNone(t: nat)
    ensures Of(t, []) == []
  {
  }

  // ---- the verifier's walk ----

  type Lasts = lasts: seq<seq<Felt>> | |lasts| == NUM_TABLES witness seq(NUM_TABLES, _ => [])

  /** The last value of the Z column of every slot, listed per table. */
  ghost predicate Carries(lasts: Lasts, val: Slot -> Felt, slots: seq<Slot>) {
    forall t :: 0 <= t < NUM_TABLES ==> CarriesAt(lasts[t], val, Of(t, slots))
  }

  ghost predicate CarriesAt(lasts: seq<Felt>, val: Slot -> Felt, slots: seq<Slot>) {
    |lasts| == |slots| && forall n :: 0 <= n < |slots| ==> lasts[n] == val(slots[n])
  }

  ghost function LookingProduct(ctl: Ctl, i: nat, c: nat, val: Slot -> Felt, j: nat): Felt
    requires j <= |ctl.looking|
  {
    if j == 0 then 1 else FMul(LookingProduct(ctl, i, c, val, j - 1), val(Slot(i, c, j - 1, ctl.looking[j - 1])))
  }

  /** The equation the verifier checks for one lookup and one challenge. */
  ghost predicate Balanced(ctls: seq<Ctl>, i: nat, c: nat, val: Slot -> Felt, extra: seq<seq<Felt>>)
    requires i < |ctls| && ctls[i].looked.table < |extra| && c < |extra[ctls[i].looked.table]|
  {
    var ctl := ctls[i];
    FMul(LookingProduct(ctl, i, c, val, |ctl.looking|), extra[ctl.looked.table][c])
    == val(Slot(i, c, |ctl.looking|, ctl.looked))
  }

  predicate ExtraFits(extra: seq<seq<Felt>>, k: nat) {
    |extra| == NUM_TABLES && forall t :: 0 <= t < NUM_TABLES ==> |extra[t]| == k
  }

  ghost predicate Pointers(next: seq<nat>, slots: seq<Slot>) {
    |next| == NUM_TABLES && forall t :: 0 <= t < NUM_TABLES ==> next[t] == |Of(t, slots)|
  }

  /** The value under a table's pointer is that of the slot being walked. */
  lemma ReadSlot(lasts: Lasts, val: Slot -> Felt, next: seq<nat>, slots: seq<Slot>, s: Slot, all: seq<Slot>)
    requires Carries(lasts, val, all) && Pointers(next, slots) && slots + [s] <= all && s.cols.table < NUM_TABLES
    ensures var t := s.cols.table;
            next[t] < |lasts[t]| && lasts[t][next[t]] == val(s) && Pointers(next[t := next[t] + 1], slots + [s])
  {
    hide Of;
    var t := s.cols.table;
    OfPrefix(t, slots + [s], all);
    forall u | 0 <= u < NUM_TABLES
      ensures Of(u, slots + [s]) == if s.cols.table == u then Of(u, slots) + [s] else Of(u, slots) {
      OfStep(u, slots, s);
    }
    assert CarriesAt(lasts[t], val, Of(t, all));
    assert Of(t, all)[next[t]] == s;
  }

  method VerifyOne(ctls: seq<Ctl>, lasts: Lasts, extra: seq<seq<Felt>>, k: nat, i: nat, c: nat, next: seq<nat>,
                   ghost val: Slot -> Felt)
    returns (ok: bool, n: seq<nat>)
    requires TablesExist(ctls) && ExtraFits(extra, k) && i < |ctls| && c < k && |next| == NUM_TABLES
    requires Carries(lasts, val, Order(ctls, k, |ctls|))
    requires Pointers(next, Walked(ctls, k, i, c, 0))
    ensures ok <==> Balanced(ctls, i, c, val, extra)
    ensures |n| == NUM_TABLES && Pointers(n, Walked(ctls, k, i, c + 1, 0))
  {
    hide Walked, Pointers, Carries, FMul, Order;
    var ctl := ctls[i];
    ghost var all := Order(ctls, k, |ctls|);
    WalkOn(ctls, k, i, c);
    n := next;
    var prod: Felt := 1;
    for j := 0 to |ctl.looking|
      invariant |n| == NUM_TABLES && Pointers(n, Walked(ctls, k, i, c, j))
      invariant prod == LookingProduct(ctl, i, c, val, j)
    {
      var t := ctl.looking[j].table;
      WalkedPrefix(ctls, k, i, c, j + 1);
      ReadSlot(lasts, val, n, Walked(ctls, k, i, c, j), Slot(i, c, j, TableAt(ctl, j)), all);
      prod := FMul(prod, lasts[t][n[t]]);
      n := n[t := n[t] + 1];
    }
    prod := FMul(prod, extra[ctl.looked.table][c]);
    var l, t := |ctl.looking|, ctl.looked.table;
    WalkedPrefix(ctls, k, i, c, l + 1);
    ReadSlot(lasts, val, n, Walked(ctls, k, i, c, l), Slot(i, c, l, TableAt(ctl, l)), all);
    ok := prod == lasts[t][n[t]];
    n := n[t := n[t] + 1];
  }

  ghost predicate AllBalanced(ctls: seq<Ctl>, k: nat, i: nat, val: Slot -> Felt, extra: seq<seq<Felt>>)
    requires i < |ctls| && TablesExist(ctls) && ExtraFits(extra, k)
  {
    forall c :: 0 <= c < k ==> Balanced(ctls, i, c, val, extra)
  }

  /** `verify_cross_table_lookups`: no `unwrap` fails, nothing is left over, and the result says
      whether the equation holds for the values of the very slots it names. */
  method VerifyCrossTableLookups(ctls: seq<Ctl>, lasts: Lasts, extra: seq<seq<Felt>>, k: nat, ghost val: Slot -> Felt)
    returns (ok: bool)
    requires TablesExist(ctls) && ExtraFits(extra, k)
    requires Carries(lasts, val, Order(ctls, k, |ctls|))
    ensures ok <==> forall i :: 0 <= i < |ctls| ==> AllBalanced(ctls, k, i, val, extra)
  {
    hide Walked, Pointers, Carries, FMul, Balanced, Order;
    var next := seq(NUM_TABLES, _ => 0);
    NoPointers(ctls, k, next);
    for i := 0 to |ctls|
      invariant |next| == NUM_TABLES && Pointers(next, Order(ctls, k, i))
      invariant forall x :: 0 <= x < i ==> AllBalanced(ctls, k, x, val, extra)
    {
      WalkOn(ctls, k, i, 0);
      for c := 0 to k
        invariant |next| == NUM_TABLES && Pointers(next, Walked(ctls, k, i, c, 0))
        invariant forall y :: 0 <= y < c ==> Balanced(ctls, i, y, val, extra)
      {
        ok, next := VerifyOne(ctls, lasts, extra, k, i, c, next, val);
        if !ok {
          assert !AllBalanced(ctls, k, i, val, extra);
          return;
        }
      }
    }
    NothingLeft(lasts, val, next, Order(ctls, k, |ctls|));
    assert forall t :: 0 <= t < NUM_TABLES ==> next[t] == |lasts[t]|;
    ok := true;
  }

  lemma NoPointers(ctls: seq<Ctl>, k: nat, next: seq<nat>)
    requires next == seq(NUM_TABLES, _ => 0)
    ensures Pointers(next, Order(ctls, k, 0))
  {
  }

  lemma NothingLeft(lasts: Lasts, val: Slot -> Felt, next: seq<nat>, slots: seq<Slot>)
    requires Carries(lasts, val, slots) && Pointers(next, slots)
    ensures forall t :: 0 <= t < NUM_TABLES ==> next[t] == |lasts[t]|
  {
    forall t | 0 <= t < NUM_TABLES ensures next[t] == |lasts[t]| {
      assert CarriesAt(lasts[t], val, Of(t, slots));
    }
  }

  // ---- completeness ----

  /** The last entry of the Z column the prover produces for a slot. */
  ghost function LastOf(traces: Traces, chs: seq<Challenge>, s: Slot): Felt {
    if ProvableAt(traces, s.cols) && s.challenge < |chs| then
      ProductTo(s.cols.selection, chs[s.challenge], traces[s.cols.table], |traces[s.cols.table]|)
    else 0
  }

  lemma LastOfProduced(traces: Traces, chs: seq<Challenge>, s: Slot)
    requires ProvableAt(traces, s.cols) && s.challenge < |chs|
    ensures var z := Produce(traces, chs, s).z; z != [] && z[|z| - 1] == LastOf(traces, chs, s)
  {
  }

  /** The rows a lookup selects from its first j looking tables. */
  ghost function LookingRows(traces: Traces, ctl: Ctl, j: nat): seq<seq<Felt>>
    requires j <= |ctl.looking| && ProvableCtl(traces, ctl)
  {
    if j == 0 then [] else
      LookingRows(traces, ctl, j - 1) + RowsOf(traces, TableAt(ctl, j - 1))
  }

  ghost function RowsOf(traces: Traces, c: TableColumns): seq<seq<Felt>>
    requires ProvableAt(traces, c)
  {
    Chosen(c.selection, traces[c.table], |traces[c.table]|)
  }

  /** The filtered looking rows of a lookup are, as a multiset, its filtered looked rows. */
  ghost predicate RowsAgree(traces: Traces, ctl: Ctl)
    requires ProvableCtl(traces, ctl)
  {
    var l := |ctl.looking|;
    multiset(LookingRows(traces, ctl, l)) == multiset(RowsOf(traces, TableAt(ctl, l)))
  }

  lemma LastIsCombined(traces: Traces, chs: seq<Challenge>, s: Slot)
    requires ProvableAt(traces, s.cols) && s.challenge < |chs|
    ensures LastOf(traces, chs, s) == CombinedProduct(chs[s.challenge], RowsOf(traces, s.cols))
  {
    hide ProductTo, Chosen, CombinedProduct;
    ProductIsCombined(s.cols.selection, chs[s.challenge], traces[s.cols.table], |traces[s.cols.table]|);
  }

  lemma {:induction false} LookingIsCombined(traces: Traces, chs: seq<Challenge>, ctl: Ctl, i: nat, c: nat,
                                             val: Slot -> Felt, j: nat)
    requires j <= |ctl.looking| && ProvableCtl(traces, ctl)
    requires c < |chs| && forall s :: val(s) == LastOf(traces, chs, s)
    ensures LookingProduct(ctl, i, c, val, j) == CombinedProduct(chs[c], LookingRows(traces, ctl, j))
  {
    hide FMul, LastOf, RowsOf, CombinedProduct, ProvableAt;
    if j == 0 {
      EmptyProduct(chs[c]);
    } else {
      LookingIsCombined(traces, chs, ctl, i, c, val, j - 1);
      var t := TableAt(ctl, j - 1);
      assert ProvableAt(traces, t);
      LastIsCombined(traces, chs, Slot(i, c, j - 1, t));
      CombinedConcat(chs[c], LookingRows(traces, ctl, j - 1), RowsOf(traces, t));
    }
  }

  lemma EmptyProduct(ch: Challenge)
    ensures CombinedProduct(ch, []) == 1
  {
  }

  /** If the rows of a lookup agree, its equation holds for every challenge. */
  lemma EqualRowsBalance(traces: Traces, chs: seq<Challenge>, ctls: seq<Ctl>, i: nat, c: nat, val: Slot -> Felt,
                         extra: seq<seq<Felt>>)
    requires Provable(traces, ctls) && i < |ctls| && c < |chs| && ExtraFits(extra, |chs|)
    requires forall s :: val(s) == LastOf(traces, chs, s)
    requires extra[ctls[i].looked.table][c] == 1 && RowsAgree(traces, ctls[i])
    ensures Balanced(ctls, i, c, val, extra)
  {
    hide FMul, LastOf, RowsOf, CombinedProduct, ProvableAt, LookingRows;
    var ctl, l := ctls[i], |ctls[i].looking|;
    LookingIsCombined(traces, chs, ctl, i, c, val, l);
    assert ProvableAt(traces, TableAt(ctl, l));
    LastIsCombined(traces, chs, Slot(i, c, l, TableAt(ctl, l)));
    ProductOfMultiset(chs[c], LookingRows(traces, ctl, l), RowsOf(traces, TableAt(ctl, l)));
    TimesOne(LookingProduct(ctl, i, c, val, l));
  }

  /** The Z column n of a table is checked with the challenge and the columns it was made from, and
      passes every check on every row. */
  lemma CheckedAgainstOwn(traces: Traces, chs: seq<Challenge>, data: seq<seq<ZData>>, open: Openings,
                          vars: seq<seq<CheckVars>>, next: seq<nat>, slots: seq<Slot>, t: nat, n: nat)
    requires Produced(traces, chs, data, slots) && Handed(open, chs, vars, next, slots)
    requires t < NUM_TABLES && n < |Of(t, slots)|
    ensures |data[t]| == |vars[t]| == |Of(t, slots)| && Of(t, slots)[n].cols.table == t
    ensures data[t][n].challenge == vars[t][n].challenge && data[t][n].selection == vars[t][n].selection
    ensures |data[t][n].z| == |traces[t]| && TableFits(data[t][n].selection, traces[t])
    ensures ChecksHold(vars[t][n].selection, vars[t][n].challenge, traces[t], data[t][n].z)
  {
    hide Of, ChecksHold;
    OfTable(t, slots, n);
    assert ProducedAt(traces, chs, data[t], Of(t, slots));
    assert HandedAt(open[t], chs, vars[t], Of(t, slots));
    var s := Of(t, slots)[n];
    assert ProvableAt(traces, s.cols);
    ChecksPinProducts(s.cols.selection, chs[s.challenge], traces[t], data[t][n].z);
  }

  lemma {:induction false} OfTable(t: nat, slots: seq<Slot>, n: nat)
    requires n < |Of(t, slots)|
    ensures Of(t, slots)[n].cols.table == t
  {
    if n < |Of(t, slots[..|slots| - 1])| { OfTable(t, slots[..|slots| - 1], n); }
  }

  /** Opened Z columns, one list per table. */
  type Opened = zs: seq<seq<seq<Felt>>> | |zs| == NUM_TABLES witness seq(NUM_TABLES, _ => [])

  /** Every column passes the checks of its slot on every row, whoever made it. */
  ghost predicate Passes(traces: Traces, chs: seq<Challenge>, zs: Opened, slots: seq<Slot>) {
    forall t :: 0 <= t < NUM_TABLES ==> PassesAt(traces, chs, zs[t], Of(t, slots))
  }

  ghost predicate PassesAt(traces: Traces, chs: seq<Challenge>, zs: seq<seq<Felt>>, slots: seq<Slot>) {
    |zs| == |slots| && forall n :: 0 <= n < |slots| ==> PassesSlot(traces, chs, zs[n], slots[n])
  }

  ghost predicate PassesSlot(traces: Traces, chs: seq<Challenge>, z: seq<Felt>, s: Slot) {
    && ProvableAt(traces, s.cols) && s.challenge < |chs| && |z| == |traces[s.cols.table]|
    && ChecksHold(s.cols.selection, chs[s.challenge], traces[s.cols.table], z)
  }

  /** A column that passes ends in the product of its slot, and the columns of the prover pass. */
  lemma PassingEnds(traces: Traces, chs: seq<Challenge>, z: seq<Felt>, s: Slot)
    requires ProvableAt(traces, s.cols) && s.challenge < |chs|
    ensures PassesSlot(traces, chs, z, s) ==> z != [] && z[|z| - 1] == LastOf(traces, chs, s)
    ensures z == Produce(traces, chs, s).z ==> PassesSlot(traces, chs, z, s)
  {
    hide ChecksHold, ProductTo, BinaryFilter, TableFits;
    TableOf(traces, s.cols);
    if |z| == |traces[s.cols.table]| {
      ChecksPinProducts(s.cols.selection, chs[s.challenge], traces[s.cols.table], z);
    }
    LastOfProduced(traces, chs, s);
  }

  /** The last value of each opened column. */
  method LastValues(traces: Traces, chs: seq<Challenge>, zs: Opened, ghost slots: seq<Slot>, ghost val: Slot -> Felt)
    returns (lasts: Lasts)
    requires Passes(traces, chs, zs, slots) && forall s :: val(s) == LastOf(traces, chs, s)
    ensures Carries(lasts, val, slots)
  {
    hide LastOf, Of, ProvableAt, ChecksHold;
    lasts := seq(NUM_TABLES, _ => []);
    for t := 0 to NUM_TABLES
      invariant forall u :: 0 <= u < t ==> CarriesAt(lasts[u], val, Of(u, slots))
    {
      var column: seq<Felt> := [];
      assert PassesAt(traces, chs, zs[t], Of(t, slots));
      for n := 0 to |zs[t]|
        invariant |column| == n && forall m :: 0 <= m < n ==> column[m] == val(Of(t, slots)[m])
      {
        var z := zs[t][n];
        assert PassesSlot(traces, chs, z, Of(t, slots)[n]);
        PassingEnds(traces, chs, z, Of(t, slots)[n]);
        column := column + [z[|z| - 1]];
      }
      lasts := lasts[t := column];
    }
  }

  /** The columns of the prover, as they are opened. */
  method OpenColumns(traces: Traces, chs: seq<Challenge>, data: seq<seq<ZData>>, ghost slots: seq<Slot>)
    returns (zs: Opened)
    requires Produced(traces, chs, data, slots)
    ensures Passes(traces, chs, zs, slots)
  {
    hide Of, Produce, PassesSlot, ProvableAt;
    zs := seq(NUM_TABLES, _ => []);
    for t := 0 to NUM_TABLES
      invariant forall u :: 0 <= u < t ==> PassesAt(traces, chs, zs[u], Of(u, slots))
    {
      assert ProducedAt(traces, chs, data[t], Of(t, slots));
      var columns: seq<seq<Felt>> := [];
      for n := 0 to |data[t]|
        invariant |columns| == n && forall m :: 0 <= m < n ==> PassesSlot(traces, chs, columns[m], Of(t, slots)[m])
      {
        PassingEnds(traces, chs, data[t][n].z, Of(t, slots)[n]);
        columns := columns + [data[t][n].z];
      }
      zs := zs[t := columns];
    }
  }

  // ---- soundness ----

  /** All tables of a lookup select the same number of columns. */
  predicate SameWidth(ctl: Ctl, w: nat) {
    forall j :: 0 <= j <= |ctl.looking| ==> |TableAt(ctl, j).selection.columns| == w
  }

  lemma {:induction false} ChosenWidth(s: Selection, rows: seq<Row>, n: nat)
    requires TableFits(s, rows) && n <= |rows|
    ensures AllWidth(Chosen(s, rows, n), |s.columns|)
  {
    if n > 0 { ChosenWidth(s, rows, n - 1); }
  }

  lemma {:induction false} LookingWidth(traces: Traces, ctl: Ctl, w: nat, j: nat)
    requires j <= |ctl.looking| && ProvableCtl(traces, ctl) && SameWidth(ctl, w)
    ensures AllWidth(LookingRows(traces, ctl, j), w)
  {
    hide Chosen, ProvableAt;
    if j > 0 {
      LookingWidth(traces, ctl, w, j - 1);
      LookedWidth(traces, ctl, w, j - 1);
    }
  }

  lemma LookedWidth(traces: Traces, ctl: Ctl, w: nat, j: nat)
    requires j <= |ctl.looking| && ProvableCtl(traces, ctl) && SameWidth(ctl, w)
    ensures AllWidth(RowsOf(traces, TableAt(ctl, j)), w)
  {
    hide Chosen;
    var c := TableAt(ctl, j);
    assert ProvableAt(traces, c);
    ChosenWidth(c.selection, traces[c.table], |traces[c.table]|);
  }

  /** The challenges contain every pair of enough betas and enough gammas for the rows of a lookup. */
  ghost predicate Decisive(traces: Traces, ctl: Ctl, chs: seq<Challenge>, w: nat, betas: seq<Felt>, gammas: seq<Felt>)
    requires ProvableCtl(traces, ctl)
  {
    var l := |ctl.looking|;
    var n, m := |LookingRows(traces, ctl, l)|, |RowsOf(traces, TableAt(ctl, l))|;
    && Consumer.Distinct(betas) && |betas| > n * m * w
    && Consumer.Distinct(gammas) && |gammas| > n && |gammas| > m
    && forall i, k :: 0 <= i < |betas| && 0 <= k < |gammas| ==> Challenge(betas[i], gammas[k]) in chs
  }

  lemma BalancedProducts(traces: Traces, chs: seq<Challenge>, ctls: seq<Ctl>, i: nat, c: nat, val: Slot -> Felt,
                         extra: seq<seq<Felt>>)
    requires Provable(traces, ctls) && i < |ctls| && c < |chs| && ExtraFits(extra, |chs|)
    requires forall s :: val(s) == LastOf(traces, chs, s)
    requires extra[ctls[i].looked.table][c] == 1 && Balanced(ctls, i, c, val, extra)
    ensures var l := |ctls[i].looking|;
            ProductsEqual(LookingRows(traces, ctls[i], l), RowsOf(traces, TableAt(ctls[i], l)), chs[c].beta,
                          chs[c].gamma)
  {
    hide FMul, LastOf, RowsOf, CombinedProduct, ProvableAt, LookingRows;
    var ctl, l := ctls[i], |ctls[i].looking|;
    LookingIsCombined(traces, chs, ctl, i, c, val, l);
    assert ProvableAt(traces, TableAt(ctl, l));
    LastIsCombined(traces, chs, Slot(i, c, l, TableAt(ctl, l)));
    TimesOne(LookingProduct(ctl, i, c, val, l));
    assert Challenge(chs[c].beta, chs[c].gamma) == chs[c];
  }

  /** If the equation of a lookup holds for a decisive set of challenges, its rows agree. */
  lemma BalanceMeansEqualRows(traces: Traces, chs: seq<Challenge>, ctls: seq<Ctl>, i: nat, val: Slot -> Felt,
                              extra: seq<seq<Felt>>, w: nat, betas: seq<Felt>, gammas: seq<Felt>)
    requires Provable(traces, ctls) && i < |ctls| && ExtraFits(extra, |chs|)
    requires forall s :: val(s) == LastOf(traces, chs, s)
    requires forall c :: 0 <= c < |chs| ==> extra[ctls[i].looked.table][c] == 1
    requires AllBalanced(ctls, |chs|, i, val, extra)
    requires SameWidth(ctls[i], w) && Decisive(traces, ctls[i], chs, w, betas, gammas)
    ensures RowsAgree(traces, ctls[i])
  {
    hide LastOf, RowsOf, LookingRows, ProvableAt, Balanced, SameWidth, ProductsEqual;
    var l := |ctls[i].looking|;
    var a, b := LookingRows(traces, ctls[i], l), RowsOf(traces, TableAt(ctls[i], l));
    LookingWidth(traces, ctls[i], w, l);
    LookedWidth(traces, ctls[i], w, l);
    forall x, k | 0 <= x < |betas| && 0 <= k < |gammas| ensures ProductsEqual(a, b, betas[x], gammas[k]) {
      var c :| 0 <= c < |chs| && chs[c] == Challenge(betas[x], gammas[k]);
      BalancedProducts(traces, chs, ctls, i, c, val, extra);
    }
    ProductsDecideRows(a, b, w, betas, gammas);
  }

  /** Every lookup is decided by the challenges. */
  ghost predicate AllDecided(traces: Traces, ctls: seq<Ctl>, chs: seq<Challenge>)
    requires Provable(traces, ctls)
  {
    forall i :: 0 <= i < |ctls| ==>
      exists w, betas, gammas :: SameWidth(ctls[i], w) && Decisive(traces, ctls[i], chs, w, betas, gammas)
  }

  /** The verifier on any opened columns that pass the checks, whoever made them: if the rows of every lookup agree it
      accepts; and if it accepts with challenges that decide every lookup, the rows agree. */
  method Accept(traces: Traces, ctls: seq<Ctl>, chs: seq<Challenge>, zs: Opened) returns (ok: bool)
    requires Provable(traces, ctls) && Passes(traces, chs, zs, Order(ctls, |chs|, |ctls|))
    ensures (forall i :: 0 <= i < |ctls| ==> RowsAgree(traces, ctls[i])) ==> ok
    ensures ok && AllDecided(traces, ctls, chs) ==> forall i :: 0 <= i < |ctls| ==> RowsAgree(traces, ctls[i])
  {
    hide Passes, Carries, Order, RowsAgree, Balanced, LastOf, SameWidth, Decisive;
    ghost var slots := Order(ctls, |chs|, |ctls|);
    ghost var val: Slot -> Felt := s => LastOf(traces, chs, s);
    var lasts := LastValues(traces, chs, zs, slots, val);
    var extra := seq(NUM_TABLES, _ => seq(|chs|, _ => 1));
    ok := VerifyCrossTableLookups(ctls, lasts, extra, |chs|, val);
    if forall i :: 0 <= i < |ctls| ==> RowsAgree(traces, ctls[i]) {
      forall i, c | 0 <= i < |ctls| && 0 <= c < |chs| ensures Balanced(ctls, i, c, val, extra) {
        EqualRowsBalance(traces, chs, ctls, i, c, val, extra);
      }
    }
    if ok && AllDecided(traces, ctls, chs) {
      forall i | 0 <= i < |ctls| ensures RowsAgree(traces, ctls[i]) {
        ghost var w, betas, gammas :| SameWidth(ctls[i], w) && Decisive(traces, ctls[i], chs, w, betas, gammas);
        BalanceMeansEqualRows(traces, chs, ctls, i, val, extra, w, betas, gammas);
      }
    }
  }

  /** Prover and verifier together. */
  method ProveAndVerify(traces: Traces, ctls: seq<Ctl>, chs: seq<Challenge>) returns (ok: bool)
    requires Provable(traces, ctls)
    ensures (forall i :: 0 <= i < |ctls| ==> RowsAgree(traces, ctls[i])) ==> ok
    ensures ok && AllDecided(traces, ctls, chs) ==> forall i :: 0 <= i < |ctls| ==> RowsAgree(traces, ctls[i])
  {
    hide Produced, Passes, Order, RowsAgree, AllDecided;
    var data := CrossTableLookupData(traces, ctls, chs);
    var zs := OpenColumns(traces, chs, data, Order(ctls, |chs|, |ctls|));
    ok := Accept(traces, ctls, chs, zs);
  }
}
