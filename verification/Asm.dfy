/** Assembly: parsed rows, scopes, and relocation of labels to word addresses. */
module Asm {
  import opened Common
  import opened Isa

  datatype AsmOperand =
    | AImm(v: nat) | AReg(r: nat) | AOffset(r: nat, offset: nat) | AFactored(r: nat, index: nat, factor: nat)
    | ASpecial | ALabel(l: string) | AIdent(l: string)

  datatype AsmInstr = AsmInstr(op: Opcode, op0: Option<AsmOperand>, op1: Option<AsmOperand>, dst: Option<AsmOperand>)

  datatype Row = Ins(i: AsmInstr) | LabelCall(l: string) | LabelJmp(l: string) | LabelProphet(l: string)

  predicate TakesWord(o: Option<AsmOperand>) {
    o.Some? && (o.value.AImm? || o.value.AOffset? || o.value.AFactored? || o.value.ALabel? || o.value.AIdent?)
  }

  /** `OlaAsmInstruction::binary_length`. */
  function AsmLength(i: AsmInstr): nat {
    1 + (if TakesWord(i.op0) then 1 else 0) + (if TakesWord(i.op1) then 1 else 0)
  }

  /** The instructions of some rows, and the number of words they take. */
  function Instrs(rows: seq<Row>): seq<AsmInstr> {
    if rows == [] then [] else
      var r := rows[|rows| - 1];
      Instrs(rows[..|rows| - 1]) + if r.Ins? then [r.i] else []
  }

  function Size(rows: seq<Row>): nat {
    if rows == [] then 0 else
      var r := rows[|rows| - 1];
      Size(rows[..|rows| - 1]) + if r.Ins? then AsmLength(r.i) else 0
  }

  lemma RowStep(rows: seq<Row>, r: Row)
    ensures Instrs(rows + [r]) == Instrs(rows) + (if r.Ins? then [r.i] else [])
    ensures Size(rows + [r]) == Size(rows) + (if r.Ins? then AsmLength(r.i) else 0)
  {
    assert (rows + [r])[..|rows|] == rows;
  }

  lemma {:induction false} RowsConcat(a: seq<Row>, b: seq<Row>)
    ensures Instrs(a + b) == Instrs(a) + Instrs(b) && Size(a + b) == Size(a) + Size(b)
  {
    if b == [] {
      assert a + b == a;
    } else {
      var n := |b| - 1;
      RowsConcat(a, b[..n]);
      assert (a + b)[..|a + b| - 1] == a + b[..n];
    }
  }

  // ---- scopes ----

  /** A function: its label and its rows, the label row included. */
  datatype Scope = Scope(name: string, rows: seq<Row>)

  function RowsOf(scopes: seq<Scope>): seq<Row> {
    if scopes == [] then [] else RowsOf(scopes[..|scopes| - 1]) + scopes[|scopes| - 1].rows
  }

  /** Rows that come before any function, or a function that starts with its own label; either way no
      other function label inside. */
  predicate ScopeOk(s: Scope, first: bool) {
    && s.rows != []
    && (if s.rows[0].LabelCall? then s.name == s.rows[0].l else first && s.name == "")
    && forall k :: 0 < k < |s.rows| ==> !s.rows[k].LabelCall?
  }

  predicate ScopesOk(scopes: seq<Scope>) {
    forall i :: 0 <= i < |scopes| ==> ScopeOk(scopes[i], i == 0)
  }

  lemma ScopeStep(scopes: seq<Scope>, s: Scope)
    ensures RowsOf(scopes + [s]) == RowsOf(scopes) + s.rows
  {
    assert (scopes + [s])[..|scopes|] == scopes;
  }

  /** A function label opens a scope; any other row belongs to the last one. */
  function AddRow(s: seq<Scope>, row: Row): seq<Scope> {
    if row.LabelCall? then s + [Scope(row.l, [row])]
    else if s == [] then [Scope("", [row])]
    else
      var n := |s| - 1;
      s[..n] + [Scope(s[n].name, s[n].rows + [row])]
  }

  /** The rows cut into scopes at every function label. */
  function ScopesOf(rows: seq<Row>): seq<Scope> {
    if rows == [] then [] else AddRow(ScopesOf(rows[..|rows| - 1]), rows[|rows| - 1])
  }

  lemma RowAdded(s: seq<Scope>, row: Row)
    requires ScopesOk(s)
    ensures RowsOf(AddRow(s, row)) == RowsOf(s) + [row] && ScopesOk(AddRow(s, row))
  {
    hide RowsOf;
    if row.LabelCall? {
      ScopeStep(s, Scope(row.l, [row]));
    } else if s == [] {
      ScopeStep([], Scope("", [row]));
      assert [] + [Scope("", [row])] == AddRow(s, row);
    } else {
      var n := |s| - 1;
      assert s == s[..n] + [s[n]];
      ScopeStep(s[..n], s[n]);
      ScopeStep(s[..n], Scope(s[n].name, s[n].rows + [row]));
      assert ScopeOk(s[n], n == 0);
    }
  }

  /** Nothing is lost and nothing is moved. */
  lemma {:induction false} ScopesAreRows(rows: seq<Row>)
    ensures RowsOf(ScopesOf(rows)) == rows && ScopesOk(ScopesOf(rows))
  {
    hide AddRow, ScopeOk;
    if rows != [] {
      var n := |rows| - 1;
      ScopesAreRows(rows[..n]);
      RowAdded(ScopesOf(rows[..n]), rows[n]);
      assert rows == rows[..n] + [rows[n]];
    }
  }

  /** The scopes closed so far and the one still open. */
  function Closed(scopes: seq<Scope>, name: string, current: seq<Row>): seq<Scope> {
    if current == [] then scopes else scopes + [Scope(name, current)]
  }

  method SplitScopes(rows: seq<Row>) returns (scopes: seq<Scope>)
    ensures scopes == ScopesOf(rows)
  {
    scopes := [];
    var name, current := "", [];
    for n := 0 to |rows|
      invariant Closed(scopes, name, current) == ScopesOf(rows[..n])
      invariant current == [] ==> scopes == [] && name == ""
    {
      assert rows[..n + 1][..n] == rows[..n];
      ghost var before := Closed(scopes, name, current);
      assert before != [] ==> before[..|before| - 1] == scopes;
      if rows[n].LabelCall? {
        if current != [] { scopes := scopes + [Scope(name, current)]; }
        name, current := rows[n].l, [rows[n]];
      } else {
        current := current + [rows[n]];
        assert before == [] ==> current == [rows[n]] && scopes + [Scope(name, current)] == [Scope(name, current)];
      }
      assert Closed(scopes, name, current) == AddRow(before, rows[n]);
    }
    assert rows[..|rows|] == rows;
    if current != [] { scopes := scopes + [Scope(name, current)]; }
  }

  predicate IsMain(s: Scope) { s.name == "main" }

  /** The only main scope, if there is one. */
  predicate AtMostOneMain(scopes: seq<Scope>) {
    forall i, j :: 0 <= i < |scopes| && 0 <= j < |scopes| && IsMain(scopes[i]) && IsMain(scopes[j]) ==> i == j
  }

  predicate MainFirst(scopes: seq<Scope>, sorted: seq<Scope>, m: nat) {
    m < |scopes| && IsMain(scopes[m]) && sorted == [scopes[m]] + scopes[..m] + scopes[m + 1..]
  }

  lemma InsertFirst(scopes: seq<Scope>, i: nat, sorted: seq<Scope>, before: seq<Scope>)
    requires i < |scopes| && before == scopes[..i] && sorted == before[..0] + [scopes[i]] + before[0..]
    ensures sorted == [scopes[i]] + scopes[..i] + scopes[i + 1..i + 1]
  {
    assert before[..0] == [] && before[0..] == before && scopes[i + 1..i + 1] == [];
  }

  lemma AppendLast(scopes: seq<Scope>, i: nat, m: nat, sorted: seq<Scope>, before: seq<Scope>)
    requires m < i < |scopes| && before == [scopes[m]] + scopes[..m] + scopes[m + 1..i]
             && sorted == before + [scopes[i]]
    ensures sorted == [scopes[m]] + scopes[..m] + scopes[m + 1..i + 1]
  {
    assert scopes[m + 1..i + 1] == scopes[m + 1..i] + [scopes[i]];
  }

  /** The stable sort of the scopes: a main scope is less than any other, all others are equal. */
  method SortScopes(scopes: seq<Scope>) returns (sorted: seq<Scope>)
    requires AtMostOneMain(scopes)
    ensures (forall i :: 0 <= i < |scopes| ==> !IsMain(scopes[i])) ==> sorted == scopes
    ensures forall m :: 0 <= m < |scopes| && IsMain(scopes[m]) ==> MainFirst(scopes, sorted, m)
  {
    sorted := [];
    for i := 0 to |scopes|
      invariant |sorted| == i
      invariant (forall k :: 0 <= k < i ==> !IsMain(scopes[k])) ==> sorted == scopes[..i]
      invariant forall m :: 0 <= m < i && IsMain(scopes[m]) ==> sorted == [scopes[m]] + scopes[..m] + scopes[m + 1..i]
    {
      // insert scopes[i] after everything it is not less than
      var j := i;
      while j > 0 && IsMain(scopes[i])
        invariant 0 <= j <= i && (!IsMain(scopes[i]) ==> j == i)
      {
        j := j - 1;
      }
      ghost var before := sorted;
      sorted := sorted[..j] + [scopes[i]] + sorted[j..];
      if IsMain(scopes[i]) {
        assert before == scopes[..i] && j == 0;
        InsertFirst(scopes, i, sorted, before);
      } else {
        assert sorted == before + [scopes[i]] by { assert before[..i] == before && before[i..] == []; }
        forall m | 0 <= m < i && IsMain(scopes[m])
          ensures sorted == [scopes[m]] + scopes[..m] + scopes[m + 1..i + 1]
        {
          AppendLast(scopes, i, m, sorted, before);
        }
        assert scopes[..i + 1] == scopes[..i] + [scopes[i]];
      }
    }
    assert scopes[..|scopes|] == scopes;
    forall m | 0 <= m < |scopes| && IsMain(scopes[m]) ensures MainFirst(scopes, sorted, m) {
      assert scopes[m + 1..|scopes|] == scopes[m + 1..];
    }
  }

  /** The first main scope, or the number of scopes. */
  function MainIndex(scopes: seq<Scope>): (m: nat)
    ensures m <= |scopes| && (m < |scopes| ==> IsMain(scopes[m]))
    ensures forall i :: 0 <= i < m ==> !IsMain(scopes[i])
  {
    if scopes == [] || IsMain(scopes[0]) then 0 else 1 + MainIndex(scopes[1..])
  }

  predicate HasMain(scopes: seq<Scope>) { MainIndex(scopes) < |scopes| }

  function MainToFront(scopes: seq<Scope>): seq<Scope> {
    var m := MainIndex(scopes);
    if m < |scopes| then [scopes[m]] + scopes[..m] + scopes[m + 1..] else scopes
  }

  /** Fails without a main scope; otherwise the main scope comes first and the others keep their order. */
  method GenerateSortedScopes(rows: seq<Row>) returns (r: Option<seq<Scope>>)
    ensures AtMostOneMain(ScopesOf(rows)) ==>
              r == if HasMain(ScopesOf(rows)) then Some(MainToFront(ScopesOf(rows))) else None
  {
    var scopes := SplitScopes(rows);
    // with two main scopes the comparison is no order, and the result of the sort is unspecified
    if !AtMostOneMain(scopes) { return None; }
    var sorted := SortScopes(scopes);
    assert HasMain(scopes) ==> MainFirst(scopes, sorted, MainIndex(scopes));
    if sorted == [] || !IsMain(sorted[0]) { return None; }
    r := Some(sorted);
  }

  // ---- relocation ----

  datatype AsmProphet = AsmProphet(name: string, code: nat)

  /** The rows after which no instruction follows within the first n. */
  function Pending(rows: seq<Row>, n: nat): (p: nat)
    requires n <= |rows|
    ensures p <= n && forall k :: p <= k < n ==> !rows[k].Ins?
    ensures p > 0 ==> rows[p - 1].Ins?
  {
    if n == 0 || rows[n - 1].Ins? then n else Pending(rows, n - 1)
  }

  /** Where the instruction before row p starts, or the start of the program. */
  function HostOf(rows: seq<Row>, p: nat): nat
    requires p <= |rows|
  {
    if p == 0 then 0 else if rows[p - 1].Ins? then Size(rows[..p - 1]) else HostOf(rows, p - 1)
  }

  /** Labels among the first p rows and what they map to. */
  predicate CallsTo(rows: seq<Row>, p: nat, m: map<string, nat>)
    requires p <= |rows|
  {
    && (forall k :: 0 <= k < p && rows[k].LabelCall? ==> rows[k].l in m)
    && (forall l :: l in m ==> exists k :: 0 <= k < p && rows[k] == LabelCall(l) && m[l] == Size(rows[..k]))
  }

  predicate JumpsTo(rows: seq<Row>, p: nat, m: map<string, nat>)
    requires p <= |rows|
  {
    && (forall k :: 0 <= k < p && rows[k].LabelJmp? ==> rows[k].l in m)
    && (forall l :: l in m ==> exists k :: 0 <= k < p && rows[k] == LabelJmp(l) && m[l] == Size(rows[..k]))
  }

  predicate ProphetsTo(rows: seq<Row>, p: nat, m: map<string, nat>)
    requires p <= |rows|
  {
    && (forall k :: 0 <= k < p && rows[k].LabelProphet? ==> rows[k].l in m)
    && (forall l :: l in m ==> exists k :: 0 <= k < p && rows[k] == LabelProphet(l) && m[l] == HostOf(rows, k))
  }

  lemma {:induction false} NoSizeBetween(rows: seq<Row>, k: nat, n: nat)
    requires k <= n <= |rows| && forall i :: k <= i < n ==> !rows[i].Ins?
    ensures Size(rows[..k]) == Size(rows[..n]) && HostOf(rows, k) == HostOf(rows, n)
  {
    if k < n {
      NoSizeBetween(rows, k, n - 1);
      assert rows[..n] == rows[..n - 1] + [rows[n - 1]];
      RowStep(rows[..n - 1], rows[n - 1]);
    }
  }

  /** The function labels among the first p rows with the address of the next instruction; of equal labels
      the last one counts. */
  function CallMap(rows: seq<Row>, p: nat): map<string, nat>
    requires p <= |rows|
  {
    if p == 0 then map[] else
      var m := CallMap(rows, p - 1);
      if rows[p - 1].LabelCall? then m[rows[p - 1].l := Size(rows[..p - 1])] else m
  }

  function JumpMap(rows: seq<Row>, p: nat): map<string, nat>
    requires p <= |rows|
  {
    if p == 0 then map[] else
      var m := JumpMap(rows, p - 1);
      if rows[p - 1].LabelJmp? then m[rows[p - 1].l := Size(rows[..p - 1])] else m
  }

  /** The prophet labels with the address of the instruction before them. */
  function ProphetMap(rows: seq<Row>, p: nat): map<string, nat>
    requires p <= |rows|
  {
    if p == 0 then map[] else
      var m := ProphetMap(rows, p - 1);
      if rows[p - 1].LabelProphet? then m[rows[p - 1].l := HostOf(rows, p - 1)] else m
  }

  lemma {:induction false} CallsMapped(rows: seq<Row>, p: nat)
    requires p <= |rows|
    ensures CallsTo(rows, p, CallMap(rows, p))
  {
    hide Size;
    if p > 0 { CallsMapped(rows, p - 1); }
  }

  lemma {:induction false} JumpsMapped(rows: seq<Row>, p: nat)
    requires p <= |rows|
    ensures JumpsTo(rows, p, JumpMap(rows, p))
  {
    hide Size;
    if p > 0 { JumpsMapped(rows, p - 1); }
  }

  lemma {:induction false} ProphetsMapped(rows: seq<Row>, p: nat)
    requires p <= |rows|
    ensures ProphetsTo(rows, p, ProphetMap(rows, p))
  {
    hide HostOf;
    if p > 0 { ProphetsMapped(rows, p - 1); }
  }

  /** An instruction at row n resolves every label that waits for it. */
  method ResolveLabels(rows: seq<Row>, n: nat, counter: nat, oriCounter: nat,
                       calls: map<string, nat>, jumps: map<string, nat>, prophets: map<string, nat>, stack: seq<Row>)
    returns (calls': map<string, nat>, jumps': map<string, nat>, prophets': map<string, nat>)
    requires n <= |rows| && counter == Size(rows[..n]) && oriCounter == HostOf(rows, n)
    requires var p := Pending(rows, n);
             stack == rows[p..n] && calls == CallMap(rows, p) && jumps == JumpMap(rows, p)
             && prophets == ProphetMap(rows, p)
    ensures calls' == CallMap(rows, n) && jumps' == JumpMap(rows, n) && prophets' == ProphetMap(rows, n)
  {
    hide Size, HostOf, Pending;
    ghost var p := Pending(rows, n);
    calls', jumps', prophets' := calls, jumps, prophets;
    for i := 0 to |stack|
      invariant calls' == CallMap(rows, p + i) && jumps' == JumpMap(rows, p + i) && prophets' == ProphetMap(rows, p + i)
    {
      NoSizeBetween(rows, p + i, n);
      assert stack[i] == rows[p + i];
      match stack[i] {
        case LabelCall(l) => calls' := calls'[l := counter];
        case LabelJmp(l) => jumps' := jumps'[l := counter];
        case LabelProphet(l) => prophets' := prophets'[l := oriCounter];
        case Ins(_) =>
      }
    }
  }

  datatype Relocated = Relocated(instrs: seq<AsmInstr>, hosts: map<nat, AsmProphet>, calls: map<string, nat>,
                                 jumps: map<string, nat>)

  /** What the walk over the rows knows after n of them. */
  datatype Walk = Walk(instrs: seq<AsmInstr>, counter: nat, oriCounter: nat, stack: seq<Row>,
                       calls: map<string, nat>, jumps: map<string, nat>, prophets: map<string, nat>)

  predicate Walked(rows: seq<Row>, n: nat, w: Walk)
    requires n <= |rows|
  {
    var p := Pending(rows, n);
    && w.instrs == Instrs(rows[..n]) && w.counter == Size(rows[..n]) && w.oriCounter == HostOf(rows, n)
    && w.stack == rows[p..n]
    && w.calls == CallMap(rows, p) && w.jumps == JumpMap(rows, p) && w.prophets == ProphetMap(rows, p)
  }

  /** A label waits. */
  lemma AfterLabel(rows: seq<Row>, n: nat)
    requires n < |rows| && !rows[n].Ins?
    ensures Pending(rows, n + 1) == Pending(rows, n) && HostOf(rows, n + 1) == HostOf(rows, n)
  {
  }

  lemma WalkedLabel(rows: seq<Row>, n: nat, w: Walk)
    requires n < |rows| && Walked(rows, n, w) && !rows[n].Ins?
    ensures Walked(rows, n + 1, w.(stack := w.stack + [rows[n]]))
  {
    hide Size, Instrs, CallMap, JumpMap, ProphetMap, Pending, HostOf;
    var p := Pending(rows, n);
    AfterLabel(rows, n);
    assert rows[p..n + 1] == rows[p..n] + [rows[n]];
    assert rows[..n + 1] == rows[..n] + [rows[n]];
    RowStep(rows[..n], rows[n]);
    assert Instrs(rows[..n]) + [] == Instrs(rows[..n]);
  }

  /** An instruction resolves what waits. */
  /** An instruction is no label, and nothing waits after it. */
  lemma AfterInstr(rows: seq<Row>, n: nat)
    requires n < |rows| && rows[n].Ins?
    ensures CallMap(rows, n + 1) == CallMap(rows, n) && JumpMap(rows, n + 1) == JumpMap(rows, n)
    ensures ProphetMap(rows, n + 1) == ProphetMap(rows, n)
    ensures Pending(rows, n + 1) == n + 1 && HostOf(rows, n + 1) == Size(rows[..n])
  {
    hide Size;
  }

  /** An instruction resolves what waits. */
  lemma WalkedInstr(rows: seq<Row>, n: nat, w: Walk, r: Walk)
    requires n < |rows| && Walked(rows, n, w) && rows[n].Ins?
    requires r.calls == CallMap(rows, n) && r.jumps == JumpMap(rows, n) && r.prophets == ProphetMap(rows, n)
    requires r.instrs == w.instrs + [rows[n].i] && r.counter == w.counter + AsmLength(rows[n].i)
    requires r.oriCounter == w.counter && r.stack == []
    ensures Walked(rows, n + 1, r)
  {
    hide Size, Instrs, CallMap, JumpMap, ProphetMap, Pending, HostOf, AsmLength;
    AfterInstr(rows, n);
    assert rows[n + 1..n + 1] == [];
    assert rows[..n + 1] == rows[..n] + [rows[n]];
    RowStep(rows[..n], rows[n]);
  }

  method WalkRow(rows: seq<Row>, n: nat, w: Walk) returns (r: Walk)
    requires n < |rows| && Walked(rows, n, w)
    ensures Walked(rows, n + 1, r)
  {
    hide Size, Instrs, CallMap, JumpMap, ProphetMap, Pending, HostOf;
    match rows[n] {
      case Ins(i) =>
        var calls, jumps, prophets :=
          ResolveLabels(rows, n, w.counter, w.oriCounter, w.calls, w.jumps, w.prophets, w.stack);
        r := Walk(w.instrs + [i], w.counter + AsmLength(i), w.counter, [], calls, jumps, prophets);
        WalkedInstr(rows, n, w, r);
      case _ =>
        WalkedLabel(rows, n, w);
        r := w.(stack := w.stack + [rows[n]]);
    }
  }

  method WalkRows(rows: seq<Row>) returns (w: Walk)
    ensures Walked(rows, |rows|, w)
  {
    hide Walked;
    w := Walk([], 0, 0, [], map[], map[], map[]);
    NothingWalked(rows, w);
    for n := 0 to |rows|
      invariant Walked(rows, n, w)
    {
      w := WalkRow(rows, n, w);
    }
  }

  lemma NothingWalked(rows: seq<Row>, w: Walk)
    requires w == Walk([], 0, 0, [], map[], map[], map[])
    ensures Walked(rows, 0, w)
  {
  }

  /** The first n prophets under the hosts of their labels; of prophets with the same host the last one counts. */
  function HostTable(prophets: seq<AsmProphet>, n: nat, hosts: map<string, nat>): map<nat, AsmProphet>
    requires n <= |prophets|
  {
    if n == 0 then map[] else
      var t, p := HostTable(prophets, n - 1, hosts), prophets[n - 1];
      if p.name in hosts then t[hosts[p.name] := p] else t
  }

  /** The prophet labels that an instruction follows. */
  function Hosts(rows: seq<Row>): map<string, nat> { ProphetMap(rows, Pending(rows, |rows|)) }

  predicate AllHosted(rows: seq<Row>, prophets: seq<AsmProphet>) {
    forall i :: 0 <= i < |prophets| ==> prophets[i].name in Hosts(rows)
  }

  /** Everything relocation finds out. */
  function Relocation(rows: seq<Row>, prophets: seq<AsmProphet>): Relocated {
    var p := Pending(rows, |rows|);
    Relocated(Instrs(rows), HostTable(prophets, |prophets|, Hosts(rows)), CallMap(rows, p), JumpMap(rows, p))
  }

  /** `asm_relocate` on the sorted rows. Function and jump labels go to the address of the instruction
      after them; a prophet goes to the instruction before its label. Labels at the very end, with no
      instruction after them, go nowhere, and a prophet with such a label is an error. */
  method AsmRelocate(rows: seq<Row>, prophets: seq<AsmProphet>) returns (r: Option<Relocated>)
    ensures r == if AllHosted(rows, prophets) then Some(Relocation(rows, prophets)) else None
  {
    hide Pending, Size, Instrs, CallMap, JumpMap, ProphetMap;
    var w := WalkRows(rows);
    assert rows[..|rows|] == rows;
    var table: map<nat, AsmProphet> := map[];
    for i := 0 to |prophets|
      invariant table == HostTable(prophets, i, w.prophets)
      invariant forall k :: 0 <= k < i ==> prophets[k].name in w.prophets
    {
      if prophets[i].name !in w.prophets { return None; }
      table := table[w.prophets[prophets[i].name] := prophets[i]];
    }
    r := Some(Relocated(w.instrs, table, w.calls, w.jumps));
  }

  /** The last of the first n prophets whose label has a given host. */
  function LastHosted(prophets: seq<AsmProphet>, n: nat, hosts: map<string, nat>, a: nat): (r: Option<nat>)
    requires n <= |prophets|
    ensures r.Some? ==> r.value < n && HostedAt(prophets, r.value, hosts, a)
    ensures forall k :: 0 <= k < n && HostedAt(prophets, k, hosts, a) ==> r.Some? && k <= r.value
  {
    if n == 0 then None
    else if HostedAt(prophets, n - 1, hosts, a) then Some(n - 1)
    else LastHosted(prophets, n - 1, hosts, a)
  }

  predicate HostedAt(prophets: seq<AsmProphet>, k: nat, hosts: map<string, nat>, a: nat)
    requires k < |prophets|
  {
    prophets[k].name in hosts && hosts[prophets[k].name] == a
  }

  /** Exactly the last prophet with a given host is kept under it. */
  lemma {:induction false} HostTableIs(prophets: seq<AsmProphet>, n: nat, hosts: map<string, nat>, a: nat)
    requires n <= |prophets|
    ensures var t, k := HostTable(prophets, n, hosts), LastHosted(prophets, n, hosts, a);
            (a in t <==> k.Some?) && (k.Some? ==> t[a] == prophets[k.value])
  {
    if n > 0 { HostTableIs(prophets, n - 1, hosts, a); }
  }

  /** A prophet is the last one with its host, if and only if no later one has the same host. */
  lemma LastHostedIff(prophets: seq<AsmProphet>, hosts: map<string, nat>, k: nat)
    requires k < |prophets| && prophets[k].name in hosts
    ensures LastHosted(prophets, |prophets|, hosts, hosts[prophets[k].name]) == Some(k) <==>
            forall j :: k < j < |prophets| ==> !HostedAt(prophets, j, hosts, hosts[prophets[k].name])
  {
    var a := hosts[prophets[k].name];
    assert HostedAt(prophets, k, hosts, a);
    var r := LastHosted(prophets, |prophets|, hosts, a);
    if r != Some(k) { assert k < r.value < |prophets| && HostedAt(prophets, r.value, hosts, a); }
  }

  /** Row q is the last instruction before row k. */
  predicate LastInstr(rows: seq<Row>, k: nat, q: nat)
    requires k <= |rows|
  {
    q < k && rows[q].Ins? && forall j :: q < j < k ==> !rows[j].Ins?
  }

  /** The host of a prophet label is the instruction immediately before it. */
  lemma {:induction false} HostIsBefore(rows: seq<Row>, k: nat, q: nat)
    requires k <= |rows| && LastInstr(rows, k, q)
    ensures HostOf(rows, k) == Size(rows[..q])
  {
    hide Size;
    if q < k - 1 { HostIsBefore(rows, k - 1, q); }
  }

  /** A label before the first instruction gets the first instruction, which comes after it. */
  lemma {:induction false} HostOfLeadingLabel(rows: seq<Row>, k: nat)
    requires k <= |rows| && forall q :: 0 <= q < k ==> !rows[q].Ins?
    ensures HostOf(rows, k) == 0 == Size(rows[..k])
  {
    if k > 0 {
      HostOfLeadingLabel(rows, k - 1);
      assert rows[..k] == rows[..k - 1] + [rows[k - 1]];
      RowStep(rows[..k - 1], rows[k - 1]);
    }
  }
}
