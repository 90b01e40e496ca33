/** The assembler and the loader put every instruction and every label where the label machine expects
    them, so the loaded program means what the assembly means. */
module AsmSound {
  import opened Common
  import opened Isa
  import opened Asm
  import opened AsmEncode
  import opened AsmMachine
  import E = Executor
  import T = TxManager

  // ---- positions in the sorted program ----

  /** Where scope s ends up when the main scope m moves to the front. */
  function Pos(m: nat, s: nat): nat { if s == m then 0 else if s < m then s + 1 else s }

  lemma PosIs(prog: Prog, sorted: Prog, m: nat, s: nat)
    requires MainFirst(prog, sorted, m) && s < |prog|
    ensures Pos(m, s) < |sorted| == |prog| && sorted[Pos(m, s)] == prog[s]
  {
  }

  /** Every place in the sorted program is the new place of some scope. */
  function Was(m: nat, p: nat): nat { if p == 0 then m else if p <= m then p - 1 else p }

  lemma WasIs(prog: Prog, sorted: Prog, m: nat, p: nat)
    requires MainFirst(prog, sorted, m) && p < |sorted|
    ensures Was(m, p) < |prog| && Pos(m, Was(m, p)) == p && prog[Was(m, p)] == sorted[p]
  {
  }

  function Base(sorted: Prog, p: nat): nat
    requires p <= |sorted|
  {
    Size(RowsOf(sorted[..p]))
  }

  function BasesOf(prog: Prog, sorted: Prog, m: nat): (b: Bases)
    requires MainFirst(prog, sorted, m)
    ensures |b| == |prog| && forall s :: 0 <= s < |prog| ==> b[s] == Base(sorted, Pos(m, s))
  {
    seq(|prog|, s requires 0 <= s < |prog| => Base(sorted, Pos(m, s)))
  }

  /** The rows of the scope at place p sit behind those of the places before it. */
  lemma {:induction false} RowsSplit(sorted: Prog, p: nat, n: nat)
    requires p < n <= |sorted|
    ensures var before := RowsOf(sorted[..p]);
            before + sorted[p].rows <= RowsOf(sorted[..n])
  {
    assert sorted[..n][..n - 1] == sorted[..n - 1];
    if p < n - 1 { RowsSplit(sorted, p, n - 1); }
  }

  /** Row k of the scope at place p, as a row of the whole program. */
  lemma RowAt(sorted: Prog, p: nat, k: nat)
    requires p < |sorted| && k <= |sorted[p].rows|
    ensures var rows, before := RowsOf(sorted), RowsOf(sorted[..p]);
            && |before| + k <= |rows| && rows[..|before| + k] == before + sorted[p].rows[..k]
            && (k < |sorted[p].rows| ==> |before| + k < |rows| && rows[|before| + k] == sorted[p].rows[k])
  {
    RowsSplit(sorted, p, |sorted|);
    assert sorted[..|sorted|] == sorted;
  }

  /** Every row of the program is a row of some scope. */
  lemma {:induction false} RowFrom(sorted: Prog, j: nat) returns (p: nat, k: nat)
    requires j < |RowsOf(sorted)|
    ensures p < |sorted| && k < |sorted[p].rows| && j == |RowsOf(sorted[..p])| + k
            && RowsOf(sorted)[j] == sorted[p].rows[k]
  {
    var n := |sorted| - 1;
    var front := sorted[..n];
    if j < |RowsOf(front)| {
      p, k := RowFrom(front, j);
      assert front[..p] == sorted[..p];
    } else {
      p, k := n, j - |RowsOf(front)|;
    }
  }

  lemma SizeAt(sorted: Prog, p: nat, k: nat)
    requires p < |sorted| && k <= |sorted[p].rows|
    ensures var rows, before := RowsOf(sorted), RowsOf(sorted[..p]);
            && |before| + k <= |rows| && Size(rows[..|before| + k]) == Base(sorted, p) + Size(sorted[p].rows[..k])
            && |Instrs(rows[..|before| + k])| == |Instrs(before)| + |Instrs(sorted[p].rows[..k])|
  {
    RowAt(sorted, p, k);
    RowsConcat(RowsOf(sorted[..p]), sorted[p].rows[..k]);
  }

  // ---- addresses of instructions ----

  lemma {:induction false} AddrIsSize(rows: seq<Row>)
    ensures AddrOf(Instrs(rows), |Instrs(rows)|) == Size(rows)
  {
    if rows != [] {
      var front, r := rows[..|rows| - 1], rows[|rows| - 1];
      AddrIsSize(front);
      AddrPrefix(Instrs(front), Instrs(rows), |Instrs(front)|);
    }
  }

  lemma {:induction false} AddrPrefix(a: seq<AsmInstr>, b: seq<AsmInstr>, n: nat)
    requires a <= b && n <= |a|
    ensures AddrOf(a, n) == AddrOf(b, n)
  {
    if n > 0 { AddrPrefix(a, b, n - 1); }
  }

  lemma {:induction false} AddrShift(a: seq<AsmInstr>, b: seq<AsmInstr>, n: nat)
    requires n <= |b|
    ensures AddrOf(a + b, |a| + n) == AddrOf(a, |a|) + AddrOf(b, n)
  {
    if n == 0 {
      AddrPrefix(a, a + b, |a|);
    } else {
      AddrShift(a, b, n - 1);
    }
  }

  /** Instruction n of the scope at place p, among all instructions. */
  lemma InstrAt(sorted: Prog, p: nat, n: nat)
    requires p < |sorted| && n <= |InstrsOf(sorted, p)|
    ensures var all, before := Instrs(RowsOf(sorted)), Instrs(RowsOf(sorted[..p]));
            && |before| + n <= |all|
            && AddrOf(all, |before| + n) == Base(sorted, p) + AddrOf(InstrsOf(sorted, p), n)
            && (n < |InstrsOf(sorted, p)| ==> |before| + n < |all| && all[|before| + n] == InstrsOf(sorted, p)[n])
  {
    hide Instrs, Size, RowsOf, AddrOf;
    var before, own := RowsOf(sorted[..p]), sorted[p].rows;
    RowsSplit(sorted, p, |sorted|);
    assert sorted[..|sorted|] == sorted;
    var rows := RowsOf(sorted);
    var rest := rows[|before + own|..];
    assert rows == before + own + rest;
    RowsConcat(before, own);
    RowsConcat(before + own, rest);
    var a, b := Instrs(before), Instrs(own);
    assert a + b <= Instrs(rows);
    AddrShift(a, b, n);
    AddrPrefix(a + b, Instrs(rows), |a| + n);
    AddrIsSize(before);
  }

  // ---- labels ----

  /** A label resolved to the size of the rows before it is resolved to the address of its position. */
  lemma TargetIs(prog: Prog, r: Row, s: nat, k: nat)
    requires UniqueLabels(prog) && !r.Ins? && HasRow(prog, s, k, r)
    ensures Target(prog, r) == Some(PtrOf(prog, s, k))
  {
    var s', k' :| HasRow(prog, s', k', r) && Target(prog, r) == Some(PtrOf(prog, s', k'));
    assert HasRow(prog, s, k, r);
  }

  /** The address of the position of a row. */
  lemma RowAddress(rows: seq<Row>, k: nat)
    requires k <= |rows|
    ensures var c := |Instrs(rows[..k])|; c <= |Instrs(rows)| && AddrOf(Instrs(rows), c) == Size(rows[..k])
  {
    hide Instrs, Size, AddrOf;
    AddrIsSize(rows[..k]);
    assert rows == rows[..k] + rows[k..];
    RowsConcat(rows[..k], rows[k..]);
    AddrPrefix(Instrs(rows[..k]), Instrs(rows), |Instrs(rows[..k])|);
  }

  lemma LabelAddress(prog: Prog, sorted: Prog, m: nat, r: Row, j: nat)
    requires MainFirst(prog, sorted, m) && UniqueLabels(prog) && !r.Ins?
    requires j < |RowsOf(sorted)| && RowsOf(sorted)[j] == r && Size(RowsOf(sorted)) <= P
    ensures Target(prog, r).Some?
    ensures Reps(prog, BasesOf(prog, sorted, m), At(Target(prog, r).value), Size(RowsOf(sorted)[..j]))
  {
    hide Instrs, Size, AddrOf, UniqueLabels, Target, RowsOf;
    var p, k := RowFrom(sorted, j);
    WasIs(prog, sorted, m, p);
    TargetIs(prog, r, Was(m, p), k);
    SizeAt(sorted, p, k);
    RowAddress(sorted[p].rows, k);
    SizeBelow(RowsOf(sorted), j);
  }

  lemma SizeBelow(rows: seq<Row>, j: nat)
    requires j <= |rows|
    ensures Size(rows[..j]) <= Size(rows)
  {
    assert rows == rows[..j] + rows[j..];
    RowsConcat(rows[..j], rows[j..]);
  }

  lemma LabelsResolved(prog: Prog, sorted: Prog, m: nat, n: nat, calls: map<string, nat>, jumps: map<string, nat>)
    requires MainFirst(prog, sorted, m) && UniqueLabels(prog) && Size(RowsOf(sorted)) <= P
    requires n <= |RowsOf(sorted)| && CallsTo(RowsOf(sorted), n, calls) && JumpsTo(RowsOf(sorted), n, jumps)
    ensures Resolved(prog, BasesOf(prog, sorted, m), calls, jumps)
  {
    hide Size, RowsOf, Reps, Target, UniqueLabels;
    var rows := RowsOf(sorted);
    forall l | l in jumps ensures LeadsTo(prog, BasesOf(prog, sorted, m), LabelJmp(l), jumps[l]) {
      var j :| 0 <= j < n && rows[j] == LabelJmp(l) && jumps[l] == Size(rows[..j]);
      LabelAddress(prog, sorted, m, LabelJmp(l), j);
    }
    forall l | l in calls ensures LeadsTo(prog, BasesOf(prog, sorted, m), LabelCall(l), calls[l]) {
      var j :| 0 <= j < n && rows[j] == LabelCall(l) && calls[l] == Size(rows[..j]);
      LabelAddress(prog, sorted, m, LabelCall(l), j);
    }
  }

  // ---- loading ----

  /** What the parser guarantees of an instruction, and what the lengths need. */
  predicate Regular(i: AsmInstr) { AsmOk(i) && (IsAccess(i.op) ==> ShapedAccess(i)) && !StrayOffset(i) }

  predicate AllRegular(instrs: seq<AsmInstr>) { forall n :: 0 <= n < |instrs| ==> Regular(instrs[n]) }

  /** Every instruction converted at its address with the prophet hosted there, and encodable. */
  predicate ConvertedAs(rel: Relocated, binary: seq<Instr>) {
    && |binary| == |rel.instrs|
    && forall n :: 0 <= n < |rel.instrs| ==> ConvertAt(rel, n) == Some(binary[n]) && Encodable(binary[n])
  }

  lemma ConvertsAll(rel: Relocated, binary: seq<Instr>)
    requires AllRegular(rel.instrs) && ConvertedAs(rel, binary)
    ensures Converts(rel.instrs, binary) && AllAssembled(binary)
  {
    hide Convert, Encodable, Assembled;
    forall n | 0 <= n < |binary| ensures ConvertsTo(rel.instrs[n], binary[n]) {
      assert Regular(rel.instrs[n]) && ConvertAt(rel, n) == Some(binary[n]);
      LengthsAgree(rel.instrs[n], rel.calls, rel.jumps, ProphetAt(rel.hosts, AddrOf(rel.instrs, n)));
    }
  }

  /** Every instruction is placed at the address the assembler counted, and is as long. */
  lemma PlacedRight(rel: Relocated, binary: seq<Instr>, n: nat)
    requires AllRegular(rel.instrs) && ConvertedAs(rel, binary) && n <= |binary|
    ensures PlacedAt(binary, n) == AddrOf(rel.instrs, n)
    ensures n < |binary| ==> Assembled(binary[n]) && Length(binary[n]) == AsmLength(rel.instrs[n])
  {
    hide PlacedAt, AddrOf, Length, AsmLength, Assembled, StrayOffset, ConvertedAs;
    ConvertsAll(rel, binary);
    forall k | 0 <= k < |binary| ensures !StrayOffset(rel.instrs[k]) { RegularIs(rel.instrs[k]); }
    AddressesAgree(rel.instrs, binary, n);
    if n < |binary| { assert ConvertsTo(rel.instrs[n], binary[n]); }
  }

  lemma RegularIs(i: AsmInstr)
    requires Regular(i)
    ensures !StrayOffset(i)
  {
  }

  lemma ConvertedProphet(rel: Relocated, binary: seq<Instr>, n: nat)
    requires ConvertedAs(rel, binary) && n < |binary|
    ensures binary[n].prophet == ProphetAt(rel.hosts, AddrOf(rel.instrs, n))
  {
    hide Convert, Encodable;
    assert ConvertAt(rel, n) == Some(binary[n]);
    ConvertKeepsProphet(rel.instrs[n], rel.calls, rel.jumps, ProphetAt(rel.hosts, AddrOf(rel.instrs, n)));
  }

  /** The prophets that are written out lead back to the instructions they were taken from. */
  lemma HostsFollow(rel: Relocated, binary: seq<Instr>)
    requires AllRegular(rel.instrs) && ConvertedAs(rel, binary)
    ensures HostsMatch(binary, HostMap(ProphetList(binary)))
  {
    hide AllRegular, ConvertedAs, PlacedAt, AddrOf, HostMap, ProphetList;
    assert |binary| == |rel.instrs| by { ConvertsAll(rel, binary); }
    forall n | 0 <= n < |binary| && binary[n].prophet.Some?
      ensures binary[n].prophet.value.host == PlacedAt(binary, n) {
      ConvertedProphet(rel, binary, n);
      PlacedRight(rel, binary, n);
    }
    OwnHostsMatch(binary, |binary|);
    assert binary[..|binary|] == binary;
  }

  /** What was written out reads back, prophets included. */
  lemma ReadsAll(rel: Relocated, binary: seq<Instr>)
    requires AllRegular(rel.instrs) && ConvertedAs(rel, binary)
    ensures AllAssembled(binary)
    ensures DecodeFrom(Bytecode(binary), 0, 0, HostMap(ProphetList(binary))) == Some(NormalAll(binary))
  {
    hide Encodable, DecodeFrom, Bytecode, Convert, Assembled, HostMap, ProphetList, HostsMatch;
    ConvertsAll(rel, binary);
    HostsFollow(rel, binary);
    ReadsBack(binary, HostMap(ProphetList(binary)), 0);
    assert NormalAll(binary)[0..] == NormalAll(binary);
  }

  /** The code has every instruction at the address the assembler counted for it, with the prophet hosted there, and
      nothing else. */
  lemma CodeAt(rel: Relocated, binary: seq<Instr>, n: nat)
    requires AllRegular(rel.instrs) && ConvertedAs(rel, binary) && n < |rel.instrs|
    ensures var code := CodeMap(NormalAll(binary), |binary|);
            AddrOf(rel.instrs, n) in code && code[AddrOf(rel.instrs, n)] == Normal(binary[n])
    ensures ConvertAt(rel, n) == Some(binary[n]) && Assembled(binary[n])
            && Length(binary[n]) == AsmLength(rel.instrs[n])
  {
    hide Convert, Encodable, Assembled, Normal, PlacedAt, AddrOf, AllRegular, Length, CodeMap;
    ConvertsAll(rel, binary);
    NormalPlaced(binary, n);
    PlacedRight(rel, binary, n);
    CodeMapAt(NormalAll(binary), |binary|);
  }

  lemma CodeIsOk(binary: seq<Instr>)
    requires AllAssembled(binary) && binary != []
    ensures T.CodeOk(CodeMap(NormalAll(binary), |binary|))
  {
    hide PlacedAt, CodeMap;
    var code := CodeMap(NormalAll(binary), |binary|);
    CodeMapAt(NormalAll(binary), |binary|);
    assert PlacedAt(NormalAll(binary), 0) in code;
    forall a | a in code ensures InstrOk(code[a]) {
      var k :| 0 <= k < |binary| && a == PlacedAt(NormalAll(binary), k);
      assert code[a] == Normal(binary[k]) && Assembled(binary[k]);
    }
  }

  // ---- prophets ----

  lemma {:induction false} AddrStrict(instrs: seq<AsmInstr>, k: nat, n: nat)
    requires k < n <= |instrs|
    ensures AddrOf(instrs, k) < AddrOf(instrs, n)
  {
    if k < n - 1 { AddrStrict(instrs, k, n - 1); }
  }

  /** The last instruction before row k, counted from zero; the first one of the program if none is before. */
  function HostIndex(rows: seq<Row>, k: nat): nat
    requires k <= |rows|
  {
    var c := |Instrs(rows[..k])|;
    if c > 0 then c - 1 else 0
  }

  /** The host of a label at row k is the address of the last instruction before it; without one it is
      the address of the first instruction of the program. */
  lemma {:induction false} HostAddress(rows: seq<Row>, k: nat)
    requires k <= |rows|
    ensures HostIndex(rows, k) <= |Instrs(rows)| && HostOf(rows, k) == AddrOf(Instrs(rows), HostIndex(rows, k))
  {
    assert rows == rows[..k] + rows[k..];
    RowsConcat(rows[..k], rows[k..]);
    if k > 0 {
      HostAddress(rows, k - 1);
      assert rows[..k] == rows[..k - 1] + [rows[k - 1]];
      RowStep(rows[..k - 1], rows[k - 1]);
      if rows[k - 1].Ins? {
        AddrIsSize(rows[..k - 1]);
        AddrPrefix(Instrs(rows[..k - 1]), Instrs(rows), |Instrs(rows[..k - 1])|);
      }
    }
  }

  /** The prophet labels among the first p rows, with the instruction before them. */
  function IndexMap(rows: seq<Row>, p: nat): map<string, nat>
    requires p <= |rows|
  {
    if p == 0 then map[] else
      var m := IndexMap(rows, p - 1);
      if rows[p - 1].LabelProphet? then m[rows[p - 1].l := HostIndex(rows, p - 1)] else m
  }

  /** Hosts are the addresses of these instructions. */
  lemma {:induction false} HostsAreIndices(rows: seq<Row>, p: nat)
    requires p <= |rows|
    ensures var hosts, at := ProphetMap(rows, p), IndexMap(rows, p);
            hosts.Keys == at.Keys
            && forall l :: l in at ==> at[l] <= |Instrs(rows)| && hosts[l] == AddrOf(Instrs(rows), at[l])
  {
    hide HostOf, HostIndex, AddrOf, Instrs;
    if p > 0 {
      HostsAreIndices(rows, p - 1);
      HostAddress(rows, p - 1);
    }
  }

  lemma {:induction false} SameLast(rows: seq<Row>, p: nat, prophets: seq<AsmProphet>, n: nat, g: nat)
    requires p <= |rows| && n <= |prophets| && g < |Instrs(rows)|
    ensures LastHosted(prophets, n, ProphetMap(rows, p), AddrOf(Instrs(rows), g))
         == LastHosted(prophets, n, IndexMap(rows, p), g)
  {
    hide AddrOf, Instrs, ProphetMap, IndexMap;
    HostsAreIndices(rows, p);
    if n > 0 {
      SameLast(rows, p, prophets, n - 1, g);
      var at, l := IndexMap(rows, p), prophets[n - 1].name;
      assert l in at.Keys <==> l in ProphetMap(rows, p).Keys;
      if l in at {
        if at[l] < g { AddrStrict(Instrs(rows), at[l], g); }
        if g < at[l] { AddrStrict(Instrs(rows), g, at[l]); }
      }
    }
  }

  /** The prophet that instruction g of the written program gets: of those whose label it comes immediately before,
      the one listed last. */
  function CarriedBy(text: seq<Row>, prophets: seq<AsmProphet>, g: nat): (k: Option<nat>)
    ensures k.Some? ==> k.value < |prophets|
  {
    LastHosted(prophets, |prophets|, IndexMap(text, Pending(text, |text|)), g)
  }

  lemma CarriedIs(text: seq<Row>, prophets: seq<AsmProphet>, g: nat)
    requires g < |Instrs(text)|
    ensures var k, a := CarriedBy(text, prophets, g), AddrOf(Instrs(text), g);
            ProphetAt(Relocation(text, prophets).hosts, a) ==
            if k.Some? then Some(Prophet(a, prophets[k.value].code)) else None
  {
    hide AddrOf, Instrs, ProphetMap, IndexMap, HostTable, LastHosted, Pending;
    SameLast(text, Pending(text, |text|), prophets, |prophets|, g);
    HostTableIs(prophets, |prophets|, Hosts(text), AddrOf(Instrs(text), g));
  }

  // ---- the whole pipeline ----

  /** A bundle assembled and loaded into an executor. */
  datatype Linked = Linked(code: E.Code, calls: map<string, nat>, jumps: map<string, nat>)

  /** The program as the label machine knows it, the order in which it is written out, its rows in that order, and
      what relocation finds. */
  function Source(rows: seq<Row>): Prog { ScopesOf(rows) }

  function Written(rows: seq<Row>): Prog { MainToFront(ScopesOf(rows)) }

  function Text(rows: seq<Row>): seq<Row> { RowsOf(Written(rows)) }

  function Found(rows: seq<Row>, prophets: seq<AsmProphet>): Relocated { Relocation(Text(rows), prophets) }

  lemma WrittenMainFirst(rows: seq<Row>)
    requires HasMain(Source(rows))
    ensures MainFirst(Source(rows), Written(rows), MainIndex(Source(rows)))
  {
  }

  predicate AllEncodable(instrs: seq<Instr>) { forall n :: 0 <= n < |instrs| ==> Encodable(instrs[n]) }

  /** Every operand converts and every instruction encodes. */
  ghost predicate Convertible(rel: Relocated) {
    forall n :: 0 <= n < |rel.instrs| ==> ConvertAt(rel, n).Some? && Encodable(ConvertAt(rel, n).value)
  }

  /** Sorting, relocating, encoding, writing out, reading back and placing. */
  function Assembly(rows: seq<Row>, prophets: seq<AsmProphet>): Option<Linked> {
    if !HasMain(Source(rows)) || !AllHosted(Text(rows), prophets) then None else
      var rel := Found(rows, prophets);
      var binary := BinaryOf(rel);
      if binary.None? || !AllEncodable(binary.value) then None else
        var read := DecodeFrom(Bytecode(binary.value), 0, 0, HostMap(ProphetList(binary.value)));
        if read.None? || read.value == [] then None
        else Some(Linked(CodeMap(read.value, |read.value|), rel.calls, rel.jumps))
  }

  /** All of it by the methods of the stages. */
  method AssembleAndLoad(rows: seq<Row>, prophets: seq<AsmProphet>) returns (r: Option<Linked>)
    ensures AtMostOneMain(Source(rows)) ==> r == Assembly(rows, prophets)
  {
    hide Encodable, CodeMap, DecodeFrom, Bytecode, ProphetList, HostMap, BinaryOf, MainToFront, MainIndex, AllHosted;
    var scopes := GenerateSortedScopes(rows);
    if scopes.None? { return None; }
    var text := FlatRows(scopes.value);
    var rel := AsmRelocate(text, prophets);
    if rel.None? { return None; }
    var binary := EncodeToBinary(rel.value);
    if binary.None? { return None; }
    var written := FromInstructions(binary.value);
    if written.None? { return None; }
    var read := DecodeProgram(written.value.0, written.value.1);
    if read.None? { return None; }
    var code := Place(read.value);
    if code.None? { return None; }
    r := Some(Linked(code.value, rel.value.calls, rel.value.jumps));
  }

  method FlatRows(scopes: seq<Scope>) returns (rows: seq<Row>)
    ensures rows == RowsOf(scopes)
  {
    rows := [];
    for i := 0 to |scopes|
      invariant rows == RowsOf(scopes[..i])
    {
      assert scopes[..i + 1][..i] == scopes[..i];
      rows := rows + scopes[i].rows;
    }
    assert scopes[..|scopes|] == scopes;
  }

  /** Assembly succeeds if and only if there is a main function and an instruction, every prophet has a label that an
      instruction follows, every label is known and every instruction encodes;
      then the code is the converted program. */
  lemma AssemblyWhen(rows: seq<Row>, prophets: seq<AsmProphet>)
    requires AllRegular(Found(rows, prophets).instrs)
    ensures var rel := Found(rows, prophets);
            Assembly(rows, prophets).Some? <==>
            HasMain(Source(rows)) && AllHosted(Text(rows), prophets) && Convertible(rel) && rel.instrs != []
  {
    hide AllRegular, Relocation, Encodable, Convert, CodeMap, DecodeFrom, Bytecode, ProphetList, HostMap, HasMain,
         AllHosted, Text, Source;
    var rel := Found(rows, prophets);
    var binary := BinaryOf(rel);
    if binary.Some? && AllEncodable(binary.value) {
      assert ConvertedAs(rel, binary.value);
      ReadsAll(rel, binary.value);
    }
  }

  lemma AssemblyIs(rows: seq<Row>, prophets: seq<AsmProphet>) returns (binary: seq<Instr>)
    requires AllRegular(Found(rows, prophets).instrs) && Assembly(rows, prophets).Some?
    ensures var rel := Found(rows, prophets);
            ConvertedAs(rel, binary) && binary != []
            && Assembly(rows, prophets).value == Linked(CodeMap(NormalAll(binary), |binary|), rel.calls, rel.jumps)
  {
    hide AllRegular, Relocation, Encodable, Convert, CodeMap, DecodeFrom, Bytecode, ProphetList, HostMap, HasMain,
         AllHosted, Text, Source;
    var rel := Found(rows, prophets);
    binary := BinaryOf(rel).value;
    ReadsAll(rel, binary);
  }

  // ---- the prophet before a label ----

  /** The loaded code carries at every instruction the prophet `CarriedBy` says, and no other one. */
  lemma ProphetsLoaded(rows: seq<Row>, prophets: seq<AsmProphet>, g: nat)
    requires AllRegular(Found(rows, prophets).instrs) && Assembly(rows, prophets).Some? && g < |Instrs(Text(rows))|
    ensures var code, text := Assembly(rows, prophets).value.code, Text(rows);
            var a, k := AddrOf(Instrs(text), g), CarriedBy(text, prophets, g);
            a in code && code[a].prophet == if k.Some? then Some(Prophet(a, prophets[k.value].code)) else None
  {
    hide Assembly, CodeMap, CarriedBy, AddrOf, Instrs, Text, AllRegular, ConvertedAs;
    var binary := AssemblyIs(rows, prophets);
    var rel := Found(rows, prophets);
    CodeAt(rel, binary, g);
    SameSize(rel, binary);
    ConvertedProphet(rel, binary, g);
    CarriedIs(Text(rows), prophets, g);
  }

  lemma SameSize(rel: Relocated, binary: seq<Instr>)
    requires ConvertedAs(rel, binary)
    ensures |binary| == |rel.instrs|
  {
  }

  /** Row j is the only row with the label of a prophet, and an instruction follows it. */
  predicate LabelledAt(text: seq<Row>, name: string, j: nat) {
    && j < Pending(text, |text|) && text[j] == LabelProphet(name)
    && forall i :: 0 <= i < |text| && text[i] == LabelProphet(name) ==> i == j
  }

  lemma {:induction false} IndexOfLabel(text: seq<Row>, name: string, j: nat, p: nat)
    requires LabelledAt(text, name, j) && p <= Pending(text, |text|)
    ensures var at := IndexMap(text, p);
            if j < p then name in at && at[name] == HostIndex(text, j) else name !in at
  {
    hide HostIndex, Pending;
    if p > 0 { IndexOfLabel(text, name, j, p - 1); }
  }

  lemma LabelInside(text: seq<Row>, name: string, j: nat)
    requires LabelledAt(text, name, j)
    ensures j < Pending(text, |text|)
  {
  }

  lemma HostInside(text: seq<Row>, j: nat)
    requires j < Pending(text, |text|)
    ensures HostIndex(text, j) < |Instrs(text)|
  {
    hide Pending, Instrs;
    var p := Pending(text, |text|);
    Counted(text, j, p - 1);
    Counted(text, p, |text|);
    RowStep(text[..p - 1], text[p - 1]);
    assert text[..p] == text[..p - 1] + [text[p - 1]] && text[..|text|] == text;
  }

  /** Longer prefixes have no fewer instructions. */
  lemma Counted(rows: seq<Row>, j: nat, k: nat)
    requires j <= k <= |rows|
    ensures |Instrs(rows[..j])| <= |Instrs(rows[..k])|
  {
    hide Instrs;
    assert rows[..k] == rows[..j] + rows[j..k];
    RowsConcat(rows[..j], rows[j..k]);
  }

  /** No prophet after the k-th has the same host. */
  predicate NoneLater(text: seq<Row>, prophets: seq<AsmProphet>, k: nat, j: nat)
    requires j <= |text|
  {
    var at := IndexMap(text, Pending(text, |text|));
    forall i :: k < i < |prophets| ==> !HostedAt(prophets, i, at, HostIndex(text, j))
  }

  /** Prophet k, whose label is in row j, is the one its host gets if and only if no later prophet has the same host;
      no other instruction gets it. */
  lemma CarriedIff(text: seq<Row>, prophets: seq<AsmProphet>, k: nat, j: nat, g: nat)
    requires k < |prophets| && LabelledAt(text, prophets[k].name, j)
    ensures CarriedBy(text, prophets, g) == Some(k) <==> g == HostIndex(text, j) && NoneLater(text, prophets, k, j)
    ensures CarriedBy(text, prophets, HostIndex(text, j)).Some?
            && k <= CarriedBy(text, prophets, HostIndex(text, j)).value
  {
    hide HostIndex, Pending, IndexMap;
    var p := Pending(text, |text|);
    IndexOfLabel(text, prophets[k].name, j, p);
    LastHostedIff(prophets, IndexMap(text, p), k);
    assert HostedAt(prophets, k, IndexMap(text, p), HostIndex(text, j));
  }

  predicate Carries(code: E.Code, a: nat, x: nat) { a in code && code[a].prophet == Some(Prophet(a, x)) }

  /** End to end: a prophet with a code of its own is in the loaded code at the instruction immediately before its
      label, if and only if there is such an instruction and no later prophet has the same host. */
  lemma ProphetBeforeLabel(rows: seq<Row>, prophets: seq<AsmProphet>, k: nat, j: nat)
    requires AllRegular(Found(rows, prophets).instrs) && Assembly(rows, prophets).Some?
    requires k < |prophets| && LabelledAt(Text(rows), prophets[k].name, j)
    requires forall i :: 0 <= i < |prophets| && prophets[i].code == prophets[k].code ==> i == k
    ensures |Instrs(Text(rows)[..j])| <= |Instrs(Text(rows))|
    ensures var text, code := Text(rows), Assembly(rows, prophets).value.code;
            var before := |Instrs(text[..j])|;
            before > 0 && Carries(code, AddrOf(Instrs(text), before - 1), prophets[k].code)
            <==> before > 0 && NoneLater(text, prophets, k, j)
  {
    hide Assembly, Text, AllRegular, CarriedBy, NoneLater, Pending, AddrOf, Instrs, LabelledAt;
    var text := Text(rows);
    LabelInside(text, prophets[k].name, j);
    HostInside(text, j);
    assert text == text[..j] + text[j..];
    RowsConcat(text[..j], text[j..]);
    var g := HostIndex(text, j);
    ProphetsLoaded(rows, prophets, g);
    CarriedIff(text, prophets, k, j, g);
  }

  /** A label before the first instruction: its prophet goes to the first instruction, which comes after it. */
  lemma LeadingProphet(rows: seq<Row>, prophets: seq<AsmProphet>, k: nat, j: nat)
    requires AllRegular(Found(rows, prophets).instrs) && Assembly(rows, prophets).Some?
    requires k < |prophets| && LabelledAt(Text(rows), prophets[k].name, j) && Instrs(Text(rows)[..j]) == []
    requires NoneLater(Text(rows), prophets, k, j)
    ensures var code := Assembly(rows, prophets).value.code;
            0 in code && code[0].prophet == Some(Prophet(0, prophets[k].code))
  {
    hide Assembly, Text, AllRegular, CarriedBy, NoneLater, Pending;
    HostInside(Text(rows), j);
    ProphetsLoaded(rows, prophets, 0);
    CarriedIff(Text(rows), prophets, k, j, 0);
  }

  /** Two labels in a row: whatever the instructions around them are, only the prophet listed last survives. */
  function TwoLabels(i: AsmInstr, a: string, b: string, e: AsmInstr): seq<Row> {
    [LabelCall("main"), Ins(i), LabelProphet(a), LabelProphet(b), Ins(e)]
  }

  lemma MainGrows(rows: seq<Row>, r: Row)
    requires ScopesOf(rows) == [Scope("main", rows)] && !r.LabelCall?
    ensures ScopesOf(rows + [r]) == [Scope("main", rows + [r])]
  {
    assert (rows + [r])[..|rows|] == rows;
  }

  lemma OnlyMain(rows: seq<Row>)
    requires Source(rows) == [Scope("main", rows)]
    ensures HasMain(Source(rows)) && Text(rows) == rows
  {
    assert MainToFront(Source(rows)) == Source(rows);
    assert Source(rows)[..0] == [];
    assert RowsOf([Scope("main", rows)]) == RowsOf([]) + rows;
  }

  lemma TwoLabelsText(i: AsmInstr, a: string, b: string, e: AsmInstr)
    ensures var rows := TwoLabels(i, a, b, e);
            && HasMain(Source(rows)) && Text(rows) == rows && Instrs(rows) == [i, e] && Pending(rows, 5) == 5
            && Instrs(rows[..2]) == Instrs(rows[..3]) == [i]
  {
    hide ScopesOf, Instrs, HasMain, Text;
    var rows := TwoLabels(i, a, b, e);
    var r := [LabelCall("main")];
    assert ScopesOf(r) == [Scope("main", r)] && Instrs(r) == [] by { OneLabel("main"); }
    MainGrows(r, Ins(i));
    RowStep(r, Ins(i));
    MainGrows(r + [Ins(i)], LabelProphet(a));
    RowStep(r + [Ins(i)], LabelProphet(a));
    MainGrows(r + [Ins(i)] + [LabelProphet(a)], LabelProphet(b));
    RowStep(r + [Ins(i)] + [LabelProphet(a)], LabelProphet(b));
    MainGrows(r + [Ins(i)] + [LabelProphet(a)] + [LabelProphet(b)], Ins(e));
    RowStep(r + [Ins(i)] + [LabelProphet(a)] + [LabelProphet(b)], Ins(e));
    assert rows[..2] == r + [Ins(i)] && rows[..3] == r + [Ins(i)] + [LabelProphet(a)];
    assert rows == r + [Ins(i)] + [LabelProphet(a)] + [LabelProphet(b)] + [Ins(e)];
    OnlyMain(rows);
  }

  lemma OneLabel(l: string)
    ensures ScopesOf([LabelCall(l)]) == [Scope(l, [LabelCall(l)])] && Instrs([LabelCall(l)]) == []
  {
    assert [LabelCall(l)][..0] == [];
    assert ScopesOf([]) == [] && Instrs([]) == [];
  }

  lemma OnlyTheLastProphet(i: AsmInstr, a: string, b: string, e: AsmInstr, x: nat, y: nat)
    requires a != b && Regular(i) && Regular(e)
    ensures var rows, prophets := TwoLabels(i, a, b, e), [AsmProphet(a, x), AsmProphet(b, y)];
            Assembly(rows, prophets).Some? ==>
              var code := Assembly(rows, prophets).value.code;
              && 0 in code && code[0].prophet == Some(Prophet(0, y))
              && AsmLength(i) in code && code[AsmLength(i)].prophet == None
  {
    hide Assembly, Source, Text, CarriedBy, Regular, NoneLater, Instrs, ScopesOf, Pending;
    var rows, prophets := TwoLabels(i, a, b, e), [AsmProphet(a, x), AsmProphet(b, y)];
    TwoLabelsText(i, a, b, e);
    if Assembly(rows, prophets).Some? {
      ProphetsLoaded(rows, prophets, 0);
      ProphetsLoaded(rows, prophets, 1);
      TwoLabelsCarried(i, a, b, e, x, y);
      assert AddrOf([i, e], 0) == 0;
      assert AddrOf([i, e], 1) == AsmLength(i);
    }
  }

  lemma TwoLabelsCarried(i: AsmInstr, a: string, b: string, e: AsmInstr, x: nat, y: nat)
    requires a != b
    ensures var rows, prophets := TwoLabels(i, a, b, e), [AsmProphet(a, x), AsmProphet(b, y)];
            CarriedBy(rows, prophets, 0) == Some(1) && CarriedBy(rows, prophets, 1) == None
  {
    hide Instrs, Source, Text, ScopesOf, Pending;
    var rows := TwoLabels(i, a, b, e);
    TwoLabelsText(i, a, b, e);
    var at := IndexMap(rows, 5);
    assert IndexMap(rows, 0) == IndexMap(rows, 1) == IndexMap(rows, 2) == map[];
    assert IndexMap(rows, 3) == map[a := 0];
    assert IndexMap(rows, 4) == map[a := 0, b := 0] == at;
  }

  /** Such a program does assemble. */
  lemma TwoLabelsAssemble()
    ensures var e := AsmInstr(End, None, None, None);
            Regular(e) && Assembly(TwoLabels(e, "a", "b", e), [AsmProphet("a", 1), AsmProphet("b", 2)]).Some?
  {
    hide Assembly, Source, Text, Pending, Instrs, ScopesOf;
    var e := AsmInstr(End, None, None, None);
    var rows, prophets := TwoLabels(e, "a", "b", e), [AsmProphet("a", 1), AsmProphet("b", 2)];
    TwoLabelsText(e, "a", "b", e);
    AssemblyWhen(rows, prophets);
    assert ProphetMap(rows, 3).Keys == {"a"};
    assert ProphetMap(rows, 5).Keys == {"a", "b"};
  }

  // ---- meaning ----

  /** Where every function starts. */
  function Layout(rows: seq<Row>): (b: Bases)
    ensures |b| == |Source(rows)|
    ensures HasMain(Source(rows)) ==> MainFirst(Source(rows), Written(rows), MainIndex(Source(rows)))
                                      && b == BasesOf(Source(rows), Written(rows), MainIndex(Source(rows)))
  {
    if HasMain(Source(rows)) then
      WrittenMainFirst(rows);
      BasesOf(Source(rows), Written(rows), MainIndex(Source(rows)))
    else seq(|Source(rows)|, _ => 0)
  }

  /** Which prophets the label machine meets, by position. */
  function AttachedTo(rows: seq<Row>, prophets: seq<AsmProphet>): Attached {
    (p: Ptr) =>
      var prog, m := Source(rows), MainIndex(Source(rows));
      if p.scope >= |prog| || p.at >= |InstrsOf(prog, p.scope)| || !HasMain(prog) then None else
        var k := CarriedBy(Text(rows), prophets, |Instrs(RowsOf(Written(rows)[..Pos(m, p.scope)]))| + p.at);
        if k.Some? then Some(prophets[k.value].code) else None
  }

  lemma SameInstrs(prog: Prog, sorted: Prog, s: nat, p: nat)
    requires s < |prog| && p < |sorted| && sorted[p] == prog[s]
    ensures InstrsOf(sorted, p) == InstrsOf(prog, s)
  {
  }

  lemma CodeLoadedAt(rows: seq<Row>, prophets: seq<AsmProphet>, binary: seq<Instr>, s: nat, n: nat)
    requires HasMain(Source(rows)) && AllRegular(Found(rows, prophets).instrs)
             && ConvertedAs(Found(rows, prophets), binary)
    requires s < |Source(rows)| && n < |InstrsOf(Source(rows), s)|
    ensures var rel := Found(rows, prophets);
            LoadedAt(Source(rows), Layout(rows), AttachedTo(rows, prophets),
                     rel.calls, rel.jumps, CodeMap(NormalAll(binary), |binary|), Ptr(s, n))
  {
    hide *;
    WrittenMainFirst(rows);
    var prog, sorted, m, rel := Source(rows), Written(rows), MainIndex(Source(rows)), Found(rows, prophets);
    PosIs(prog, sorted, m, s);
    SameInstrs(prog, sorted, s, Pos(m, s));
    InstrAt(sorted, Pos(m, s), n);
    var g := |Instrs(RowsOf(sorted[..Pos(m, s)]))| + n;
    TextIs(rows, prophets);
    CodeAt(rel, binary, g);
    CarriedIs(Text(rows), prophets, g);
    AttachedAt(rows, prophets, s, n);
    SameSize(rel, binary);
    LoadedIs(prog, Layout(rows), AttachedTo(rows, prophets), rel, CodeMap(NormalAll(binary), |binary|), Ptr(s, n), g,
             binary[g]);
  }

  lemma TextIs(rows: seq<Row>, prophets: seq<AsmProphet>)
    ensures Text(rows) == RowsOf(Written(rows)) && Found(rows, prophets) == Relocation(Text(rows), prophets)
    ensures Found(rows, prophets).instrs == Instrs(Text(rows))
  {
  }

  lemma AttachedAt(rows: seq<Row>, prophets: seq<AsmProphet>, s: nat, n: nat)
    requires HasMain(Source(rows)) && s < |Source(rows)| && n < |InstrsOf(Source(rows), s)|
    requires Pos(MainIndex(Source(rows)), s) <= |Written(rows)|
    ensures var k := CarriedBy(Text(rows), prophets,
                               |Instrs(RowsOf(Written(rows)[..Pos(MainIndex(Source(rows)), s)]))| + n);
            AttachedTo(rows, prophets)(Ptr(s, n)) == if k.Some? then Some(prophets[k.value].code) else None
  {
    hide CarriedBy, Instrs, Written, MainIndex, Source;
  }

  lemma LoadedIs(prog: Prog, base: Bases, att: Attached, rel: Relocated, code: E.Code, p: Ptr, g: nat, b: Instr)
    requires |base| == |prog| && p.scope < |prog| && p.at < |InstrsOf(prog, p.scope)| && g < |rel.instrs|
    requires rel.instrs[g] == InstrsOf(prog, p.scope)[p.at]
    requires AddrOf(rel.instrs, g) == base[p.scope] + AddrOf(InstrsOf(prog, p.scope), p.at)
    requires ConvertAt(rel, g) == Some(b) && Assembled(b) && Length(b) == AsmLength(rel.instrs[g])
    requires ProphetAt(rel.hosts, AddrOf(rel.instrs, g)) ==
             if att(p).Some? then Some(Prophet(AddrOf(rel.instrs, g), att(p).value)) else None
    requires AddrOf(rel.instrs, g) in code && code[AddrOf(rel.instrs, g)] == Normal(b)
    ensures LoadedAt(prog, base, att, rel.calls, rel.jumps, code, p)
  {
    hide Convert, Assembled, Length, AsmLength, Normal, AddrOf, Instrs, ProphetAt;
  }

  /** Every instruction and every label is where the label machine expects it, and main is at address zero. */
  lemma Linking(rows: seq<Row>, prophets: seq<AsmProphet>)
    requires UniqueLabels(Source(rows)) && AllRegular(Found(rows, prophets).instrs) && Size(Text(rows)) <= P
    requires Assembly(rows, prophets).Some?
    ensures MainIndex(Source(rows)) < |Source(rows)|
    ensures var prog, base, l := Source(rows), Layout(rows), Assembly(rows, prophets).value;
            && Loaded(prog, base, AttachedTo(rows, prophets), l.calls, l.jumps, l.code)
            && Resolved(prog, base, l.calls, l.jumps)
            && base[MainIndex(prog)] == 0 && Fits(prog, base) && T.CodeOk(l.code)
  {
    hide *;
    Started(rows, prophets);
    var prog, sorted, m := Source(rows), Written(rows), MainIndex(Source(rows));
    WrittenMainFirst(rows);
    TextIs(rows, prophets);
    Labelled(rows, prophets);
    var binary := AssemblyIs(rows, prophets);
    var rel := Found(rows, prophets);
    AllLoaded(rows, prophets, binary);
    ConvertsAll(rel, binary);
    CodeIsOk(binary);
    BaseOfMain(prog, sorted, m);
    AllFit(prog, sorted, m);
  }

  lemma Started(rows: seq<Row>, prophets: seq<AsmProphet>)
    requires Assembly(rows, prophets).Some?
    ensures HasMain(Source(rows)) && MainIndex(Source(rows)) < |Source(rows)|
  {
  }

  lemma Labelled(rows: seq<Row>, prophets: seq<AsmProphet>)
    requires UniqueLabels(Source(rows)) && Size(Text(rows)) <= P
    requires HasMain(Source(rows))
    ensures Resolved(Source(rows), Layout(rows), Found(rows, prophets).calls, Found(rows, prophets).jumps)
  {
    hide Resolved, Size, Instrs, UniqueLabels, CallsTo, JumpsTo, MainFirst, BasesOf;
    WrittenMainFirst(rows);
    var text := Text(rows);
    CallsMapped(text, Pending(text, |text|));
    JumpsMapped(text, Pending(text, |text|));
    LabelsResolved(Source(rows), Written(rows), MainIndex(Source(rows)), Pending(text, |text|),
                   Found(rows, prophets).calls, Found(rows, prophets).jumps);
  }

  lemma AllLoaded(rows: seq<Row>, prophets: seq<AsmProphet>, binary: seq<Instr>)
    requires HasMain(Source(rows)) && AllRegular(Found(rows, prophets).instrs)
             && ConvertedAs(Found(rows, prophets), binary)
    ensures var rel := Found(rows, prophets);
            Loaded(Source(rows), Layout(rows), AttachedTo(rows, prophets),
                   rel.calls, rel.jumps, CodeMap(NormalAll(binary), |binary|))
  {
    hide LoadedAt, MainFirst, AllRegular, ConvertedAs, Instrs, RowsOf, AttachedTo, CodeMap, Layout, Source, Written,
         Found, HasMain;
    var prog, rel := Source(rows), Found(rows, prophets);
    var base, att, code := Layout(rows), AttachedTo(rows, prophets), CodeMap(NormalAll(binary), |binary|);
    forall s, n | 0 <= s < |prog| && 0 <= n < |InstrsOf(prog, s)|
      ensures LoadedAt(prog, base, att, rel.calls, rel.jumps, code, Ptr(s, n))
    {
      CodeLoadedAt(rows, prophets, binary, s, n);
    }
  }

  lemma BaseOfMain(prog: Prog, sorted: Prog, m: nat)
    requires MainFirst(prog, sorted, m)
    ensures BasesOf(prog, sorted, m)[m] == 0
  {
    assert sorted[..0] == [];
  }

  lemma AllFit(prog: Prog, sorted: Prog, m: nat)
    requires MainFirst(prog, sorted, m) && Size(RowsOf(sorted)) <= P
    ensures Fits(prog, BasesOf(prog, sorted, m))
  {
    hide Size, Instrs, RowsOf;
    var base := BasesOf(prog, sorted, m);
    forall s | 0 <= s < |prog| ensures base[s] + AddrOf(InstrsOf(prog, s), |InstrsOf(prog, s)|) <= P {
      PosIs(prog, sorted, m, s);
      InstrAt(sorted, Pos(m, s), |InstrsOf(sorted, Pos(m, s))|);
      var all := Instrs(RowsOf(sorted));
      AddrIsSize(RowsOf(sorted));
      AddrGrows(all, |Instrs(RowsOf(sorted[..Pos(m, s)]))| + |InstrsOf(sorted, Pos(m, s))|, |all|);
    }
  }

  /** The start of the label machine, at the head of the main function. */
  function StartOf(m: nat): Machine {
    Machine(Ptr(m, 0), seq(REGS, _ => Word(0)), map[HEAP := Word(HEAP + 1)], PROPHETS, PROPHETS, [])
  }

  /** A new environment on the loaded code stands for the label machine at the head of main. */
  lemma StartRelated(prog: Prog, base: Bases, m: nat, mode: E.Mode, ctx: E.Context, code: E.Code)
    requires |base| == |prog| && m < |prog| && base[m] == 0 && T.CodeOk(code)
    ensures Related(prog, base, StartOf(m), T.NewEnv(mode, ctx, code))
  {
  }

  /** Meaning is preserved: however many steps the label machine takes from the head of main, in whatever mode and
      whatever other contracts do in between, a new environment on the assembled and loaded code takes the same
      number of steps, with the same calls and the same end, and leaves the same shared state and the matching
      machine. */
  lemma AssembledProgramRuns(rows: seq<Row>, prophets: seq<AsmProphet>, env: Env, back: Back, w: E.World, n: nat)
    requires UniqueLabels(Source(rows)) && AllRegular(Found(rows, prophets).instrs) && Size(Text(rows)) <= P
    requires Assembly(rows, prophets).Some? && Answers(env, Source(rows), Layout(rows))
    requires Steps(env, Source(rows), AttachedTo(rows, prophets), back, StartOf(MainIndex(Source(rows))), w, n).Some?
    ensures var x := T.NewEnv(env.mode, env.ctx, Assembly(rows, prophets).value.code);
            && x.Valid()
            && var s := Steps(env, Source(rows), AttachedTo(rows, prophets), back, StartOf(MainIndex(Source(rows))),
                              w, n).value;
            && var r := Runs(env.h, back, x, w, n);
            && r.Stepped? && r.w == s.w && r.status == s.status && Related(Source(rows), Layout(rows), s.m, r.x)
  {
    hide *;
    Linking(rows, prophets);
    var prog, m, l := Source(rows), MainIndex(Source(rows)), Assembly(rows, prophets).value;
    T.NewValid(env.mode, env.ctx, l.code);
    NewCode(env.mode, env.ctx, l.code);
    StartRelated(prog, Layout(rows), m, env.mode, env.ctx, l.code);
    StartShape(m);
    RunSimulates(env, prog, Layout(rows), AttachedTo(rows, prophets), l.calls, l.jumps, back, StartOf(m),
                 T.NewEnv(env.mode, env.ctx, l.code), w, n);
  }

  lemma NewCode(mode: E.Mode, ctx: E.Context, code: E.Code)
    ensures T.NewEnv(mode, ctx, code).code == code
  {
  }

  lemma StartShape(m: nat)
    ensures |StartOf(m).regs| == REGS
  {
  }

  /** Without two equal labels there are no two main functions. */
  lemma UniqueMain(rows: seq<Row>)
    requires UniqueLabels(Source(rows))
    ensures AtMostOneMain(Source(rows))
  {
    hide ScopesOf;
    var prog := Source(rows);
    ScopesAreRows(rows);
    forall i, j | 0 <= i < |prog| && 0 <= j < |prog| && IsMain(prog[i]) && IsMain(prog[j]) ensures i == j {
      assert ScopeOk(prog[i], i == 0) && ScopeOk(prog[j], j == 0);
      assert HasRow(prog, i, 0, LabelCall("main")) && HasRow(prog, j, 0, LabelCall("main"));
    }
  }

  /** The same for `resume`, which runs until the environment calls or ends. */
  lemma AssembledProgramResumes(rows: seq<Row>, prophets: seq<AsmProphet>, env: Env, back: Back, w: E.World, n: nat)
    requires UniqueLabels(Source(rows)) && AllRegular(Found(rows, prophets).instrs) && Size(Text(rows)) <= P
    requires Assembly(rows, prophets).Some? && Answers(env, Source(rows), Layout(rows)) && 0 < n <= E.MAX_CLK
    requires Stops(env, Source(rows), AttachedTo(rows, prophets), back, StartOf(MainIndex(Source(rows))), w, n)
    ensures var x := T.NewEnv(env.mode, env.ctx, Assembly(rows, prophets).value.code);
            && x.Valid()
            && var s := Steps(env, Source(rows), AttachedTo(rows, prophets), back, StartOf(MainIndex(Source(rows))),
                              w, n).value;
            && var r := E.Resume(env.h, x, w);
            && r.Stepped? && r.w == s.w && r.status == s.status && Related(Source(rows), Layout(rows), s.m, r.x)
  {
    hide Assembly, Layout, Related, Runs, Steps, E.Resume, AttachedTo, UniqueLabels, AllRegular, Answers, Source,
         Found, Text, Size;
    var att, m := AttachedTo(rows, prophets), StartOf(MainIndex(Source(rows)));
    var x := T.NewEnv(env.mode, env.ctx, Assembly(rows, prophets).value.code);
    forall k | 0 <= k <= n
      ensures x.Valid() && Runs(env.h, back, x, w, k).Stepped? && (k < n ==> Runs(env.h, back, x, w, k).status.Running?)
    {
      assert Steps(env, Source(rows), att, back, m, w, k).Some?;
      AssembledProgramRuns(rows, prophets, env, back, w, k);
    }
    AssembledProgramRuns(rows, prophets, env, back, w, n);
    ResumeIs(env.h, back, x, w, n);
  }

  /** The n-th step is the first that calls or ends. */
  ghost predicate Stops(env: Env, prog: Prog, att: Attached, back: Back, m: Machine, w: E.World, n: nat)
    requires |m.regs| == REGS
  {
    && (forall k :: 0 <= k <= n ==>
          Steps(env, prog, att, back, m, w, k).Some?
          && (k < n ==> Steps(env, prog, att, back, m, w, k).value.status.Running?))
    && !Steps(env, prog, att, back, m, w, n).value.status.Running?
  }
}
