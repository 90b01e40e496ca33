/** The program-chunk table: the words of all programs, eight to a row, hashed as a sponge, and every constraint of
    `ProgChunkStark` on it. */
module ProgChunk {
  import opened Goldilocks
  import opened Air
  import opened Sponge
  import T = MemoryTrace

  const CAP: nat := 4

  type Addr = s: seq<Felt> | |s| == 4 witness [0, 0, 0, 0]

  datatype Prog = Prog(addr: Addr, words: seq<Felt>)

  datatype Row = Row(addr: seq<int>, startPc: int, inst: seq<int>, cap: seq<int>, hash: seq<int>, first: int,
                     result: int, filters: seq<int>, pad: int)
  {
    predicate Shaped() { |addr| == 4 && |inst| == |filters| == RATE && |cap| == CAP && |hash| == WIDTH }
  }

  // ---- constraints ----

  predicate LocalHolds(lv: Row)
    requires lv.Shaped()
  {
    && Zero2(lv.pad, 1 - lv.pad)
    && Zero2(lv.first, lv.startPc)
    && (forall j :: 0 <= j < CAP ==> Zero2(lv.first, lv.cap[j]))
    && FiltersHold(lv.pad, lv.result, lv.filters)
  }

  /** All words of a row that is no result are looked up; in a result row the first ones are. */
  predicate FiltersHold(pad: int, result: int, filters: seq<int>)
    requires |filters| == RATE
  {
    && (forall j :: 0 <= j < RATE ==> Zero2(filters[j], 1 - filters[j]) && Zero3(1 - pad, 1 - result, 1 - filters[j]))
    && Zero2(result, 1 - filters[0])
    && (forall j :: 0 <= j < RATE - 1 ==> Falls(result, filters, j))
  }

  predicate Falls(result: int, filters: seq<int>, j: nat)
    requires j + 1 < |filters|
  {
    Zero3(result, filters[j] - filters[j + 1], 1 - (filters[j] - filters[j + 1]))
  }

  /** The capacity goes on inside a program; emitted for the last row too, which is followed by the first. */
  predicate ChainHolds(lv: Row, nv: Row)
    requires lv.Shaped() && nv.Shaped()
  {
    forall j :: 0 <= j < CAP ==> Zero3(1 - nv.pad, 1 - nv.first, nv.cap[j] - lv.hash[RATE + j])
  }

  predicate TransitionHolds(lv: Row, nv: Row)
    requires lv.Shaped() && nv.Shaped()
  {
    && Zero2(nv.pad - lv.pad, nv.pad - lv.pad - 1)
    && Zero3(1 - nv.pad, 1 - lv.result, nv.first)
    && Zero3(1 - nv.pad, lv.result, 1 - nv.first)
    && (forall j :: 0 <= j < 4 ==> Zero3(1 - nv.pad, 1 - lv.result, nv.addr[j] - lv.addr[j]))
    && Zero3(1 - nv.pad, 1 - lv.result, nv.startPc - lv.startPc - RATE)
  }

  predicate FirstRowHolds(lv: Row) { Zero2(1 - lv.pad, 1 - lv.first) }

  predicate AllShaped(t: seq<Row>) { forall i :: 0 <= i < |t| ==> t[i].Shaped() }

  /** Row i of the table and the row after it, the last row being followed by the first. */
  predicate RowHolds(t: seq<Row>, i: nat)
    requires AllShaped(t) && i < |t|
  {
    var nv := t[if i + 1 < |t| then i + 1 else 0];
    LocalHolds(t[i]) && ChainHolds(t[i], nv) && (i + 1 < |t| ==> TransitionHolds(t[i], nv))
    && (i == 0 ==> FirstRowHolds(t[i]))
  }

  predicate TableHolds(t: seq<Row>)
    requires AllShaped(t)
  {
    forall i :: 0 <= i < |t| ==> RowHolds(t, i)
  }

  // ---- generation ----

  datatype Chunk = Chunk(addr: Addr, startPc: nat, words: seq<Felt>, isFirst: bool, isResult: bool)

  function Count(n: nat): nat { (n + RATE - 1) / RATE }

  function Cut(n: nat, k: nat): nat { Least(RATE * k, n) }

  /** The chunks of one program. */
  function ProgChunks(p: Prog): (r: seq<Chunk>)
    ensures |r| == Count(|p.words|)
  {
    var n := Count(|p.words|);
    seq(n, i requires 0 <= i < n =>
      Chunk(p.addr, RATE * i, p.words[Cut(|p.words|, i)..Cut(|p.words|, i + 1)], i == 0, i == n - 1))
  }

  function Chunks(progs: seq<Prog>): seq<Chunk> {
    if progs == [] then [] else Chunks(progs[..|progs| - 1]) + ProgChunks(progs[|progs| - 1])
  }

  predicate ChunkOk(c: Chunk) {
    1 <= |c.words| <= RATE && (!c.isResult ==> |c.words| == RATE) && (c.isFirst ==> c.startPc == 0)
  }

  /** What may come after a chunk. */
  predicate MayFollow(c: Chunk, d: Chunk) {
    if c.isResult then d.isFirst else !d.isFirst && d.addr == c.addr && d.startPc == c.startPc + RATE
  }

  predicate Follows(cs: seq<Chunk>, i: nat)
    requires i + 1 < |cs|
  {
    MayFollow(cs[i], cs[i + 1])
  }

  predicate WellChunked(cs: seq<Chunk>) {
    && (forall i :: 0 <= i < |cs| ==> ChunkOk(cs[i]))
    && (forall i :: 0 <= i < |cs| - 1 ==> Follows(cs, i))
    && (cs != [] ==> cs[0].isFirst && cs[|cs| - 1].isResult)
  }

  lemma ProgChunksWell(p: Prog)
    ensures WellChunked(ProgChunks(p))
  {
    hide Least;
    var cs, n := ProgChunks(p), |p.words|;
    forall i | 0 <= i < |cs| ensures ChunkOk(cs[i]) && cs[i].startPc == RATE * i { CutSizes(n, i); }
    forall i | 0 <= i < |cs| - 1 ensures Follows(cs, i) {}
  }

  /** Every chunk has a word, and every one but the last is full. */
  lemma CutSizes(n: nat, i: nat)
    requires i < Count(n)
    ensures Cut(n, i) == RATE * i && 1 <= Cut(n, i + 1) - Cut(n, i) <= RATE && Cut(n, i + 1) <= n
    ensures i < Count(n) - 1 ==> Cut(n, i + 1) - Cut(n, i) == RATE
  {
  }

  lemma WellConcat(a: seq<Chunk>, b: seq<Chunk>)
    requires WellChunked(a) && WellChunked(b)
    ensures WellChunked(a + b)
  {
    hide ChunkOk;
    var cs := a + b;
    forall i | 0 <= i < |cs| - 1 ensures Follows(cs, i) {
      if i < |a| - 1 {
        assert Follows(a, i);
      } else if i >= |a| {
        assert Follows(b, i - |a|);
      }
    }
  }

  lemma {:induction false} ChunksWell(progs: seq<Prog>)
    ensures WellChunked(Chunks(progs))
  {
    hide WellChunked, ProgChunks;
    if progs != [] {
      var n := |progs| - 1;
      ChunksWell(progs[..n]);
      ProgChunksWell(progs[n]);
      WellConcat(Chunks(progs[..n]), ProgChunks(progs[n]));
    } else {
      NoChunks();
    }
  }

  lemma NoChunks()
    ensures WellChunked([])
  {
  }

  /** The state before chunk i: it is carried on from row to row, and from one program to the next. */
  function Pre(perm: Perm, cs: seq<Chunk>, i: nat): State
    requires i <= |cs| && WellChunked(cs)
  {
    if i == 0 then Zero() else perm(Overwrite(Pre(perm, cs, i - 1), cs[i - 1].words))
  }

  function Bit(b: bool): int { if b then 1 else 0 }

  function Filters(k: nat): (r: seq<int>)
    ensures |r| == RATE
  {
    [Bit(0 < k), Bit(1 < k), Bit(2 < k), Bit(3 < k), Bit(4 < k), Bit(5 < k), Bit(6 < k), Bit(7 < k)]
  }

  function RowOf(perm: Perm, c: Chunk, s: State): (r: Row)
    requires ChunkOk(c)
    ensures r.Shaped()
  {
    var input := Overwrite(s, c.words);
    Row(c.addr, c.startPc % P, input[..RATE], input[RATE..], perm(input), Bit(c.isFirst), Bit(c.isResult),
        Filters(|c.words|), 0)
  }

  function Blank(): (r: Row)
    ensures r.Shaped()
  {
    Row([0, 0, 0, 0], 0, seq(RATE, _ => 0), seq(CAP, _ => 0), seq(WIDTH, _ => 0), 0, 0, Filters(0), 0)
  }

  function Padding(): (r: Row)
    ensures r.Shaped()
  {
    Blank().(pad := 1)
  }

  function TableOf(perm: Perm, cs: seq<Chunk>): (t: seq<Row>)
    requires WellChunked(cs)
    ensures |t| == T.PaddedLength(|cs|) && AllShaped(t)
  {
    seq(T.PaddedLength(|cs|), i requires 0 <= i => RowAt(perm, cs, i))
  }

  function RowAt(perm: Perm, cs: seq<Chunk>, i: nat): (r: Row)
    requires WellChunked(cs)
    ensures r.Shaped()
  {
    if i < |cs| then RowOf(perm, cs[i], Pre(perm, cs, i)) else Padding()
  }

  lemma TableAt(perm: Perm, cs: seq<Chunk>, i: nat)
    requires WellChunked(cs) && i < T.PaddedLength(|cs|)
    ensures TableOf(perm, cs)[i] == RowAt(perm, cs, i)
  {
  }

  /** The chunk words, topped up with the front of the carried state, and the capacity of that state. */
  lemma RowInput(s: State, words: seq<Felt>)
    requires |words| <= RATE
    ensures Overwrite(s, words)[..RATE] == words + s[|words|..RATE] && Overwrite(s, words)[RATE..] == s[RATE..]
  {
  }

  method HashRow(perm: Perm, c: Chunk, preHash: State) returns (r: Row)
    requires ChunkOk(c)
    ensures r == RowOf(perm, c, preHash)
  {
    RowInput(preHash, c.words);
    var inst, cap := c.words + preHash[|c.words|..RATE], preHash[RATE..];
    assert inst + cap == Overwrite(preHash, c.words);
    r := Row(c.addr, c.startPc % P, inst, cap, perm(inst + cap), Bit(c.isFirst), Bit(c.isResult), Filters(|c.words|),
             0);
  }

  /** The rows of all chunks, the state carried on from row to row. */
  method FillRows(perm: Perm, cs: seq<Chunk>, trace: array<Row>)
    requires WellChunked(cs) && |cs| <= trace.Length
    modifies trace
    ensures forall j :: 0 <= j < |cs| ==> trace[j] == RowAt(perm, cs, j)
    ensures forall j :: |cs| <= j < trace.Length ==> trace[j] == old(trace[j])
  {
    hide WellChunked, ChunkOk, RowOf, RowAt, Pre;
    var preHash: State := Zero();
    RowAtIs(perm, cs, 0);
    for i := 0 to |cs|
      invariant preHash == Pre(perm, cs, i)
      invariant forall j :: 0 <= j < i ==> trace[j] == RowAt(perm, cs, j)
      invariant forall j :: i <= j < trace.Length ==> trace[j] == old(trace[j])
    {
      RowAtIs(perm, cs, i);
      trace[i] := HashRow(perm, cs[i], preHash);
      preHash := trace[i].hash;
    }
  }

  /** `generate_prog_chunk_trace`. */
  method GenerateProgChunkTrace(perm: Perm, progs: seq<Prog>) returns (trace: array<Row>)
    ensures fresh(trace) && WellChunked(Chunks(progs)) && trace[..] == TableOf(perm, Chunks(progs))
  {
    hide WellChunked, ChunkOk, T.NextPowerOfTwo, RowOf, RowAt, Pre, Blank;
    var cs := Chunks(progs);
    ChunksWell(progs);
    var n := T.PaddedLength(|cs|);
    trace := new Row[n](_ => Blank());
    FillRows(perm, cs, trace);
    for i := |cs| to n
      invariant forall j :: 0 <= j < i ==> trace[j] == RowAt(perm, cs, j)
      invariant forall j :: i <= j < n ==> trace[j] == Blank()
    {
      trace[i] := trace[i].(pad := 1);
      RowAtIs(perm, cs, i);
    }
    assert trace[..] == TableOf(perm, cs);
  }

  lemma RowAtIs(perm: Perm, cs: seq<Chunk>, i: nat)
    requires WellChunked(cs)
    ensures i >= |cs| ==> RowAt(perm, cs, i) == Padding()
    ensures i < |cs| ==> ChunkOk(cs[i]) && RowAt(perm, cs, i) == RowOf(perm, cs[i], Pre(perm, cs, i))
                         && Pre(perm, cs, i + 1) == RowAt(perm, cs, i).hash
    ensures Pre(perm, cs, 0) == Zero()
  {
  }

  // ---- when the table holds ----

  predicate EmptyCap(s: State) { s[RATE..] == [0, 0, 0, 0] }

  lemma BitsVanish()
    ensures Vanishes(0) && !Vanishes(1) && Vanishes(1 - 1)
  {
  }

  lemma FiltersRight(k: nat, result: bool)
    requires 1 <= k <= RATE && (!result ==> k == RATE)
    ensures FiltersHold(0, Bit(result), Filters(k))
  {
    BitsVanish();
    var filters := Filters(k);
    assert forall j :: 0 <= j < RATE ==> filters[j] == Bit(j < k);
  }

  /** A generated row by itself is right if and only if it does not start a program with a filled capacity. */
  lemma LocalRight(perm: Perm, c: Chunk, s: State)
    requires ChunkOk(c)
    ensures LocalHolds(RowOf(perm, c, s)) <==> (c.isFirst ==> EmptyCap(s))
  {
    hide FiltersHold;
    var r := RowOf(perm, c, s);
    FiltersRight(|c.words|, c.isResult);
    RowInput(s, c.words);
    assert forall j :: 0 <= j < CAP ==> r.cap[j] == s[RATE..][j];
    forall j | 0 <= j < CAP ensures Vanishes(r.cap[j]) <==> r.cap[j] == 0 { SameFelt(s[RATE..][j], 0); }
    if LocalHolds(r) && c.isFirst {
      assert !Vanishes(1);
      forall j | 0 <= j < CAP ensures s[RATE..][j] == 0 { assert Zero2(r.first, r.cap[j]); }
    }
  }

  lemma PaddingRight()
    ensures LocalHolds(Padding())
  {
    BitsVanish();
  }

  /** Two generated rows in a row satisfy everything that relates them. */
  lemma NextRight(perm: Perm, c: Chunk, d: Chunk, s: State)
    requires ChunkOk(c) && ChunkOk(d) && MayFollow(c, d)
    ensures var a, b := RowOf(perm, c, s), RowOf(perm, d, perm(Overwrite(s, c.words)));
            ChainHolds(a, b) && TransitionHolds(a, b)
  {
    hide Overwrite, Filters;
    var after := perm(Overwrite(s, c.words));
    var b := RowOf(perm, d, after);
    RowInput(after, d.words);
    assert forall j :: 0 <= j < CAP ==> b.cap[j] == after[RATE..][j];
    if !c.isResult { NextPc(c.startPc, d.startPc); }
  }

  lemma NextPc(a: nat, b: nat)
    requires b == a + RATE
    ensures Vanishes(b % P - a % P - RATE)
  {
  }

  /** Before padding, and before the first row of the table, there is nothing to relate. */
  lemma PaddedNext(a: Row, b: Row)
    requires a.Shaped() && b.Shaped() && (a.pad == 0 || a.pad == 1)
    ensures b.pad == 1 ==> ChainHolds(a, b) && TransitionHolds(a, b)
    ensures b.first == 1 ==> ChainHolds(a, b) && FirstRowHolds(b)
    ensures b.pad == 1 ==> FirstRowHolds(b)
  {
  }

  predicate StartsEmpty(perm: Perm, cs: seq<Chunk>)
    requires WellChunked(cs)
  {
    forall i :: 0 <= i < |cs| && cs[i].isFirst ==> EmptyCap(Pre(perm, cs, i))
  }

  /** What relates row i to the next one. */
  lemma RowNext(perm: Perm, cs: seq<Chunk>, i: nat)
    requires WellChunked(cs) && i < T.PaddedLength(|cs|)
    ensures var t := TableOf(perm, cs);
            var nv := t[if i + 1 < |t| then i + 1 else 0];
            ChainHolds(t[i], nv) && (i + 1 < |t| ==> TransitionHolds(t[i], nv)) && (i == 0 ==> FirstRowHolds(t[i]))
  {
    hide ChainHolds, TransitionHolds, FirstRowHolds, MayFollow, ChunkOk, T.NextPowerOfTwo, Overwrite, Filters, Pre,
         TableOf, RowAt;
    var n := T.PaddedLength(|cs|);
    var next := if i + 1 < n then i + 1 else 0;
    TableAt(perm, cs, i);
    TableAt(perm, cs, next);
    RowAtIs(perm, cs, i);
    RowAtIs(perm, cs, next);
    PaddedNext(RowAt(perm, cs, i), RowAt(perm, cs, next));
    PaddedNext(RowAt(perm, cs, i), RowAt(perm, cs, i));
    if i + 1 < |cs| {
      assert Follows(cs, i);
      NextRight(perm, cs[i], cs[i + 1], Pre(perm, cs, i));
    }
  }

  lemma RowRight(perm: Perm, cs: seq<Chunk>, i: nat)
    requires WellChunked(cs) && i < T.PaddedLength(|cs|)
    ensures RowHolds(TableOf(perm, cs), i) <==> (i < |cs| && cs[i].isFirst ==> EmptyCap(Pre(perm, cs, i)))
  {
    hide WellChunked, LocalHolds, ChainHolds, TransitionHolds, FirstRowHolds, EmptyCap, ChunkOk, T.NextPowerOfTwo, Pre,
         TableOf, RowAt, RowOf, Padding;
    RowNext(perm, cs, i);
    TableAt(perm, cs, i);
    RowAtIs(perm, cs, i);
    if i < |cs| { LocalRight(perm, cs[i], Pre(perm, cs, i)); } else { PaddingRight(); }
  }

  lemma TableRight(perm: Perm, cs: seq<Chunk>)
    requires WellChunked(cs)
    ensures TableHolds(TableOf(perm, cs)) <==> StartsEmpty(perm, cs)
  {
    hide WellChunked, RowHolds, EmptyCap, T.NextPowerOfTwo, TableOf;
    var t := TableOf(perm, cs);
    forall i | 0 <= i < |t| ensures RowHolds(t, i) <==> (i < |cs| && cs[i].isFirst ==> EmptyCap(Pre(perm, cs, i))) {
      RowRight(perm, cs, i);
    }
    if TableHolds(t) {
      forall i | 0 <= i < |cs| && cs[i].isFirst ensures EmptyCap(Pre(perm, cs, i)) { assert RowHolds(t, i); }
    }
  }

  // ---- programs and their rows ----

  /** The state before program p: it is carried on from one program to the next. */
  function Carried(perm: Perm, progs: seq<Prog>, p: nat): State
    requires p <= |progs|
  {
    if p == 0 then Zero() else Absorb(perm, Carried(perm, progs, p - 1), progs[p - 1].words)
  }

  function Begin(progs: seq<Prog>, p: nat): nat
    requires p <= |progs|
  {
    |Chunks(progs[..p])|
  }

  /** The chunks of a program sit behind those of the programs before it. */
  lemma {:induction false} ChunksSplit(progs: seq<Prog>, p: nat, n: nat)
    requires p < n <= |progs|
    ensures Chunks(progs[..p]) + ProgChunks(progs[p]) <= Chunks(progs[..n])
    ensures Begin(progs, p + 1) == Begin(progs, p) + Count(|progs[p].words|)
  {
    hide ProgChunks;
    assert progs[..n][..n - 1] == progs[..n - 1] && progs[..p + 1][..p] == progs[..p];
    if p < n - 1 { ChunksSplit(progs, p, n - 1); }
  }

  lemma ChunkAt(progs: seq<Prog>, p: nat, k: nat)
    requires p < |progs| && k < Count(|progs[p].words|)
    ensures Begin(progs, p) + k < |Chunks(progs)| && Chunks(progs)[Begin(progs, p) + k] == ProgChunks(progs[p])[k]
  {
    ChunksSplit(progs, p, |progs|);
    assert progs[..|progs|] == progs;
  }

  lemma {:induction false} ChunkFrom(progs: seq<Prog>, i: nat) returns (p: nat, k: nat)
    requires i < |Chunks(progs)|
    ensures p < |progs| && k < Count(|progs[p].words|) && i == Begin(progs, p) + k
  {
    var n := |progs| - 1;
    if i < |Chunks(progs[..n])| {
      p, k := ChunkFrom(progs[..n], i);
      assert progs[..n][..p] == progs[..p];
    } else {
      p, k := n, i - |Chunks(progs[..n])|;
    }
  }

  /** The rows of a program absorb its words. */
  lemma {:induction false} RowsAbsorb(perm: Perm, progs: seq<Prog>, p: nat, k: nat)
    requires WellChunked(Chunks(progs)) && p < |progs| && k <= Count(|progs[p].words|)
    ensures var cs, b, w := Chunks(progs), Begin(progs, p), progs[p].words;
            b + k <= |cs| && Absorb(perm, Pre(perm, cs, b), w) == Absorb(perm, Pre(perm, cs, b + k), w[Cut(|w|, k)..])
  {
    hide Absorb, Overwrite, WellChunked, Chunks, ProgChunks, Begin;
    var cs, b, w := Chunks(progs), Begin(progs, p), progs[p].words;
    if k == 0 {
      assert w[Cut(|w|, 0)..] == w;
      BeginInside(progs, p);
    } else {
      RowsAbsorb(perm, progs, p, k - 1);
      ChunkAt(progs, p, k - 1);
      ChunkWords(progs[p], k - 1);
      AbsorbStep(perm, Pre(perm, cs, b + k - 1), w, Cut(|w|, k - 1));
    }
  }

  lemma ChunkWords(p: Prog, k: nat)
    requires k < Count(|p.words|)
    ensures var n := |p.words|;
            && Cut(n, k) == RATE * k < n && Cut(n, k + 1) == Cut(n, k) + Least(n - Cut(n, k), RATE)
            && ProgChunks(p)[k].words == p.words[Cut(n, k)..Cut(n, k + 1)]
  {
  }

  lemma BeginInside(progs: seq<Prog>, p: nat)
    requires p <= |progs|
    ensures Begin(progs, p) <= |Chunks(progs)|
  {
    if p < |progs| { ChunksSplit(progs, p, |progs|); }
    assert progs[..|progs|] == progs;
  }

  /** The state before the rows of a program. */
  lemma {:induction false} PreIsCarried(perm: Perm, progs: seq<Prog>, p: nat)
    requires WellChunked(Chunks(progs)) && p <= |progs|
    ensures Begin(progs, p) <= |Chunks(progs)| && Pre(perm, Chunks(progs), Begin(progs, p)) == Carried(perm, progs, p)
  {
    hide WellChunked, ProgChunks, Absorb, Chunks, Pre, Cut, Count, Begin;
    BeginInside(progs, p);
    if p == 0 {
      NoneBefore(perm, progs);
    } else {
      PreIsCarried(perm, progs, p - 1);
      ChunksSplit(progs, p - 1, p);
      ProgramAbsorbed(perm, progs, p - 1);
    }
  }

  lemma NoneBefore(perm: Perm, progs: seq<Prog>)
    requires WellChunked(Chunks(progs))
    ensures Begin(progs, 0) == 0 && Pre(perm, Chunks(progs), 0) == Zero()
  {
    hide WellChunked;
    assert progs[..0] == [];
  }

  /** All rows of a program absorb all of its words. */
  lemma ProgramAbsorbed(perm: Perm, progs: seq<Prog>, p: nat)
    requires WellChunked(Chunks(progs)) && p < |progs|
    ensures var cs, b, w := Chunks(progs), Begin(progs, p), progs[p].words;
            b + Count(|w|) <= |cs| && Pre(perm, cs, b + Count(|w|)) == Absorb(perm, Pre(perm, cs, b), w)
  {
    hide WellChunked, Absorb, Chunks, Pre, Begin;
    var w := progs[p].words;
    RowsAbsorb(perm, progs, p, Count(|w|));
    assert w[Cut(|w|, Count(|w|))..] == [];
    NothingLeft(perm, Pre(perm, Chunks(progs), Begin(progs, p) + Count(|w|)));
  }

  lemma NothingLeft(perm: Perm, s: State)
    ensures Absorb(perm, s, []) == s
  {
  }

  /** The table of every list of programs satisfies every constraint on every row, if and only if every program
      that is not empty starts with an empty capacity. */
  lemma ChunkTableHolds(perm: Perm, progs: seq<Prog>)
    ensures WellChunked(Chunks(progs))
    ensures TableHolds(TableOf(perm, Chunks(progs))) <==>
            forall p :: 0 <= p < |progs| && progs[p].words != [] ==> EmptyCap(Carried(perm, progs, p))
  {
    hide *;
    ChunksWell(progs);
    TableRight(perm, Chunks(progs));
    StartsMatch(perm, progs);
  }

  lemma StartsMatch(perm: Perm, progs: seq<Prog>)
    requires WellChunked(Chunks(progs))
    ensures StartsEmpty(perm, Chunks(progs)) <==>
            forall p :: 0 <= p < |progs| && progs[p].words != [] ==> EmptyCap(Carried(perm, progs, p))
  {
    hide WellChunked, EmptyCap, Carried, Pre, Begin, Chunks, ProgChunks;
    var cs := Chunks(progs);
    if StartsEmpty(perm, cs) {
      forall p | 0 <= p < |progs| && progs[p].words != [] ensures EmptyCap(Carried(perm, progs, p)) {
        ChunkAt(progs, p, 0);
        FirstChunk(progs[p], 0);
        PreIsCarried(perm, progs, p);
        assert cs[Begin(progs, p)].isFirst;
      }
    } else {
      var i :| 0 <= i < |cs| && cs[i].isFirst && !EmptyCap(Pre(perm, cs, i));
      var p, k := ChunkFrom(progs, i);
      ChunkAt(progs, p, k);
      FirstChunk(progs[p], k);
      PreIsCarried(perm, progs, p);
      assert progs[p].words != [];
    }
  }

  lemma FirstChunk(p: Prog, k: nat)
    requires k < Count(|p.words|)
    ensures ProgChunks(p)[k].isFirst <==> k == 0
  {
  }

  /** A program before which all others are empty starts from zero; so one program alone always holds. */
  lemma {:induction false} NothingBefore(perm: Perm, progs: seq<Prog>, p: nat)
    requires p <= |progs| && forall q :: 0 <= q < p ==> progs[q].words == []
    ensures Carried(perm, progs, p) == Zero() && EmptyCap(Carried(perm, progs, p))
  {
    if p > 0 { NothingBefore(perm, progs, p - 1); }
  }

  lemma OneProgramHolds(perm: Perm, progs: seq<Prog>)
    requires forall p, q :: 0 <= p < q < |progs| ==> progs[p].words == [] || progs[q].words == []
    ensures WellChunked(Chunks(progs)) && TableHolds(TableOf(perm, Chunks(progs)))
  {
    hide WellChunked, TableHolds, EmptyCap, TableOf, Carried, Chunks;
    forall p | 0 <= p < |progs| && progs[p].words != [] ensures EmptyCap(Carried(perm, progs, p)) {
      NothingBefore(perm, progs, p);
    }
    ChunkTableHolds(perm, progs);
  }

  /** Any second program breaks the table, whatever the permutation is, as soon as the first program leaves
      something in the capacity. */
  lemma SecondProgramFails(perm: Perm, progs: seq<Prog>)
    requires |progs| >= 2 && progs[1].words != [] && 1 <= |progs[0].words| <= RATE
    requires !EmptyCap(perm(Overwrite(Zero(), progs[0].words)))
    ensures WellChunked(Chunks(progs)) && !TableHolds(TableOf(perm, Chunks(progs)))
  {
    hide WellChunked, TableHolds, EmptyCap, TableOf, Chunks, Overwrite;
    ChunkTableHolds(perm, progs);
    assert Carried(perm, progs, 0) == Zero();
    assert Carried(perm, progs, 1) == perm(Overwrite(Zero(), progs[0].words));
  }

  // ---- what the result rows say ----

  /** The last row of every program that is not empty is its result row, and has the sponge state after it. */
  lemma ResultRow(perm: Perm, progs: seq<Prog>, p: nat)
    requires p < |progs| && progs[p].words != []
    ensures WellChunked(Chunks(progs)) && 0 < Begin(progs, p + 1) <= |Chunks(progs)|
    ensures var t := TableOf(perm, Chunks(progs));
            var r := t[Begin(progs, p + 1) - 1];
            r.result == 1 && r.addr == progs[p].addr && r.hash == Carried(perm, progs, p + 1)
  {
    hide WellChunked, Chunks, Carried, Overwrite, T.NextPowerOfTwo, Begin, ChunkOk, Filters;
    ChunksWell(progs);
    ChunksSplit(progs, p, |progs|);
    PreIsCarried(perm, progs, p + 1);
    var i := Begin(progs, p + 1) - 1;
    ChunkAt(progs, p, Count(|progs[p].words|) - 1);
    assert Chunks(progs)[i].isResult && Chunks(progs)[i].addr == progs[p].addr;
    PreStep(perm, Chunks(progs), i);
  }

  lemma PreStep(perm: Perm, cs: seq<Chunk>, i: nat)
    requires WellChunked(cs) && i < |cs|
    ensures TableOf(perm, cs)[i].hash == Pre(perm, cs, i + 1)
  {
  }

  /** In a table that holds, the result of a program with at least eight words is the hash of its words alone. A shorter
      one also sees the front of the state that the program before it left. */
  lemma ResultIsHash(perm: Perm, progs: seq<Prog>, p: nat)
    requires p < |progs| && |progs[p].words| >= RATE
    requires WellChunked(Chunks(progs)) && TableHolds(TableOf(perm, Chunks(progs)))
    ensures Carried(perm, progs, p + 1)[..4] == Hash(perm, progs[p].words)
  {
    hide WellChunked, TableHolds, TableOf, Chunks, Absorb;
    ChunkTableHolds(perm, progs);
    assert EmptyCap(Carried(perm, progs, p));
    assert Zero()[RATE..] == [0, 0, 0, 0];
    AbsorbForgets(perm, Carried(perm, progs, p), Zero(), progs[p].words);
  }

  /** Different states are permuted to different states. */
  ghost predicate Injective(perm: Perm) { forall s: State, t: State :: perm(s) == perm(t) ==> s == t }

  /** A program of at most eight words ends in the state its words alone give, if and only if what the programs before
      it left behind the words is zero. */
  lemma ShortResult(perm: Perm, progs: seq<Prog>, p: nat)
    requires Injective(perm) && p < |progs| && 1 <= |progs[p].words| <= RATE
    ensures var w := progs[p].words;
            Carried(perm, progs, p + 1) == Absorb(perm, Zero(), w) <==>
            Carried(perm, progs, p)[|w|..] == Zero()[|w|..]
  {
    var s, w := Carried(perm, progs, p), progs[p].words;
    assert Carried(perm, progs, p + 1) == perm(Overwrite(s, w));
    assert Absorb(perm, Zero(), w) == perm(Overwrite(Zero(), w));
    assert Overwrite(s, w)[|w|..] == s[|w|..] && Overwrite(Zero(), w)[|w|..] == Zero()[|w|..];
  }

  /** The instruction and the table of the same words as one program agree. */
  method HashesAgree(perm: Perm, addr: Addr, words: seq<Felt>) returns (a: seq<Felt>, b: seq<Felt>)
    requires words != []
    ensures a == b == Hash(perm, words)
  {
    hide WellChunked, TableOf, Absorb, T.NextPowerOfTwo;
    a := ExecutePoseidon(perm, words);
    var trace := GenerateProgChunkTrace(perm, [Prog(addr, words)]);
    ghost var progs := [Prog(addr, words)];
    ResultRow(perm, progs, 0);
    assert progs[..1] == progs;
    assert Carried(perm, progs, 1) == Absorb(perm, Carried(perm, progs, 0), words);
    var last := Count(|words|) - 1;
    ChunksSplit(progs, 0, 1);
    assert progs[..0] == [];
    assert trace[..][last] == trace[last];
    b := trace[last].hash[..4];
  }
}
