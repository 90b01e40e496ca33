/** The bitwise table: operands split into 8-bit limbs, each triple of limbs looked up, in compressed form,
    in a fixed table of all 8-bit results. */
module Bitwise {
  import opened Goldilocks
  import opened BitOps
  import opened MemoryTrace
  import L = Lookup

  // ---- columns ----

  const FILTER: nat := 0
  const TAG: nat := 1
  const OP0: nat := 2
  const OP1: nat := 3
  const RES: nat := 4
  const OP0_LIMBS: nat := 5
  const OP1_LIMBS: nat := 9
  const RES_LIMBS: nat := 13
  const OP0_LIMBS_END: nat := 9
  const OP1_LIMBS_END: nat := 13
  const RES_LIMBS_END: nat := 17
  const OP0_LIMBS_PERMUTED: nat := 17
  const OP1_LIMBS_PERMUTED: nat := 21
  const RES_LIMBS_PERMUTED: nat := 25
  const COMPRESS_LIMBS: nat := 29
  const COMPRESS_PERMUTED: nat := 33
  const FIX_U8: nat := 37
  const FIX_U8_PERMUTED: nat := 38
  const FIX_TAG: nat := 50
  const FIX_OP0: nat := 51
  const FIX_OP1: nat := 52
  const FIX_RES: nat := 53
  const FIX_COMPRESS: nat := 54
  const FIX_COMPRESS_PERMUTED: nat := 55
  const COLUMNS: nat := 59

  /** Rows of the fixed table per operator. */
  const BLOCK: nat := 0x1_0000

  type Columns = seq<seq<Felt>>

  predicate Shape(t: Columns, n: nat) {
    |t| == COLUMNS && forall c :: 0 <= c < COLUMNS ==> |t[c]| == n
  }

  // ---- constraints ----

  function Sum(t: Columns, first: nat, i: nat): int
    requires first + 4 <= |t| && i < |t[first]| && i < |t[first + 1]| && i < |t[first + 2]| && i < |t[first + 3]|
  {
    t[first][i] + t[first + 1][i] * BASE + t[first + 2][i] * (BASE * BASE) + t[first + 3][i] * (BASE * BASE * BASE)
  }

  function Compress(beta: Felt, tag: Felt, a: Felt, b: Felt, c: Felt): Felt {
    FAdd(FAdd(FAdd(tag, FMul(a, beta)), FMul(FMul(b, beta), beta)), FMul(FMul(FMul(c, beta), beta), beta))
  }

  predicate SumsHold(t: Columns, n: nat, i: nat)
    requires Shape(t, n) && i < n
  {
    && Vanishes(Sum(t, OP0_LIMBS, i) - t[OP0][i])
    && Vanishes(Sum(t, OP1_LIMBS, i) - t[OP1][i])
    && Vanishes(Sum(t, RES_LIMBS, i) - t[RES][i])
  }

  predicate CompressHolds(t: Columns, n: nat, beta: Felt, i: nat, j: nat)
    requires Shape(t, n) && i < n && j < 4
  {
    t[COMPRESS_LIMBS + j][i] ==
    Compress(beta, t[TAG][i], t[OP0_LIMBS + j][i], t[OP1_LIMBS + j][i], t[RES_LIMBS + j][i])
  }

  ghost predicate LookupsHold(t: Columns, n: nat, j: nat)
    requires Shape(t, n) && j < 4
  {
    && L.LookupHolds(t[OP0_LIMBS_PERMUTED + j], t[FIX_U8_PERMUTED + j])
    && L.LookupHolds(t[OP1_LIMBS_PERMUTED + j], t[FIX_U8_PERMUTED + 4 + j])
    && L.LookupHolds(t[RES_LIMBS_PERMUTED + j], t[FIX_U8_PERMUTED + 8 + j])
    && L.LookupHolds(t[COMPRESS_PERMUTED + j], t[FIX_COMPRESS_PERMUTED + j])
  }

  /** Everything `BitwiseStark` asks for except the three sums. */
  ghost predicate TablesMatch(t: Columns, n: nat, beta: Felt)
    requires Shape(t, n)
  {
    && (forall j :: 0 <= j < 4 ==> LookupsHold(t, n, j))
    && (forall i, j :: 0 <= i < n && 0 <= j < 4 ==> CompressHolds(t, n, beta, i, j))
  }

  ghost predicate TableHolds(t: Columns, n: nat, beta: Felt) {
    && Shape(t, n) && TablesMatch(t, n, beta)
    && forall i :: 0 <= i < n ==> SumsHold(t, n, i)
  }

  // ---- the recorded rows ----

  /** One executed bitwise instruction. */
  datatype Cell = Cell(kind: Kind, op0: Felt, op1: Felt)

  /** The machine operator works on 64-bit words. */
  function Result(cell: Cell): nat { BitOp(cell.kind, cell.op0, cell.op1, 64) }

  function Tag(kind: Kind): Felt {
    match kind
    case And => 0x4_0000
    case Or => 0x2_0000
    case Xor => 0x1_0000
  }

  /** The columns that end up with a value of the row. Limb 3 is written one column too far, to the
      end of the range, where limb 0 of the next range or a permuted column replaces it. */
  predicate Written(c: nat) { c < RES_LIMBS_END && c != 8 && c != 12 && c != 16 }

  function Entry(cell: Cell, c: nat): Felt
    requires Written(c)
  {
    if c == FILTER then 1
    else if c == TAG then Tag(cell.kind)
    else if c == OP0 then cell.op0
    else if c == OP1 then cell.op1
    else if c == RES then Canon(Result(cell))
    else if c < OP1_LIMBS then Limb(cell.op0, c - OP0_LIMBS)
    else if c < RES_LIMBS then Limb(cell.op1, c - OP1_LIMBS)
    else Limb(Result(cell), c - RES_LIMBS)
  }

  function CellColumn(cells: seq<Cell>, n: nat, c: nat): (r: seq<Felt>)
    ensures |r| == n
  {
    seq(n, i requires 0 <= i => if i < |cells| && Written(c) then Entry(cells[i], c) else 0)
  }

  function Put(column: seq<Felt>, i: nat, v: Felt): (r: seq<Felt>)
    requires i < |column|
    ensures |r| == |column|
  {
    column[i := v]
  }

  function AfterHead(t: Columns, n: nat, i: nat, cell: Cell): (r: Columns)
    requires Shape(t, n) && i < n
    ensures Shape(r, n)
  {
    t[FILTER := Put(t[FILTER], i, 1)][TAG := Put(t[TAG], i, Tag(cell.kind))][OP0 := Put(t[OP0], i, cell.op0)]
    [OP1 := Put(t[OP1], i, cell.op1)][RES := Put(t[RES], i, Canon(Result(cell)))]
  }

  function AfterLimbs(t: Columns, n: nat, start: nat, i: nat, w: nat): (r: Columns)
    requires Shape(t, n) && i < n && start + 4 < COLUMNS
    ensures Shape(r, n)
  {
    t[start := Put(t[start], i, Limb(w, 0))][start + 1 := Put(t[start + 1], i, Limb(w, 1))]
    [start + 2 := Put(t[start + 2], i, Limb(w, 2))][start + 4 := Put(t[start + 4], i, Limb(w, 3))]
  }

  function AfterRow(t: Columns, n: nat, i: nat, cell: Cell): (r: Columns)
    requires Shape(t, n) && i < n
    ensures Shape(r, n)
  {
    AfterLimbs(AfterLimbs(AfterLimbs(AfterHead(t, n, i, cell), n, OP0_LIMBS, i, cell.op0), n, OP1_LIMBS, i, cell.op1),
               n, RES_LIMBS, i, Result(cell))
  }

  /** What a row write leaves in each column. */
  lemma RowWritten(t: Columns, n: nat, i: nat, cell: Cell, c: nat)
    requires Shape(t, n) && i < n && c < COLUMNS
    ensures c != RES_LIMBS_END ==>
              AfterRow(t, n, i, cell)[c] == if Written(c) then Put(t[c], i, Entry(cell, c)) else t[c]
  {
    hide BitOp, Limb;
    var h := AfterHead(t, n, i, cell);
    var x := AfterLimbs(h, n, OP0_LIMBS, i, cell.op0);
    var y := AfterLimbs(x, n, OP1_LIMBS, i, cell.op1);
    assert c < OP0_LIMBS ==> AfterRow(t, n, i, cell)[c] == h[c];
    assert OP0_LIMBS <= c < OP1_LIMBS ==> AfterRow(t, n, i, cell)[c] == x[c] && h[c] == t[c];
    assert OP1_LIMBS < c < RES_LIMBS ==> AfterRow(t, n, i, cell)[c] == y[c] && x[c] == t[c];
    assert RES_LIMBS < c ==> y[c] == t[c];
    if c == OP1_LIMBS { UpdateTwice(t[c], i, Limb(cell.op0, 3), Limb(cell.op1, 0)); }
    if c == RES_LIMBS { UpdateTwice(t[c], i, Limb(cell.op1, 3), Limb(Result(cell), 0)); }
  }

  lemma UpdateTwice(s: seq<Felt>, i: nat, v: Felt, w: Felt)
    requires i < |s|
    ensures s[i := v][i := w] == s[i := w]
  {
  }

  method WriteRow(t: array<seq<Felt>>, n: nat, i: nat, cell: Cell)
    requires Shape(t[..], n) && i < n
    modifies t
    ensures t[..] == AfterRow(old(t[..]), n, i, cell)
  {
    hide BitOp, Limb, AfterLimbs;
    t[FILTER] := Put(t[FILTER], i, 1);
    t[TAG] := Put(t[TAG], i, Tag(cell.kind));
    t[OP0] := Put(t[OP0], i, cell.op0);
    t[OP1] := Put(t[OP1], i, cell.op1);
    t[RES] := Put(t[RES], i, Canon(Result(cell)));
    assert t[..] == AfterHead(old(t[..]), n, i, cell);
    WriteLimbs(t, n, OP0_LIMBS, OP0_LIMBS_END, i, cell.op0);
    WriteLimbs(t, n, OP1_LIMBS, OP1_LIMBS_END, i, cell.op1);
    WriteLimbs(t, n, RES_LIMBS, RES_LIMBS_END, i, Result(cell));
  }

  method WriteLimbs(t: array<seq<Felt>>, n: nat, start: nat, end: nat, i: nat, w: nat)
    requires Shape(t[..], n) && i < n && start + 4 == end < COLUMNS
    modifies t
    ensures t[..] == AfterLimbs(old(t[..]), n, start, i, w)
  {
    hide Limb;
    t[start] := Put(t[start], i, Limb(w, 0));
    t[start + 1] := Put(t[start + 1], i, Limb(w, 1));
    t[start + 2] := Put(t[start + 2], i, Limb(w, 2));
    t[end] := Put(t[end], i, Limb(w, 3));
  }

  /** The first m cells are in place; everything else in the row columns is still zero. */
  ghost predicate Recorded(t: Columns, n: nat, cells: seq<Cell>) {
    Shape(t, n) && (forall c :: 0 <= c < RES_LIMBS_END ==> t[c] == CellColumn(cells, n, c))
    && forall c :: RES_LIMBS_END < c < COLUMNS ==> t[c] == Blank(n)
  }

  function Blank(n: nat): (r: seq<Felt>)
    ensures |r| == n
  {
    seq(n, _ => 0)
  }

  lemma RecordOne(t: Columns, n: nat, cells: seq<Cell>, cell: Cell)
    requires Recorded(t, n, cells) && |cells| < n
    ensures Recorded(AfterRow(t, n, |cells|, cell), n, cells + [cell])
  {
    hide Entry, AfterRow, Written;
    var i, r := |cells|, AfterRow(t, n, |cells|, cell);
    forall c | 0 <= c < COLUMNS && c != RES_LIMBS_END
      ensures r[c] == if Written(c) then Put(t[c], i, Entry(cell, c)) else t[c]
    {
      RowWritten(t, n, i, cell, c);
    }
    forall c | 0 <= c < RES_LIMBS_END ensures r[c] == CellColumn(cells + [cell], n, c) {
      GrowColumn(cells, cell, n, c);
    }
    forall c | RES_LIMBS_END < c < COLUMNS ensures r[c] == Blank(n) { NotWritten(c); }
  }

  lemma NotWritten(c: nat)
    requires c >= RES_LIMBS_END
    ensures !Written(c)
  {
  }

  lemma GrowColumn(cells: seq<Cell>, cell: Cell, n: nat, c: nat)
    requires |cells| < n
    ensures CellColumn(cells + [cell], n, c) ==
            if Written(c) then Put(CellColumn(cells, n, c), |cells|, Entry(cell, c)) else CellColumn(cells, n, c)
  {
    hide Entry;
  }

  method RecordRows(t: array<seq<Felt>>, n: nat, cells: seq<Cell>)
    requires t[..] == seq(COLUMNS, _ => Blank(n)) && |cells| <= n
    modifies t
    ensures Recorded(t[..], n, cells)
  {
    hide AfterRow, Entry;
    assert Recorded(t[..], n, cells[..0]);
    for i := 0 to |cells|
      invariant Recorded(t[..], n, cells[..i])
    {
      RecordOne(t[..], n, cells[..i], cells[i]);
      WriteRow(t, n, i, cells[i]);
      assert cells[..i + 1] == cells[..i] + [cells[i]];
    }
    assert cells[..|cells|] == cells;
  }

  // ---- the fixed tables ----

  function KindAt(k: nat): Kind { if k < BLOCK then And else if k < 2 * BLOCK then Or else Xor }

  function BlockOf(kind: Kind): nat {
    match kind
    case And => 0
    case Or => BLOCK
    case Xor => 2 * BLOCK
  }

  function FixedValue(kind: Kind, x: nat, y: nat, c: nat): (v: Felt)
    requires x < BASE && y < BASE && FIX_TAG <= c <= FIX_RES
  {
    if c == FIX_TAG then Tag(kind) else if c == FIX_OP0 then x else if c == FIX_OP1 then y else
      ResultBound(kind, x, y);
      BitOp(kind, x, y, 8)
  }

  lemma ResultBound(kind: Kind, x: nat, y: nat)
    ensures BitOp(kind, x, y, 8) < BASE
  {
    hide BitOp;
    SplitLow(kind, x, y, 0);
    NoOp(kind, x / BASE, y / BASE);
  }

  lemma NoOp(kind: Kind, x: nat, y: nat)
    ensures BitOp(kind, x, y, 0) == 0
  {
  }

  /** Row k of the fixed table: three blocks, each with all pairs of 8-bit operands; zeros below. */
  function FixedEntry(k: nat, c: nat): Felt
    requires FIX_TAG <= c <= FIX_RES
  {
    if k < 3 * BLOCK then FixedValue(KindAt(k), k % BLOCK / BASE, k % BASE, c) else 0
  }

  predicate FixedTo(column: seq<Felt>, n: nat, index: nat, c: nat)
    requires FIX_TAG <= c <= FIX_RES
  {
    |column| == n && forall k :: 0 <= k < n ==>
      column[k] == if k < 3 * BLOCK && k % BLOCK < index then FixedEntry(k, c) else 0
  }

  lemma FixOne(column: seq<Felt>, n: nat, x: nat, y: nat, c: nat)
    requires x < BASE && y < BASE && FIX_TAG <= c <= FIX_RES && n >= 3 * BLOCK
    requires FixedTo(column, n, x * BASE + y, c)
    ensures var i := x * BASE + y;
            FixedTo(column[i := FixedValue(And, x, y, c)][BLOCK + i := FixedValue(Or, x, y, c)]
                    [2 * BLOCK + i := FixedValue(Xor, x, y, c)], n, i + 1, c)
  {
    hide FixedValue;
    var i := x * BASE + y;
    assert i < BLOCK && i / BASE == x && i % BASE == y;
    forall k | 0 <= k < 3 * BLOCK && k % BLOCK == i
      ensures (k == i || k == BLOCK + i || k == 2 * BLOCK + i) && k % BASE == y
    {
    }
  }

  predicate U8To(column: seq<Felt>, n: nat, index: nat) {
    |column| == n && forall k :: 0 <= k < n ==> column[k] == if k < index then k else 0
  }

  /** The row columns are as recorded; the fixed columns are filled up to an index. */
  ghost predicate Filled(t: Columns, n: nat, cells: seq<Cell>, x: nat, index: nat) {
    && Shape(t, n) && (forall c :: 0 <= c < RES_LIMBS_END ==> t[c] == CellColumn(cells, n, c))
    && U8To(t[FIX_U8], n, x)
    && forall c :: FIX_TAG <= c <= FIX_RES ==> FixedTo(t[c], n, index, c)
  }

  method WriteFixedRow(t: array<seq<Felt>>, n: nat, k: nat, kind: Kind, x: nat, y: nat)
    requires Shape(t[..], n) && k < n && x < BASE && y < BASE
    modifies t
    ensures Shape(t[..], n)
    ensures forall c :: 0 <= c < COLUMNS ==>
              t[c] == if FIX_TAG <= c <= FIX_RES then old(t[c])[k := FixedValue(kind, x, y, c)] else old(t[c])
  {
    hide FixedValue;
    t[FIX_OP0] := Put(t[FIX_OP0], k, FixedValue(kind, x, y, FIX_OP0));
    t[FIX_OP1] := Put(t[FIX_OP1], k, FixedValue(kind, x, y, FIX_OP1));
    t[FIX_RES] := Put(t[FIX_RES], k, FixedValue(kind, x, y, FIX_RES));
    t[FIX_TAG] := Put(t[FIX_TAG], k, FixedValue(kind, x, y, FIX_TAG));
  }

  method FillPair(t: array<seq<Felt>>, n: nat, ghost cells: seq<Cell>, x: nat, y: nat)
    requires x < BASE && y < BASE && n >= 3 * BLOCK && Filled(t[..], n, cells, x + 1, x * BASE + y)
    modifies t
    ensures Filled(t[..], n, cells, x + 1, x * BASE + y + 1)
  {
    hide FixedValue, FixedTo, U8To, CellColumn;
    var index := x * BASE + y;
    ghost var was := t[..];
    WriteFixedRow(t, n, index, And, x, y);
    WriteFixedRow(t, n, BLOCK + index, Or, x, y);
    WriteFixedRow(t, n, 2 * BLOCK + index, Xor, x, y);
    forall c | FIX_TAG <= c <= FIX_RES ensures FixedTo(t[c], n, index + 1, c) { FixOne(was[c], n, x, y, c); }
  }

  method FillFixed(t: array<seq<Felt>>, n: nat, ghost cells: seq<Cell>)
    requires Recorded(t[..], n, cells) && n >= 3 * BLOCK
    modifies t
    ensures Filled(t[..], n, cells, BASE, BLOCK)
  {
    hide FixedValue, FixedEntry, CellColumn;
    var index := 0;
    for x := 0 to BASE
      invariant index == x * BASE && Filled(t[..], n, cells, x, index)
    {
      t[FIX_U8] := Put(t[FIX_U8], x, x);
      assert Filled(t[..], n, cells, x + 1, index);
      for y := 0 to BASE
        invariant index == x * BASE + y && Filled(t[..], n, cells, x + 1, index)
      {
        FillPair(t, n, cells, x, y);
        index := index + 1;
      }
    }
  }

  // ---- compression ----

  predicate FixCompressHolds(t: Columns, n: nat, beta: Felt, i: nat)
    requires Shape(t, n) && i < n
  {
    t[FIX_COMPRESS][i] == Compress(beta, t[FIX_TAG][i], t[FIX_OP0][i], t[FIX_OP1][i], t[FIX_RES][i])
  }

  predicate RowCompressed(t: Columns, n: nat, beta: Felt, i: nat)
    requires Shape(t, n) && i < n
  {
    && CompressHolds(t, n, beta, i, 0) && CompressHolds(t, n, beta, i, 1) && CompressHolds(t, n, beta, i, 2)
    && CompressHolds(t, n, beta, i, 3) && FixCompressHolds(t, n, beta, i)
  }

  predicate CompressedTo(t: Columns, n: nat, beta: Felt, m: nat)
    requires Shape(t, n) && m <= n
  {
    forall i :: 0 <= i < m ==> RowCompressed(t, n, beta, i)
  }

  function CompressedLimb(t: Columns, n: nat, beta: Felt, i: nat, j: nat): Felt
    requires Shape(t, n) && i < n && j < 4
  {
    Compress(beta, t[TAG][i], t[OP0_LIMBS + j][i], t[OP1_LIMBS + j][i], t[RES_LIMBS + j][i])
  }

  function AfterCompress(t: Columns, n: nat, beta: Felt, i: nat): (r: Columns)
    requires Shape(t, n) && i < n
    ensures Shape(r, n)
  {
    var c := COMPRESS_LIMBS;
    t[c := Put(t[c], i, CompressedLimb(t, n, beta, i, 0))][c + 1 := Put(t[c + 1], i, CompressedLimb(t, n, beta, i, 1))]
    [c + 2 := Put(t[c + 2], i, CompressedLimb(t, n, beta, i, 2))]
    [c + 3 := Put(t[c + 3], i, CompressedLimb(t, n, beta, i, 3))]
    [FIX_COMPRESS :=
       Put(t[FIX_COMPRESS], i, Compress(beta, t[FIX_TAG][i], t[FIX_OP0][i], t[FIX_OP1][i], t[FIX_RES][i]))]
  }

  predicate Compressing(c: nat) { COMPRESS_LIMBS <= c < COMPRESS_LIMBS + 4 || c == FIX_COMPRESS }

  lemma CompressOne(t: Columns, n: nat, beta: Felt, i: nat, k: nat)
    requires Shape(t, n) && i < n && k < n
    ensures forall c :: 0 <= c < COLUMNS && !Compressing(c) ==> AfterCompress(t, n, beta, i)[c] == t[c]
    ensures k == i || RowCompressed(t, n, beta, k) ==> RowCompressed(AfterCompress(t, n, beta, i), n, beta, k)
  {
    hide Compress;
  }

  predicate SameButCompressed(t: Columns, s: Columns) {
    |t| == |s| == COLUMNS && forall c :: 0 <= c < COLUMNS && !Compressing(c) ==> t[c] == s[c]
  }

  method CompressRow(t: array<seq<Felt>>, n: nat, beta: Felt, i: nat)
    requires Shape(t[..], n) && i < n
    modifies t
    ensures t[..] == AfterCompress(old(t[..]), n, beta, i)
  {
    hide Compress;
    var c := COMPRESS_LIMBS;
    t[c] := Put(t[c], i, Compress(beta, t[TAG][i], t[OP0_LIMBS][i], t[OP1_LIMBS][i], t[RES_LIMBS][i]));
    t[c + 1] := Put(t[c + 1], i,
                    Compress(beta, t[TAG][i], t[OP0_LIMBS + 1][i], t[OP1_LIMBS + 1][i], t[RES_LIMBS + 1][i]));
    t[c + 2] := Put(t[c + 2], i,
                    Compress(beta, t[TAG][i], t[OP0_LIMBS + 2][i], t[OP1_LIMBS + 2][i], t[RES_LIMBS + 2][i]));
    t[c + 3] := Put(t[c + 3], i,
                    Compress(beta, t[TAG][i], t[OP0_LIMBS + 3][i], t[OP1_LIMBS + 3][i], t[RES_LIMBS + 3][i]));
    t[FIX_COMPRESS] := Put(t[FIX_COMPRESS], i,
                           Compress(beta, t[FIX_TAG][i], t[FIX_OP0][i], t[FIX_OP1][i], t[FIX_RES][i]));
  }

  method CompressRows(t: array<seq<Felt>>, n: nat, beta: Felt)
    requires Shape(t[..], n)
    modifies t
    ensures Shape(t[..], n) && CompressedTo(t[..], n, beta, n) && SameButCompressed(t[..], old(t[..]))
  {
    hide AfterCompress, RowCompressed, Compressing;
    for i := 0 to n
      invariant Shape(t[..], n) && CompressedTo(t[..], n, beta, i) && SameButCompressed(t[..], old(t[..]))
    {
      ghost var was := t[..];
      CompressRow(t, n, beta, i);
      forall k | 0 <= k < i + 1 ensures RowCompressed(t[..], n, beta, k) { CompressOne(was, n, beta, i, k); }
      CompressOne(was, n, beta, i, i);
    }
  }

  // ---- every looked-up value is there ----

  lemma LimbFound(cells: seq<Cell>, n: nat, c: nat, u8: seq<Felt>, x: Felt)
    requires OP0_LIMBS <= c < RES_LIMBS_END && n >= BASE && U8To(u8, n, BASE) && x in CellColumn(cells, n, c)
    ensures x in u8
  {
    hide BitOp, Limb;
    assert x < BASE;
    assert u8[x] == x;
  }

  /** The row of the fixed table that holds the operator applied to two limbs. */
  lemma FixedAt(kind: Kind, x: nat, y: nat)
    requires x < BASE && y < BASE
    ensures var k := BlockOf(kind) + x * BASE + y;
            && k < 3 * BLOCK && FixedEntry(k, FIX_TAG) == Tag(kind) && FixedEntry(k, FIX_OP0) == x
            && FixedEntry(k, FIX_OP1) == y && FixedEntry(k, FIX_RES) == BitOp(kind, x, y, 8)
  {
    hide BitOp;
    var i := x * BASE + y;
    var k := BlockOf(kind) + i;
    assert i < BLOCK && k % BLOCK == i && i / BASE == x && k % BASE == y;
  }

  /** The triple of limbs that a row has at position j, together with its tag, is a row of the fixed table. */
  lemma TripleFixed(cells: seq<Cell>, n: nat, i: nat, j: nat) returns (k: nat)
    requires n > 3 * BLOCK && i < n && j < 4
    ensures k < n
    ensures FixedEntry(k, FIX_TAG) == CellColumn(cells, n, TAG)[i]
    ensures FixedEntry(k, FIX_OP0) == CellColumn(cells, n, OP0_LIMBS + j)[i]
    ensures FixedEntry(k, FIX_OP1) == CellColumn(cells, n, OP1_LIMBS + j)[i]
    ensures FixedEntry(k, FIX_RES) == CellColumn(cells, n, RES_LIMBS + j)[i]
  {
    hide BitOp, Limb, FixedValue;
    if i >= |cells| {
      k := 3 * BLOCK;
    } else {
      var cell := cells[i];
      var x, y := if j < 3 then Limb(cell.op0, j) else 0, if j < 3 then Limb(cell.op1, j) else 0;
      FixedAt(cell.kind, x, y);
      k := BlockOf(cell.kind) + x * BASE + y;
      if j < 3 { LimbOfOp(cell.kind, cell.op0, cell.op1, j, 64); } else { BitOpZero(cell.kind, 8); }
    }
  }

  lemma CompressFound(t: Columns, n: nat, beta: Felt, cells: seq<Cell>, j: nat, v: Felt)
    requires n > 3 * BLOCK && j < 4 && Filled(t, n, cells, BASE, BLOCK) && CompressedTo(t, n, beta, n)
    requires v in t[COMPRESS_LIMBS + j]
    ensures v in t[FIX_COMPRESS]
  {
    hide CellColumn, FixedEntry, Compress;
    var i :| 0 <= i < n && t[COMPRESS_LIMBS + j][i] == v;
    assert RowCompressed(t, n, beta, i);
    assert CompressHolds(t, n, beta, i, j);
    var k := TripleFixed(cells, n, i, j);
    assert RowCompressed(t, n, beta, k);
    Zeros(t, n, cells, k);
    assert t[FIX_COMPRESS][k] == v;
  }

  lemma Zeros(t: Columns, n: nat, cells: seq<Cell>, k: nat)
    requires Filled(t, n, cells, BASE, BLOCK) && k < n
    ensures t[FIX_TAG][k] == FixedEntry(k, FIX_TAG) && t[FIX_OP0][k] == FixedEntry(k, FIX_OP0)
    ensures t[FIX_OP1][k] == FixedEntry(k, FIX_OP1) && t[FIX_RES][k] == FixedEntry(k, FIX_RES)
  {
    hide FixedValue;
    assert FixedTo(t[FIX_TAG], n, BLOCK, FIX_TAG) && FixedTo(t[FIX_OP0], n, BLOCK, FIX_OP0);
    assert FixedTo(t[FIX_OP1], n, BLOCK, FIX_OP1) && FixedTo(t[FIX_RES], n, BLOCK, FIX_RES);
  }

  // ---- permuted columns ----

  predicate SameButPermuted(t: Columns, s: Columns) {
    |t| == |s| == COLUMNS
    && (forall c :: 0 <= c < OP0_LIMBS_PERMUTED ==> t[c] == s[c])
    && (forall c :: COMPRESS_LIMBS <= c < COMPRESS_PERMUTED ==> t[c] == s[c])
    && t[FIX_U8] == s[FIX_U8] && t[FIX_COMPRESS] == s[FIX_COMPRESS]
  }

  /** The sixteen lookups: 4g + j is limb j of the first operand, the second, the result, the compressed value. */
  function Source(q: nat): nat { if q < 12 then OP0_LIMBS + q else COMPRESS_LIMBS - 12 + q }

  function Table(q: nat): nat { if q < 12 then FIX_U8 else FIX_COMPRESS }

  function ToInput(q: nat): nat { if q < 12 then OP0_LIMBS_PERMUTED + q else COMPRESS_PERMUTED - 12 + q }

  function ToTable(q: nat): nat { if q < 12 then FIX_U8_PERMUTED + q else FIX_COMPRESS_PERMUTED - 12 + q }

  ghost predicate LookupAt(t: Columns, n: nat, q: nat)
    requires Shape(t, n) && q < 16
  {
    L.LookupHolds(t[ToInput(q)], t[ToTable(q)])
  }

  ghost predicate Found(t: Columns, n: nat, q: nat)
    requires Shape(t, n) && q < 16
  {
    forall x :: x in t[Source(q)] ==> x in t[Table(q)]
  }

  /** One call of `permuted_cols` on an input column whose values are all in the table column. */
  method Permute(t: array<seq<Felt>>, n: nat, q: nat)
    requires Shape(t[..], n) && q < 16 && Found(t[..], n, q)
    modifies t
    ensures Shape(t[..], n) && SameButPermuted(t[..], old(t[..]))
    ensures LookupAt(t[..], n, q) && forall p :: 0 <= p < 16 && p != q && old(LookupAt(t[..], n, p)) ==>
              LookupAt(t[..], n, p)
    ensures multiset(t[ToInput(q)]) == multiset(old(t[Source(q)]))
            && multiset(t[ToTable(q)]) == multiset(old(t[Table(q)]))
  {
    hide L.LookupHolds;
    var a, b := L.PermutedCols(t[Source(q)], t[Table(q)]);
    t[ToInput(q)] := a;
    t[ToTable(q)] := b;
  }

  lemma FourLookups(t: Columns, n: nat, j: nat)
    requires Shape(t, n) && j < 4
    ensures LookupsHold(t, n, j) <==>
            LookupAt(t, n, j) && LookupAt(t, n, 4 + j) && LookupAt(t, n, 8 + j) && LookupAt(t, n, 12 + j)
  {
    hide L.LookupHolds;
  }

  lemma StillFound(t: Columns, s: Columns, n: nat, q: nat)
    requires Shape(t, n) && Shape(s, n) && SameButPermuted(t, s) && q < 16 && Found(s, n, q)
    ensures Found(t, n, q)
  {
  }

  method PermuteAll(t: array<seq<Felt>>, n: nat)
    requires Shape(t[..], n) && forall q :: 0 <= q < 16 ==> Found(t[..], n, q)
    modifies t
    ensures Shape(t[..], n) && SameButPermuted(t[..], old(t[..])) && forall j :: 0 <= j < 4 ==> LookupsHold(t[..], n, j)
  {
    hide LookupAt, Found, LookupsHold;
    ghost var was := t[..];
    for j := 0 to 4
      invariant Shape(t[..], n) && SameButPermuted(t[..], was)
      invariant forall p :: 0 <= p < 16 && p % 4 < j ==> LookupAt(t[..], n, p)
    {
      StillFound(t[..], was, n, j);
      Permute(t, n, j);
      StillFound(t[..], was, n, 4 + j);
      Permute(t, n, 4 + j);
      StillFound(t[..], was, n, 8 + j);
      Permute(t, n, 8 + j);
      StillFound(t[..], was, n, 12 + j);
      Permute(t, n, 12 + j);
    }
    forall j | 0 <= j < 4 ensures LookupsHold(t[..], n, j) { FourLookups(t[..], n, j); }
  }

  // ---- the sums ----

  lemma LimbValues(w: nat)
    ensures Limb(w, 0) == w % BASE && Limb(w, 1) == w / BASE % BASE && Limb(w, 2) == w / BASE / BASE % BASE
  {
  }

  lemma ThreeLimbs(w: nat)
    ensures Limb(w, 0) + Limb(w, 1) * BASE + Limb(w, 2) * (BASE * BASE) == w % 0x100_0000
  {
    hide Limb;
    LimbValues(w);
    Digits(w);
  }

  lemma Digits(w: int)
    ensures w % 0x100 + w / 0x100 % 0x100 * 0x100 + w / 0x100 / 0x100 % 0x100 * 0x1_0000 == w % 0x100_0000
  {
    assert w / 0x100 / 0x100 == w / 0x1_0000;
    assert w % 0x1_0000 == w % 0x100 + w / 0x100 % 0x100 * 0x100;
  }

  /** The sum of three limbs is the number exactly below 2^24. */
  lemma SumOf(w: Felt)
    ensures Vanishes(w % 0x100_0000 - w) <==> w < 0x100_0000
  {
    var x: int := w;
    if x >= 0x100_0000 { assert 0 < x - x % 0x100_0000 < P; }
  }

  /** The entries of a recorded row; the columns of limb 3 are still zero. */
  lemma RowEntries(t: Columns, n: nat, cells: seq<Cell>, i: nat, first: nat, w: nat)
    requires Shape(t, n) && i < n && i < |cells| && forall c :: 0 <= c < RES_LIMBS_END ==>
               t[c] == CellColumn(cells, n, c)
    requires first in {OP0_LIMBS, OP1_LIMBS, RES_LIMBS}
    requires w == if first == OP0_LIMBS then cells[i].op0
                  else if first == OP1_LIMBS then cells[i].op1
                  else Result(cells[i])
    ensures Sum(t, first, i) == w % 0x100_0000
  {
    hide BitOp, Limb;
    ThreeLimbs(w);
    assert t[first][i] == Limb(w, 0) && t[first + 1][i] == Limb(w, 1) && t[first + 2][i] == Limb(w, 2);
    assert t[first + 3][i] == 0;
  }

  lemma SumsOfRow(t: Columns, n: nat, cells: seq<Cell>, i: nat)
    requires Shape(t, n) && i < n && forall c :: 0 <= c < RES_LIMBS_END ==> t[c] == CellColumn(cells, n, c)
    ensures SumsHold(t, n, i) <==> (i < |cells| ==> cells[i].op0 < 0x100_0000 && cells[i].op1 < 0x100_0000)
  {
    hide BitOp, Limb, Vanishes, Sum;
    if i < |cells| {
      var cell := cells[i];
      RowEntries(t, n, cells, i, OP0_LIMBS, cell.op0);
      RowEntries(t, n, cells, i, OP1_LIMBS, cell.op1);
      RowEntries(t, n, cells, i, RES_LIMBS, Result(cell));
      assert t[OP0][i] == cell.op0 && t[OP1][i] == cell.op1 && t[RES][i] == Canon(Result(cell));
      SumOf(cell.op0);
      SumOf(cell.op1);
      if cell.op0 < 0x100_0000 && cell.op1 < 0x100_0000 {
        NoCarry(cell.kind, cell.op0, cell.op1, 64);
        ZeroVanishes();
      }
    } else {
      PaddingSums(t, n, cells, i);
    }
  }

  lemma PaddingSums(t: Columns, n: nat, cells: seq<Cell>, i: nat)
    requires Shape(t, n) && |cells| <= i < n && forall c :: 0 <= c < RES_LIMBS_END ==> t[c] == CellColumn(cells, n, c)
    ensures SumsHold(t, n, i)
  {
    assert forall c :: 0 <= c < RES_LIMBS_END ==> t[c][i] == 0;
  }

  lemma ZeroVanishes()
    ensures Vanishes(0)
  {
  }

  // ---- the table ----

  function Length(cells: seq<Cell>): (n: nat)
    ensures n > 3 * BLOCK && n >= |cells|
  {
    var m := if |cells| > 3 * BLOCK then |cells| else 3 * BLOCK;
    TwoPowers();
    BeyondPower(m, 17);
    NextPowerOfTwo(m)
  }

  lemma TwoPowers()
    ensures Pow2(17) == 2 * BLOCK && Pow2(18) == 4 * BLOCK
  {
    Pow2Values();
    assert Pow2(17) == 2 * Pow2(16) && Pow2(18) == 2 * Pow2(17);
  }

  /** Above 2^k the next power of two is at least 2^(k+1). */
  lemma {:induction false} BeyondPower(m: nat, k: nat)
    requires m > Pow2(k)
    ensures NextPowerOfTwo(m) >= Pow2(k + 1)
  {
    if k > 0 { BeyondPower((m + 1) / 2, k - 1); }
  }

  /** `generate_bitwise_trace`: whatever the instructions and the challenge, all lookups and all compressed
      values are right; the whole table holds exactly if all operands have 24 bits. */
  method GenerateBitwiseTrace(cells: seq<Cell>, beta: Felt) returns (t: array<seq<Felt>>)
    ensures Shape(t[..], Length(cells)) && TablesMatch(t[..], Length(cells), beta)
    ensures forall c :: 0 <= c < RES_LIMBS_END ==> t[c] == CellColumn(cells, Length(cells), c)
    ensures TableHolds(t[..], Length(cells), beta) <==>
            forall i :: 0 <= i < |cells| ==> cells[i].op0 < 0x100_0000 && cells[i].op1 < 0x100_0000
  {
    hide NextPowerOfTwo, Compress, CellColumn, FixedValue, LookupsHold, SumsHold, Found;
    var n := Length(cells);
    t := new seq<Felt>[COLUMNS](_ => Blank(n));
    RecordRows(t, n, cells);
    FillFixed(t, n, cells);
    CompressRows(t, n, beta);
    ghost var full := t[..];
    forall q | 0 <= q < 16 ensures Found(full, n, q) { FindAll(full, n, beta, cells, q); }
    PermuteAll(t, n);
    forall i | 0 <= i < n
      ensures SumsHold(t[..], n, i) <==> (i < |cells| ==> cells[i].op0 < 0x100_0000 && cells[i].op1 < 0x100_0000)
    {
      SumsOfRow(t[..], n, cells, i);
    }
    StillCompressed(t[..], full, n, beta);
  }

  lemma FindAll(t: Columns, n: nat, beta: Felt, cells: seq<Cell>, q: nat)
    requires n > 3 * BLOCK && q < 16 && Filled(t, n, cells, BASE, BLOCK) && CompressedTo(t, n, beta, n)
    ensures Found(t, n, q)
  {
    hide CellColumn, U8To, FixedTo, CompressedTo;
    forall x | x in t[Source(q)] ensures x in t[Table(q)] {
      if q < 12 { LimbFound(cells, n, Source(q), t[FIX_U8], x); } else { CompressFound(t, n, beta, cells, q - 12, x); }
    }
  }

  lemma StillCompressed(t: Columns, s: Columns, n: nat, beta: Felt)
    requires Shape(t, n) && Shape(s, n) && SameButPermuted(t, s) && CompressedTo(s, n, beta, n)
    ensures forall i, j :: 0 <= i < n && 0 <= j < 4 ==> CompressHolds(t, n, beta, i, j)
  {
    hide Compress;
    forall i, j | 0 <= i < n && 0 <= j < 4 ensures CompressHolds(t, n, beta, i, j) {
      assert RowCompressed(s, n, beta, i);
      assert CompressHolds(s, n, beta, i, j);
    }
  }
}
