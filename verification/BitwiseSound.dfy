/** What the constraints of the bitwise table force, and where its generator falls short of them. */
module BitwiseSound {
  import opened Goldilocks
  import opened BitOps
  import opened Bitwise
  import L = Lookup
  import GrandProduct
  import Consumer
  import opened ProductSound

  // ---- compressed rows ----

  /** A tag, two limbs and the limb of the result. */
  predicate Quads(rows: seq<seq<Felt>>) { AllWidth(rows, 4) }

  lemma CompressIsReduce(beta: Felt, row: seq<Felt>)
    requires |row| == 4
    ensures Compress(beta, row[0], row[1], row[2], row[3]) == GrandProduct.Reduce(row, beta)
  {
    hide Consumer.Horner, Compress, GrandProduct.Reduce, Cubic;
    ReduceIs(row, beta);
    HornerOfFour(row, beta);
    CompressIs(beta, row[0], row[1], row[2], row[3]);
  }

  /** a times the k-th power of x. */
  function Mono(a: int, x: int, k: nat): int { if k == 0 then a else Mono(a, x, k - 1) * x }

  function Cubic(t: int, a: int, b: int, c: int, x: int): int { t + Mono(a, x, 1) + Mono(b, x, 2) + Mono(c, x, 3) }

  lemma {:induction false} MonoReduced(a: Felt, x: Felt, k: nat)
    requires k > 0
    ensures FMul(Mono(a, x, k - 1) % P, x) == Mono(a, x, k) % P
  {
    SmallReduced(x);
    MulReduced(Mono(a, x, k - 1), x);
  }

  lemma Powers(a: Felt, x: Felt)
    ensures FMul(a, x) == Mono(a, x, 1) % P
    ensures FMul(FMul(a, x), x) == Mono(a, x, 2) % P
    ensures FMul(FMul(FMul(a, x), x), x) == Mono(a, x, 3) % P
  {
    hide FMul;
    SmallReduced(a);
    MonoReduced(a, x, 1);
    MonoReduced(a, x, 2);
    MonoReduced(a, x, 3);
  }

  lemma SmallReduced(x: Felt)
    ensures x % P == x
  {
  }

  lemma CompressIs(beta: Felt, t: Felt, a: Felt, b: Felt, c: Felt)
    ensures Compress(beta, t, a, b, c) == Cubic(t, a, b, c, beta) % P
  {
    hide FMul, Mono;
    Powers(a, beta);
    Powers(b, beta);
    Powers(c, beta);
    SumReduced(t, Mono(a, beta, 1), Mono(b, beta, 2), Mono(c, beta, 3));
  }

  lemma HornerOfFour(row: seq<Felt>, x: int)
    requires |row| == 4
    ensures Consumer.Horner(Backwards(row), x) == Cubic(row[0], row[1], row[2], row[3], x)
  {
    hide Consumer.Horner, Cubic;
    Unfold(row[0], row[1], row[2], row[3], x);
    var s := Backwards(row);
    Consumer.HornerLast(s, x);
    Consumer.HornerLast(s[..3], x);
    assert s[..3][..2] == s[..2];
    Consumer.HornerLast(s[..2], x);
    assert s[..2][..1] == s[..1];
    Consumer.HornerShort(s[..1], x);
  }

  lemma SumReduced(t: int, a: int, b: int, c: int)
    ensures (((t + a % P) % P + b % P) % P + c % P) % P == (t + a + b + c) % P
  {
  }

  lemma MonoStep(a: int, x: int, k: nat)
    ensures Mono(a, x, 0) == a && Mono(a, x, k + 1) == Mono(a, x, k) * x
  {
  }

  lemma Unfold(t: int, a: int, b: int, c: int, x: int)
    ensures Cubic(t, a, b, c, x) == ((c * x + b) * x + a) * x + t
  {
    hide Mono;
    MonoStep(a, x, 0);
    MonoStep(b, x, 0);
    MonoStep(b, x, 1);
    MonoStep(c, x, 0);
    MonoStep(c, x, 1);
    MonoStep(c, x, 2);
    var p, q := c * x, (c * x + b) * x;
    assert q == p * x + b * x;
    assert (q + a) * x == q * x + a * x;
    assert (p * x + b * x) * x == p * x * x + b * x * x;
  }

  function Squeeze(beta: Felt, row: seq<Felt>): Felt
    requires |row| == 4
  {
    Compress(beta, row[0], row[1], row[2], row[3])
  }

  /** Under one challenge every compressed input is among the compressed rows of the table. */
  ghost predicate CompressedIn(inputs: seq<seq<Felt>>, table: seq<seq<Felt>>, beta: Felt)
    requires Quads(inputs) && Quads(table)
  {
    forall i :: 0 <= i < |inputs| ==> SqueezedIn(inputs[i], table, beta)
  }

  ghost predicate SqueezedIn(row: seq<Felt>, table: seq<seq<Felt>>, beta: Felt)
    requires |row| == 4 && Quads(table)
  {
    exists k :: 0 <= k < |table| && Squeeze(beta, row) == Squeeze(beta, table[k])
  }

  /** If the compressed lookup holds for enough challenges, every input is a row of the table. */
  lemma CompressedLookupSound(inputs: seq<seq<Felt>>, table: seq<seq<Felt>>, betas: seq<Felt>)
    requires Quads(inputs) && Quads(table)
    requires Consumer.Distinct(betas) && |betas| > |inputs| * |table| * 4
    requires forall x :: x in betas ==> CompressedIn(inputs, table, x)
    ensures forall i :: 0 <= i < |inputs| ==> inputs[i] in table
  {
    hide Separates, Compress, Pairs;
    var pairs := Pairs(inputs, table);
    forall k | 0 <= k < |pairs| ensures |pairs[k].0| == |pairs[k].1| == 4 { PairsOfWidth(inputs, table, 4, k); }
    var beta := GoodBeta(pairs, 4, betas);
    forall i | 0 <= i < |inputs| ensures inputs[i] in table {
      assert SqueezedIn(inputs[i], table, beta);
      var k :| 0 <= k < |table| && Squeeze(beta, inputs[i]) == Squeeze(beta, table[k]);
      CompressIsReduce(beta, inputs[i]);
      CompressIsReduce(beta, table[k]);
      PairIn(inputs, table, i, k);
      SeparatedRows(beta, inputs[i], table[k]);
    }
  }

  lemma SeparatedRows(beta: Felt, t: seq<Felt>, u: seq<Felt>)
    requires Separates(beta, t, u) && GrandProduct.Reduce(t, beta) == GrandProduct.Reduce(u, beta)
    ensures t == u
  {
  }

  // ---- the fixed table ----

  function FixedRow(k: nat): (r: seq<Felt>)
    ensures |r| == 4
  {
    [FixedEntry(k, FIX_TAG), FixedEntry(k, FIX_OP0), FixedEntry(k, FIX_OP1), FixedEntry(k, FIX_RES)]
  }

  function FixedRows(n: nat): (r: seq<seq<Felt>>)
    ensures |r| == n && Quads(r)
  {
    seq(n, k requires 0 <= k => FixedRow(k))
  }

  /** A row of the fixed table that carries an operator's tag is a result of that operator on two limbs. */
  lemma FixedRowIsResult(kind: Kind, row: seq<Felt>, n: nat)
    requires row in FixedRows(n) && row[0] == Tag(kind)
    ensures |row| == 4 && row[1] < BASE && row[2] < BASE && row[3] == BitOp(kind, row[1], row[2], 8)
  {
    hide BitOp;
    var k :| 0 <= k < n && FixedRow(k) == row;
    assert k < 3 * BLOCK;
    assert KindAt(k) == kind;
  }

  // ---- a whole row ----

  /** The four quads of a row of the table. */
  function QuadsOf(tag: Felt, a: seq<Felt>, b: seq<Felt>, c: seq<Felt>): (r: seq<seq<Felt>>)
    requires |a| == |b| == |c| == 4
    ensures |r| == 4 && Quads(r)
  {
    [[tag, a[0], b[0], c[0]], [tag, a[1], b[1], c[1]], [tag, a[2], b[2], c[2]], [tag, a[3], b[3], c[3]]]
  }

  predicate SumIs(limbs: seq<Felt>, v: Felt)
    requires |limbs| == 4
  {
    Vanishes(limbs[0] + limbs[1] * BASE + limbs[2] * (BASE * BASE) + limbs[3] * (BASE * BASE * BASE) - v)
  }

  lemma SumIsJoin(limbs: seq<Felt>, v: Felt)
    requires |limbs| == 4 && SumIs(limbs, v) && forall j :: 0 <= j < 4 ==> limbs[j] < BASE
    ensures v == Join(limbs) && v < 0x1_0000_0000
  {
    JoinBound(limbs);
    var x: int, w: int := Join(limbs), v;
    assert x - w == 0;
  }

  /** A row whose quads are all in the fixed table under an operator's tag, and whose sums hold, has 32-bit
      operands and the 32-bit result of that operator. */
  lemma RowIsRight(kind: Kind, op0: Felt, op1: Felt, res: Felt, a: seq<Felt>, b: seq<Felt>, c: seq<Felt>, n: nat)
    requires |a| == |b| == |c| == 4 && SumIs(a, op0) && SumIs(b, op1) && SumIs(c, res)
    requires forall j :: 0 <= j < 4 ==> QuadsOf(Tag(kind), a, b, c)[j] in FixedRows(n)
    ensures op0 < 0x1_0000_0000 && op1 < 0x1_0000_0000 && res == BitOp(kind, op0, op1, 32)
  {
    hide BitOp, FixedRows, Tag;
    var q := QuadsOf(Tag(kind), a, b, c);
    forall j | 0 <= j < 4 ensures a[j] < BASE && b[j] < BASE && c[j] < BASE && c[j] == BitOp(kind, a[j], b[j], 8) {
      assert q[j] == [Tag(kind), a[j], b[j], c[j]];
      FixedRowIsResult(kind, q[j], n);
      ResultBound(kind, a[j], b[j]);
    }
    SumIsJoin(a, op0);
    SumIsJoin(b, op1);
    SumIsJoin(c, res);
    JoinOfOps(kind, a, b, c);
  }

  /** From the compressed lookups of a row, for enough challenges, to the row. */
  lemma RowSound(kind: Kind, op0: Felt, op1: Felt, res: Felt, a: seq<Felt>, b: seq<Felt>, c: seq<Felt>, n: nat,
                 betas: seq<Felt>)
    requires |a| == |b| == |c| == 4 && SumIs(a, op0) && SumIs(b, op1) && SumIs(c, res)
    requires Consumer.Distinct(betas) && |betas| > 4 * n * 4
    requires forall x :: x in betas ==> CompressedIn(QuadsOf(Tag(kind), a, b, c), FixedRows(n), x)
    ensures op0 < 0x1_0000_0000 && op1 < 0x1_0000_0000 && res == BitOp(kind, op0, op1, 32)
  {
    hide BitOp, FixedRows, CompressedIn, SumIs;
    CompressedLookupSound(QuadsOf(Tag(kind), a, b, c), FixedRows(n), betas);
    RowIsRight(kind, op0, op1, res, a, b, c, n);
  }

  // ---- a whole table ----

  /** The columns the lookups of compressed limbs work with are what they stand for: permutations, and the compressed
      fixed table. */
  ghost predicate Honest(t: Columns, n: nat, beta: Felt)
    requires Shape(t, n)
  {
    && (forall j :: 0 <= j < 4 ==> Permutes(t, n, j))
    && forall k :: 0 <= k < n ==> t[FIX_COMPRESS][k] == Squeeze(beta, FixedRow(k))
  }

  ghost predicate Permutes(t: Columns, n: nat, j: nat)
    requires Shape(t, n) && j < 4
  {
    && multiset(t[COMPRESS_PERMUTED + j]) == multiset(t[COMPRESS_LIMBS + j])
    && multiset(t[FIX_COMPRESS_PERMUTED + j]) == multiset(t[FIX_COMPRESS])
  }

  function RowQuads(t: Columns, n: nat, i: nat): (r: seq<seq<Felt>>)
    requires Shape(t, n) && i < n
    ensures |r| == 4 && Quads(r)
  {
    QuadsOf(t[TAG][i], Limbs(t, n, OP0_LIMBS, i), Limbs(t, n, OP1_LIMBS, i), Limbs(t, n, RES_LIMBS, i))
  }

  function Limbs(t: Columns, n: nat, first: nat, i: nat): (r: seq<Felt>)
    requires Shape(t, n) && i < n && first + 4 <= COLUMNS
    ensures |r| == 4
  {
    [t[first][i], t[first + 1][i], t[first + 2][i], t[first + 3][i]]
  }

  /** A table that holds has the quads of every row among the fixed ones, as far as its challenge shows. */
  lemma RowCompressedIn(t: Columns, n: nat, beta: Felt, i: nat)
    requires TableHolds(t, n, beta) && Honest(t, n, beta) && i < n
    ensures CompressedIn(RowQuads(t, n, i), FixedRows(n), beta)
  {
    hide L.LookupHolds, Compress, SumsHold, FixedRow, FixedEntry;
    forall j | 0 <= j < 4 ensures SqueezedIn(RowQuads(t, n, i)[j], FixedRows(n), beta) {
      assert LookupsHold(t, n, j) && CompressHolds(t, n, beta, i, j) && Permutes(t, n, j);
      L.LookupSound(t[COMPRESS_LIMBS + j], t[FIX_COMPRESS], t[COMPRESS_PERMUTED + j], t[FIX_COMPRESS_PERMUTED + j]);
      var x := t[COMPRESS_LIMBS + j][i];
      assert x == Squeeze(beta, RowQuads(t, n, i)[j]);
      assert x in t[COMPRESS_LIMBS + j];
      var k :| 0 <= k < n && t[FIX_COMPRESS][k] == x;
      assert FixedRows(n)[k] == FixedRow(k);
    }
  }

  lemma RowSums(t: Columns, n: nat, beta: Felt, i: nat)
    requires TableHolds(t, n, beta) && i < n
    ensures SumIs(Limbs(t, n, OP0_LIMBS, i), t[OP0][i]) && SumIs(Limbs(t, n, OP1_LIMBS, i), t[OP1][i])
    ensures SumIs(Limbs(t, n, RES_LIMBS, i), t[RES][i])
  {
    hide TablesMatch;
    assert SumsHold(t, n, i);
  }

  /** Tables for several challenges over the same recorded rows. */
  ghost predicate SameData(t: Columns, u: Columns, n: nat)
    requires Shape(t, n) && Shape(u, n)
  {
    forall c :: 0 <= c < RES_LIMBS_END ==> u[c] == t[c]
  }

  /** If the recorded rows can be completed to a table that holds for enough challenges, every row with an
      operator's tag has 32-bit operands and the 32-bit result of that operator. */
  lemma TableSound(kind: Kind, tables: seq<Columns>, betas: seq<Felt>, n: nat, i: nat)
    requires |tables| == |betas| && Consumer.Distinct(betas) && |betas| > 4 * n * 4 && i < n && Shape(tables[0], n)
    requires forall b :: 0 <= b < |betas| ==>
               TableHolds(tables[b], n, betas[b]) && Honest(tables[b], n, betas[b]) && SameData(tables[0], tables[b], n)
    requires tables[0][TAG][i] == Tag(kind)
    ensures var t := tables[0];
            t[OP0][i] < 0x1_0000_0000 && t[OP1][i] < 0x1_0000_0000 && t[RES][i] == BitOp(kind, t[OP0][i], t[OP1][i], 32)
  {
    hide BitOp, FixedRows, CompressedIn, SumIs, TableHolds, Honest, Tag;
    var t := tables[0];
    assert TableHolds(t, n, betas[0]);
    ShapeOf(t, n, betas[0]);
    RowSums(t, n, betas[0], i);
    forall x | x in betas ensures CompressedIn(RowQuads(t, n, i), FixedRows(n), x) {
      var b :| 0 <= b < |betas| && betas[b] == x;
      ShapeOf(tables[b], n, x);
      RowCompressedIn(tables[b], n, x, i);
      assert SameData(t, tables[b], n);
      assert RowQuads(tables[b], n, i) == RowQuads(t, n, i);
    }
    RowSound(kind, t[OP0][i], t[OP1][i], t[RES][i], Limbs(t, n, OP0_LIMBS, i), Limbs(t, n, OP1_LIMBS, i),
             Limbs(t, n, RES_LIMBS, i), n, betas);
  }

  lemma ShapeOf(t: Columns, n: nat, beta: Felt)
    requires TableHolds(t, n, beta)
    ensures Shape(t, n)
  {
  }

  // ---- the generator ----

  /** 32-bit operands are what the table is documented for, but an operand of 25 bits already breaks the sum: its
      top limb never reaches its column. */
  lemma TopLimbIsLost(kind: Kind, t: Columns, n: nat, beta: Felt)
    requires Shape(t, n) && n > 0
    requires forall c :: 0 <= c < RES_LIMBS_END ==> t[c] == CellColumn([Cell(kind, 0x100_0000, 0)], n, c)
    ensures !TableHolds(t, n, beta)
  {
    SumsOfRow(t, n, [Cell(kind, 0x100_0000, 0)], 0);
  }
}
