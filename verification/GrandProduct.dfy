/** The grand-product side of cross-table lookups: columns, challenges, partial products, the checks
    on a Z column, and why equal multisets give equal products. */
module GrandProduct {
  import opened Goldilocks
  import opened Air
  import opened Common
  import Lookup

  /** A linear combination of columns. */
  datatype Column = Column(terms: seq<(nat, Felt)>, constant: Felt)

  datatype Selection = Selection(columns: seq<Column>, filter: Option<Column>)

  datatype Challenge = Challenge(beta: Felt, gamma: Felt)

  /** One row of a trace. */
  type Row = seq<Felt>

  /** A column refers to columns of the table it is evaluated on. */
  predicate Within(c: Column, width: nat) {
    forall i :: 0 <= i < |c.terms| ==> c.terms[i].0 < width
  }

  function EvalTerms(terms: seq<(nat, Felt)>, row: Row): Felt
    requires forall i :: 0 <= i < |terms| ==> terms[i].0 < |row|
  {
    if terms == [] then 0 else
      var n := |terms| - 1;
      FAdd(EvalTerms(terms[..n], row), FMul(row[terms[n].0], terms[n].1))
  }

  function Eval(c: Column, row: Row): Felt
    requires Within(c, |row|)
  {
    FAdd(EvalTerms(c.terms, row), c.constant)
  }

  predicate Fits(s: Selection, width: nat) {
    && (forall i :: 0 <= i < |s.columns| ==> Within(s.columns[i], width))
    && (s.filter.Some? ==> Within(s.filter.value, width))
  }

  predicate TableFits(s: Selection, rows: seq<Row>) {
    forall i :: 0 <= i < |rows| ==> Fits(s, |rows[i]|)
  }

  function Filter(s: Selection, row: Row): Felt
    requires Fits(s, |row|)
  {
    if s.filter.Some? then Eval(s.filter.value, row) else 1
  }

  function Evals(s: Selection, row: Row): (r: seq<Felt>)
    requires Fits(s, |row|)
    ensures |r| == |s.columns|
  {
    seq(|s.columns|, i requires 0 <= i < |s.columns| && Fits(s, |row|) => Eval(s.columns[i], row))
  }

  /** `reduce_with_powers` by Horner's rule, plus the offset. */
  function Reduce(terms: seq<Felt>, beta: Felt): Felt {
    if terms == [] then 0 else FAdd(FMul(Reduce(terms[1..], beta), beta), terms[0])
  }

  function Combine(ch: Challenge, terms: seq<Felt>): Felt { FAdd(Reduce(terms, ch.beta), ch.gamma) }

  // ---- partial products ----

  predicate BinaryFilter(s: Selection, rows: seq<Row>)
    requires TableFits(s, rows)
  {
    forall i :: 0 <= i < |rows| ==> Filter(s, rows[i]) == 0 || Filter(s, rows[i]) == 1
  }

  /** The factor a row contributes. */
  function Factor(s: Selection, ch: Challenge, row: Row): Felt
    requires Fits(s, |row|)
  {
    if Filter(s, row) == 1 then Combine(ch, Evals(s, row)) else 1
  }

  /** The product of the factors of the first n rows. */
  function ProductTo(s: Selection, ch: Challenge, rows: seq<Row>, n: nat): Felt
    requires TableFits(s, rows) && n <= |rows|
  {
    if n == 0 then 1 else FMul(ProductTo(s, ch, rows, n - 1), Factor(s, ch, rows[n - 1]))
  }

  function Products(s: Selection, ch: Challenge, rows: seq<Row>): (r: seq<Felt>)
    requires TableFits(s, rows)
    ensures |r| == |rows| && forall i :: 0 <= i < |rows| ==> r[i] == ProductTo(s, ch, rows, i + 1)
  {
    seq(|rows|, i requires 0 <= i < |rows| && TableFits(s, rows) => ProductTo(s, ch, rows, i + 1))
  }

  /** `partial_products`: fails exactly when a filter value is neither zero nor one. */
  method PartialProducts(s: Selection, ch: Challenge, rows: seq<Row>) returns (r: Option<seq<Felt>>)
    requires TableFits(s, rows)
    ensures r.Some? <==> BinaryFilter(s, rows)
    ensures r.Some? ==> r.value == Products(s, ch, rows)
  {
    hide Combine, Evals, Eval;
    var prod: Felt := 1;
    var res: seq<Felt> := [];
    for i := 0 to |rows|
      invariant |res| == i && prod == ProductTo(s, ch, rows, i)
      invariant forall k :: 0 <= k < i ==> res[k] == ProductTo(s, ch, rows, k + 1)
      invariant forall k :: 0 <= k < i ==> Filter(s, rows[k]) == 0 || Filter(s, rows[k]) == 1
    {
      var filter := Filter(s, rows[i]);
      if filter == 1 {
        prod := FMul(prod, Combine(ch, Evals(s, rows[i])));
      } else if filter != 0 {
        return None;
      } else {
        TimesOne(prod);
      }
      res := res + [prod];
    }
    r := Some(res);
  }

  lemma TimesOne(a: Felt)
    ensures FMul(a, 1) == a && FMul(1, a) == a
  {
  }

  // ---- the checks on a Z column ----

  /** filter * x + 1 - filter, over the integers. */
  function Select(filter: int, x: int): int { filter * x + 1 - filter }

  function Selected(s: Selection, ch: Challenge, row: Row): int
    requires Fits(s, |row|)
  {
    Select(Filter(s, row), Combine(ch, Evals(s, row)))
  }

  predicate StepHolds(s: Selection, ch: Challenge, rows: seq<Row>, z: seq<Felt>, i: nat)
    requires TableFits(s, rows) && |z| == |rows| && 0 < i < |rows|
  {
    Vanishes(z[i] - z[i - 1] * Selected(s, ch, rows[i]))
  }

  /** `eval_cross_table_lookup_checks` over a whole table. */
  predicate ChecksHold(s: Selection, ch: Challenge, rows: seq<Row>, z: seq<Felt>)
    requires TableFits(s, rows) && |z| == |rows|
  {
    && (rows != [] ==> Vanishes(z[0] - Selected(s, ch, rows[0])))
    && (forall i :: 0 < i < |rows| ==> StepHolds(s, ch, rows, z, i))
  }

  lemma SelectedIsFactor(s: Selection, ch: Challenge, row: Row)
    requires Fits(s, |row|) && (Filter(s, row) == 0 || Filter(s, row) == 1)
    ensures Selected(s, ch, row) == Factor(s, ch, row)
  {
    hide Combine, Filter, Evals;
  }

  lemma ProductStep(a: Felt, z: Felt, f: Felt)
    ensures Vanishes(z - a * f) <==> z == FMul(a, f)
  {
    var p := a * f;
    ReduceCong(p, P);
    if Vanishes(z - p) {
      DivSum(z - p, p - p % P, P);
      var x: Felt := p % P;
      SameFelt(z, x);
    } else if z == p % P {
      DivSum(0, p - p % P, P);
    }
  }

  /** With a binary filter, the checks accept one column only, and it is that of the partial products. */
  lemma ChecksPinProducts(s: Selection, ch: Challenge, rows: seq<Row>, z: seq<Felt>)
    requires TableFits(s, rows) && |z| == |rows| && BinaryFilter(s, rows)
    ensures ChecksHold(s, ch, rows, z) <==> z == Products(s, ch, rows)
  {
    hide Selected, Factor, FMul, Vanishes, Filter;
    forall i | 0 < i < |rows|
      ensures StepHolds(s, ch, rows, z, i) <==> z[i] == FMul(z[i - 1], Factor(s, ch, rows[i]))
    {
      SelectedIsFactor(s, ch, rows[i]);
      ProductStep(z[i - 1], z[i], Factor(s, ch, rows[i]));
    }
    if rows != [] {
      SelectedIsFactor(s, ch, rows[0]);
      var f := Factor(s, ch, rows[0]);
      ProductStep(1, z[0], f);
      TimesOne(f);
      assert 1 * f == f;
      assert ProductTo(s, ch, rows, 1) == FMul(ProductTo(s, ch, rows, 0), f);
    }
    if ChecksHold(s, ch, rows, z) {
      forall i | 0 <= i < |rows| ensures z[i] == ProductTo(s, ch, rows, i + 1) {
        Pinned(s, ch, rows, z, i);
      }
    }
  }

  lemma {:induction false} Pinned(s: Selection, ch: Challenge, rows: seq<Row>, z: seq<Felt>, i: nat)
    requires TableFits(s, rows) && |z| == |rows| && i < |rows|
    requires z[0] == ProductTo(s, ch, rows, 1)
    requires forall k {:trigger rows[k]} :: 0 < k < |rows| ==> z[k] == FMul(z[k - 1], Factor(s, ch, rows[k]))
    ensures z[i] == ProductTo(s, ch, rows, i + 1)
  {
    if i > 0 {
      Pinned(s, ch, rows, z, i - 1);
      assert z[i] == FMul(z[i - 1], Factor(s, ch, rows[i]));
    }
  }

  // ---- products over multisets ----

  lemma ModTimes(x: int, z: int)
    ensures (x % P * z) % P == (x * z) % P
  {
    ReduceCong(x, P);
    CongProduct(x, x % P, z, z, P);
    CongSameRemainder(x * z, x % P * z, P);
  }

  lemma MulAssoc(a: Felt, b: Felt, c: Felt)
    ensures FMul(FMul(a, b), c) == FMul(a, FMul(b, c)) && FMul(a, b) == FMul(b, a)
  {
    var x: int, y: int, z: int := a, b, c;
    ModTimes(x * y, z);
    ModTimes(y * z, x);
    Reorder(x, y, z);
    Reorder(x, y * z % P, 1);
  }

  lemma Reorder(x: int, y: int, z: int)
    ensures (x * y) * z == (y * z) * x && x * y == y * x
  {
  }

  /** The rows that pass the filter, as the tuples that are looked up. */
  function Chosen(s: Selection, rows: seq<Row>, n: nat): seq<seq<Felt>>
    requires TableFits(s, rows) && n <= |rows|
  {
    if n == 0 then [] else
      Chosen(s, rows, n - 1) + if Filter(s, rows[n - 1]) == 1 then [Evals(s, rows[n - 1])] else []
  }

  function CombinedProduct(ch: Challenge, tuples: seq<seq<Felt>>): Felt {
    if tuples == [] then 1 else
      FMul(CombinedProduct(ch, tuples[..|tuples| - 1]), Combine(ch, tuples[|tuples| - 1]))
  }

  lemma {:induction false} ProductIsCombined(s: Selection, ch: Challenge, rows: seq<Row>, n: nat)
    requires TableFits(s, rows) && n <= |rows|
    ensures ProductTo(s, ch, rows, n) == CombinedProduct(ch, Chosen(s, rows, n))
  {
    hide Combine, Evals, Filter, FMul;
    if n > 0 {
      ProductIsCombined(s, ch, rows, n - 1);
      var below := Chosen(s, rows, n - 1);
      if Filter(s, rows[n - 1]) == 1 {
        assert (below + [Evals(s, rows[n - 1])])[..|below|] == below;
      } else {
        TimesOne(ProductTo(s, ch, rows, n - 1));
        assert below + [] == below;
      }
    }
  }

  lemma {:induction false} CombinedConcat(ch: Challenge, a: seq<seq<Felt>>, b: seq<seq<Felt>>)
    ensures CombinedProduct(ch, a + b) == FMul(CombinedProduct(ch, a), CombinedProduct(ch, b))
  {
    hide Combine, FMul;
    if b == [] {
      assert a + b == a;
      TimesOne(CombinedProduct(ch, a));
    } else {
      var n := |b| - 1;
      CombinedConcat(ch, a, b[..n]);
      assert (a + b)[..|a + b| - 1] == a + b[..n];
      MulAssoc(CombinedProduct(ch, a), CombinedProduct(ch, b[..n]), Combine(ch, b[n]));
    }
  }

  lemma CombinedOne(ch: Challenge, t: seq<Felt>)
    ensures CombinedProduct(ch, [t]) == Combine(ch, t)
  {
    assert [t][..0] == [];
    TimesOne(Combine(ch, t));
  }

  /** A tuple can be moved to the end. */
  lemma MoveToEnd(ch: Challenge, b: seq<seq<Felt>>, i: nat)
    requires i < |b|
    ensures CombinedProduct(ch, b) == FMul(CombinedProduct(ch, b[..i] + b[i + 1..]), Combine(ch, b[i]))
  {
    hide Combine, FMul, CombinedProduct;
    var l, x, r := b[..i], [b[i]], b[i + 1..];
    assert b == (l + x) + r;
    CombinedConcat(ch, l + x, r);
    CombinedConcat(ch, l, x);
    CombinedConcat(ch, l, r);
    CombinedOne(ch, b[i]);
    var pl, px, pr := CombinedProduct(ch, l), Combine(ch, b[i]), CombinedProduct(ch, r);
    MulAssoc(pl, px, pr);
    MulAssoc(pl, pr, px);
    MulAssoc(px, pr, 0);
  }

  /** The product depends on the multiset of tuples only. */
  lemma {:induction false} ProductOfMultiset(ch: Challenge, a: seq<seq<Felt>>, b: seq<seq<Felt>>)
    requires multiset(a) == multiset(b)
    ensures CombinedProduct(ch, a) == CombinedProduct(ch, b)
  {
    hide Combine, FMul;
    if a == [] {
      assert |multiset(b)| == 0;
    } else {
      var n := |a| - 1;
      assert a == a[..n] + [a[n]];
      assert a[n] in multiset(b);
      var i :| 0 <= i < |b| && b[i] == a[n];
      var rest := b[..i] + b[i + 1..];
      assert b == b[..i] + [b[i]] + b[i + 1..];
      assert multiset(a) == multiset(a[..n]) + multiset{a[n]};
      assert multiset(b) == multiset(rest) + multiset{a[n]};
      Lookup.Cancel(multiset(a[..n]), multiset(rest), multiset{a[n]});
      ProductOfMultiset(ch, a[..n], rest);
      MoveToEnd(ch, b, i);
    }
  }
}
