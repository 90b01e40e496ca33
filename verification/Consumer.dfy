/** How the constraints of one row are folded into a few accumulators, and why a folded zero means that
    the constraints hold. */
module Consumer {
  import opened Goldilocks
  import opened Air

  /** The polynomial whose coefficients, highest degree first, are the constraints emitted so far. */
  function Horner(cs: seq<int>, x: int): int {
    if cs == [] then 0 else Horner(cs[..|cs| - 1], x) * x + cs[|cs| - 1]
  }

  lemma HornerAppend(cs: seq<int>, c: int, x: int)
    ensures Horner(cs + [c], x) == Horner(cs, x) * x + c
  {
    assert (cs + [c])[..|cs|] == cs;
  }

  // ---- a polynomial with as many roots as coefficients is zero ----

  /** The quotient by (x - r): its coefficients are the partial sums at r. */
  function Deflate(cs: seq<int>, r: int): (q: seq<int>)
    ensures |q| == if cs == [] then 0 else |cs| - 1
  {
    if |cs| <= 1 then [] else Deflate(cs[..|cs| - 1], r) + [Horner(cs[..|cs| - 1], r)]
  }

  lemma {:induction false} DeflateAt(cs: seq<int>, r: int, i: nat)
    requires i + 1 < |cs|
    ensures Deflate(cs, r)[i] == Horner(cs[..i + 1], r)
  {
    var ds := cs[..|cs| - 1];
    if i + 2 < |cs| {
      DeflateAt(ds, r, i);
      assert ds[..i + 1] == cs[..i + 1];
    }
  }

  lemma HornerLast(cs: seq<int>, x: int)
    requires cs != []
    ensures Horner(cs, x) == Horner(cs[..|cs| - 1], x) * x + cs[|cs| - 1]
  {
  }

  lemma HornerShort(cs: seq<int>, x: int)
    requires |cs| <= 1
    ensures Horner(cs, x) == if cs == [] then 0 else cs[0]
  {
  }

  /** Dividing by (x - r) leaves the value at r. */
  lemma {:induction false} Division(cs: seq<int>, r: int, x: int)
    ensures Horner(cs, x) - Horner(cs, r) == (x - r) * Horner(Deflate(cs, r), x)
  {
    hide Horner;
    if |cs| <= 1 {
      HornerShort(cs, x);
      HornerShort(cs, r);
      HornerShort([], x);
    } else {
      var ds := cs[..|cs| - 1];
      Division(ds, r, x);
      HornerLast(cs, x);
      HornerLast(cs, r);
      HornerAppend(Deflate(ds, r), Horner(ds, r), x);
      DivisionStep(Horner(ds, x), Horner(ds, r), Horner(Deflate(ds, r), x), x, r);
    }
  }

  lemma DivisionStep(a: int, b: int, q: int, x: int, r: int)
    requires a - b == (x - r) * q
    ensures a * x - b * r == (x - r) * (q * x + b)
  {
    assert a * x == b * x + (x - r) * q * x by { assert a == b + (x - r) * q; }
    assert (x - r) * (q * x + b) == (x - r) * (q * x) + (x - r) * b;
    assert (x - r) * q * x == (x - r) * (q * x);
  }

  predicate AllVanish(cs: seq<int>) {
    forall i :: 0 <= i < |cs| ==> Vanishes(cs[i])
  }

  ghost predicate Roots(cs: seq<int>, xs: seq<Felt>) {
    forall k :: 0 <= k < |xs| ==> Vanishes(Horner(cs, xs[k]))
  }

  predicate Distinct(xs: seq<Felt>) {
    forall j, k :: 0 <= j < k < |xs| ==> xs[j] != xs[k]
  }

  lemma {:induction false} VanishingSum(cs: seq<int>, x: int)
    requires AllVanish(cs)
    ensures Vanishes(Horner(cs, x))
  {
    if cs != [] {
      var ds := cs[..|cs| - 1];
      VanishingSum(ds, x);
      ZeroProduct(Horner(ds, x), x);
      DivSum(Horner(ds, x) * x, cs[|cs| - 1], P);
    }
  }

  lemma RootOfQuotient(cs: seq<int>, r: Felt, x: Felt)
    requires r != x && Vanishes(Horner(cs, r)) && Vanishes(Horner(cs, x))
    ensures Vanishes(Horner(Deflate(cs, r), x))
  {
    hide Horner, Deflate;
    Division(cs, r, x);
    DivSum(Horner(cs, x), Horner(cs, r), P);
    var d: int := x - r;
    ZeroProduct(d, Horner(Deflate(cs, r), x));
    SameFelt(x, r);
  }

  /** The coefficient is the difference of two partial sums. */
  lemma CoefficientVanishes(cs: seq<int>, r: Felt, i: nat)
    requires i < |cs| && AllVanish(Deflate(cs, r)) && Vanishes(Horner(cs, r))
    ensures Vanishes(cs[i])
  {
    hide Horner, Deflate;
    var before, upTo := Horner(cs[..i], r), Horner(cs[..i + 1], r);
    assert cs[..i + 1][..i] == cs[..i];
    HornerLast(cs[..i + 1], r);
    if i + 1 < |cs| { DeflateAt(cs, r, i); } else { assert cs[..i + 1] == cs; }
    if i > 0 { DeflateAt(cs, r, i - 1); } else { HornerShort(cs[..i], r); }
    ZeroProduct(before, r);
    DivSum(upTo, before * r, P);
  }

  lemma {:induction false} RootsBound(cs: seq<int>, xs: seq<Felt>)
    requires |xs| >= |cs| && Distinct(xs) && Roots(cs, xs)
    ensures AllVanish(cs)
    decreases |cs|
  {
    hide Vanishes, Horner, Deflate;
    if cs != [] {
      var r, rest := xs[0], xs[1..];
      forall k | 0 <= k < |rest| ensures Vanishes(Horner(Deflate(cs, r), rest[k])) {
        RootOfQuotient(cs, r, xs[k + 1]);
      }
      RootsBound(Deflate(cs, r), rest);
      forall i | 0 <= i < |cs| ensures Vanishes(cs[i]) {
        CoefficientVanishes(cs, r, i);
      }
    }
  }

  // ---- the consumer ----

  /** The rows a constraint is meant for. */
  datatype Kind = Everywhere | Transition | FirstRow | LastRow

  /** The values, at the point of one row, of X - g^(n-1) and of the two Lagrange basis polynomials. */
  datatype Point = Point(zLast: Felt, lagrangeFirst: Felt, lagrangeLast: Felt)

  function Filtered(kind: Kind, c: int, at: Point): int {
    match kind
    case Everywhere => c
    case Transition => c * at.zLast
    case FirstRow => c * at.lagrangeFirst
    case LastRow => c * at.lagrangeLast
  }

  datatype Emitted = Emitted(kind: Kind, value: int)

  function FilteredAll(es: seq<Emitted>, at: Point): (r: seq<int>)
    ensures |r| == |es|
  {
    seq(|es|, i requires 0 <= i < |es| => Filtered(es[i].kind, es[i].value, at))
  }

  /** A point of the trace domain: the filters are zero exactly outside the rows they stand for. */
  predicate PointOf(at: Point, isFirst: bool, isLast: bool) {
    && (at.zLast == 0 <==> isLast)
    && (at.lagrangeFirst == 0 <==> !isFirst)
    && (at.lagrangeLast == 0 <==> !isLast)
  }

  predicate Applies(kind: Kind, isFirst: bool, isLast: bool) {
    match kind
    case Everywhere => true
    case Transition => !isLast
    case FirstRow => isFirst
    case LastRow => isLast
  }

  /** `ConstraintConsumer`. */
  class ConstraintConsumer {
    const alphas: seq<Felt>
    const at: Point
    const accs: array<Felt>
    ghost var emitted: seq<Emitted>

    /** Each accumulator is the polynomial of everything emitted, at its own challenge. */
    ghost predicate Valid()
      reads this, accs
    {
      && accs.Length == |alphas|
      && forall k :: 0 <= k < |alphas| ==> accs[k] == Canon(Horner(FilteredAll(emitted, at), alphas[k]))
    }

    constructor (alphas: seq<Felt>, at: Point)
      ensures Valid() && fresh(accs) && emitted == [] && this.alphas == alphas && this.at == at
    {
      this.alphas := alphas;
      this.at := at;
      accs := new Felt[|alphas|](_ => 0);
      emitted := [];
    }

    /** `constraint`, `constraint_transition`, `constraint_first_row` and `constraint_last_row`. */
    method Emit(kind: Kind, c: Felt)
      requires Valid()
      modifies this, accs
      ensures Valid() && emitted == old(emitted) + [Emitted(kind, c)]
    {
      var v := Canon(Filtered(kind, c, at));
      ghost var before := FilteredAll(emitted, at);
      for k := 0 to accs.Length
        invariant emitted == old(emitted)
        invariant forall j :: 0 <= j < k ==> accs[j] == Canon(Horner(before + [Filtered(kind, c, at)], alphas[j]))
        invariant forall j :: k <= j < accs.Length ==> accs[j] == Canon(Horner(before, alphas[j]))
      {
        Accumulate(before, alphas[k], accs[k], Filtered(kind, c, at));
        accs[k] := FAdd(FMul(accs[k], alphas[k]), v);
      }
      emitted := emitted + [Emitted(kind, c)];
      assert FilteredAll(emitted, at) == before + [Filtered(kind, c, at)];
    }
  }

  lemma Accumulate(cs: seq<int>, alpha: Felt, acc: Felt, c: int)
    requires acc == Canon(Horner(cs, alpha))
    ensures FAdd(FMul(acc, alpha), Canon(c)) == Canon(Horner(cs + [c], alpha))
  {
    hide Horner;
    HornerAppend(cs, c, alpha);
    var h := Horner(cs, alpha);
    ReduceCong(h, P);
    CongProduct(h, acc, alpha, alpha, P);
    ReduceCong(acc * alpha, P);
    ReduceCong(c, P);
    DivSum(h * alpha - acc * alpha, acc * alpha - FMul(acc, alpha), P);
    DivSum(h * alpha - FMul(acc, alpha), c - Canon(c), P);
    CongSameRemainder(h * alpha + c, FMul(acc, alpha) + Canon(c), P);
  }

  lemma FilteredVanishes(e: Emitted, at: Point, isFirst: bool, isLast: bool)
    requires PointOf(at, isFirst, isLast)
    ensures Vanishes(Filtered(e.kind, e.value, at)) <==> (Applies(e.kind, isFirst, isLast) ==> Vanishes(e.value))
  {
    ZeroProduct(e.value, at.zLast);
    ZeroProduct(e.value, at.lagrangeFirst);
    ZeroProduct(e.value, at.lagrangeLast);
  }

  ghost predicate RowHolds(es: seq<Emitted>, isFirst: bool, isLast: bool) {
    forall i :: 0 <= i < |es| && Applies(es[i].kind, isFirst, isLast) ==> Vanishes(es[i].value)
  }

  /** What the accumulators say about a row of the trace. If every constraint meant for the row holds they
      are zero whatever the challenges are. If they are zero for as many different challenges as
      there are constraints, every constraint meant for the row holds. */
  lemma AccumulatorsDecide(es: seq<Emitted>, at: Point, isFirst: bool, isLast: bool, alphas: seq<Felt>)
    requires PointOf(at, isFirst, isLast)
    ensures RowHolds(es, isFirst, isLast) ==> Roots(FilteredAll(es, at), alphas)
    ensures |alphas| >= |es| && Distinct(alphas) && Roots(FilteredAll(es, at), alphas) ==> RowHolds(es, isFirst, isLast)
  {
    hide Vanishes, Horner, Filtered, PointOf;
    var cs := FilteredAll(es, at);
    forall i | 0 <= i < |es|
      ensures Vanishes(cs[i]) <==> (Applies(es[i].kind, isFirst, isLast) ==> Vanishes(es[i].value))
    {
      FilteredVanishes(es[i], at, isFirst, isLast);
    }
    if RowHolds(es, isFirst, isLast) {
      forall k | 0 <= k < |alphas| ensures Vanishes(Horner(cs, alphas[k])) { VanishingSum(cs, alphas[k]); }
    }
    if |alphas| >= |es| && Distinct(alphas) && Roots(cs, alphas) { RootsBound(cs, alphas); }
  }
}
