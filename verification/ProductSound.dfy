/** Why a running product pins down the rows it multiplies: two lists of rows whose products agree at
    more challenges than either list is long hold the same rows. */
module ProductSound {
  import opened Goldilocks
  import opened Air
  import opened Consumer
  import opened GrandProduct
  import Lookup

  // ---- coefficient lists ----

  function Mix(c: seq<int>, d: seq<int>, u: int, v: int): (r: seq<int>)
    requires |c| == |d|
    ensures |r| == |c|
  {
    seq(|c|, i requires 0 <= i < |c| => u * c[i] + v * d[i])
  }

  lemma {:induction false} HornerMix(c: seq<int>, d: seq<int>, u: int, v: int, x: int)
    requires |c| == |d|
    ensures Horner(Mix(c, d, u, v), x) == u * Horner(c, x) + v * Horner(d, x)
  {
    hide Horner;
    if c == [] {
      HornerShort([], x);
    } else {
      var n := |c| - 1;
      HornerMix(c[..n], d[..n], u, v, x);
      assert Mix(c, d, u, v)[..n] == Mix(c[..n], d[..n], u, v);
      HornerLast(Mix(c, d, u, v), x);
      HornerLast(c, x);
      HornerLast(d, x);
      Distribute(u, v, Horner(c[..n], x), Horner(d[..n], x), x, c[n], d[n]);
    }
  }

  lemma Distribute(u: int, v: int, a: int, b: int, x: int, p: int, q: int)
    ensures (u * a + v * b) * x + (u * p + v * q) == u * (a * x + p) + v * (b * x + q)
  {
    assert (u * a + v * b) * x == u * (a * x) + v * (b * x) by {
      assert u * a * x == u * (a * x);
      assert v * b * x == v * (b * x);
    }
  }

  function Zeros(k: nat): (r: seq<int>)
    ensures |r| == k
  {
    seq(k, _ => 0)
  }

  lemma {:induction false} HornerPadded(k: nat, c: seq<int>, x: int)
    ensures Horner(Zeros(k) + c, x) == Horner(c, x)
  {
    hide Horner;
    var s := Zeros(k) + c;
    if c != [] {
      HornerPadded(k, c[..|c| - 1], x);
      assert s[..|s| - 1] == Zeros(k) + c[..|c| - 1];
      HornerLast(s, x);
      HornerLast(c, x);
    } else {
      assert s == Zeros(k);
      HornerShort([], x);
      if k > 0 {
        HornerPadded(k - 1, [], x);
        HornerLast(s, x);
        assert s[..|s| - 1] == Zeros(k - 1) + [];
      }
    }
  }

  // ---- the polynomial of a product ----

  /** The product of (v + x) over the integers. */
  function Prod(vals: seq<Felt>, x: int): int {
    if vals == [] then 1 else Prod(vals[..|vals| - 1], x) * (vals[|vals| - 1] + x)
  }

  function Coefs(vals: seq<Felt>): (r: seq<int>)
    ensures |r| == |vals| + 1
  {
    if vals == [] then [1] else
      var c := Coefs(vals[..|vals| - 1]);
      Mix(c + [0], [0] + c, 1, vals[|vals| - 1])
  }

  lemma {:induction false} CoefsAre(vals: seq<Felt>, x: int)
    ensures Horner(Coefs(vals), x) == Prod(vals, x)
  {
    hide Horner;
    if vals == [] {
      HornerShort([1], x);
    } else {
      var n := |vals| - 1;
      var c := Coefs(vals[..n]);
      CoefsAre(vals[..n], x);
      HornerMix(c + [0], [0] + c, 1, vals[n], x);
      HornerAppend(c, 0, x);
      assert [0] + c == Zeros(1) + c;
      HornerPadded(1, c, x);
      var p, v: int := Prod(vals[..n], x), vals[n];
      assert p * (v + x) == p * x + v * p;
    }
  }

  ghost predicate AgreeAt(a: seq<Felt>, b: seq<Felt>, x: int) { Vanishes(Prod(a, x) - Prod(b, x)) }

  ghost predicate AgreeOn(a: seq<Felt>, b: seq<Felt>, xs: seq<Felt>) {
    forall k :: 0 <= k < |xs| ==> AgreeAt(a, b, xs[k])
  }

  function Difference(a: seq<Felt>, b: seq<Felt>): (r: seq<int>) {
    var n := if |a| > |b| then |a| else |b|;
    Mix(Zeros(n - |a|) + Coefs(a), Zeros(n - |b|) + Coefs(b), 1, -1)
  }

  lemma DifferenceIs(a: seq<Felt>, b: seq<Felt>, x: int)
    ensures Horner(Difference(a, b), x) == Prod(a, x) - Prod(b, x)
  {
    hide Horner, Prod, Coefs, Mix;
    var n := if |a| > |b| then |a| else |b|;
    HornerMix(Zeros(n - |a|) + Coefs(a), Zeros(n - |b|) + Coefs(b), 1, -1, x);
    HornerPadded(n - |a|, Coefs(a), x);
    HornerPadded(n - |b|, Coefs(b), x);
    CoefsAre(a, x);
    CoefsAre(b, x);
  }

  /** Agreement at more points than there are factors is agreement everywhere. */
  lemma AgreeEverywhere(a: seq<Felt>, b: seq<Felt>, xs: seq<Felt>, x: int)
    requires Distinct(xs) && |xs| > |a| && |xs| > |b| && AgreeOn(a, b, xs)
    ensures AgreeAt(a, b, x)
  {
    hide Horner, Prod, Vanishes;
    var d := Difference(a, b);
    forall k | 0 <= k < |xs| ensures Vanishes(Horner(d, xs[k])) {
      assert AgreeAt(a, b, xs[k]);
      DifferenceIs(a, b, xs[k]);
    }
    RootsBound(d, xs);
    VanishingSum(d, x);
    DifferenceIs(a, b, x);
  }

  // ---- factors and roots ----

  lemma {:induction false} ZeroFactor(vals: seq<Felt>, x: int) returns (j: nat)
    requires Vanishes(Prod(vals, x))
    ensures j < |vals| && Vanishes(vals[j] + x)
  {
    if vals == [] {
      assert false;
    } else {
      var n := |vals| - 1;
      ZeroProduct(Prod(vals[..n], x), vals[n] + x);
      if Vanishes(vals[n] + x) { j := n; } else { j := ZeroFactor(vals[..n], x); }
    }
  }

  function Without<T>(vals: seq<T>, i: nat): (r: seq<T>)
    requires i < |vals|
    ensures |r| == |vals| - 1
  {
    vals[..i] + vals[i + 1..]
  }

  /** A factor can be taken out of the product. */
  lemma {:induction false} TakeOut(vals: seq<Felt>, i: nat, x: int)
    requires i < |vals|
    ensures Prod(vals, x) == Prod(Without(vals, i), x) * (vals[i] + x)
  {
    var n := |vals| - 1;
    if i == n {
      assert Without(vals, i) == vals[..n];
    } else {
      TakeOut(vals[..n], i, x);
      var w := Without(vals, i);
      assert w[..n - 1] == Without(vals[..n], i);
      Swap(Prod(w[..n - 1], x), vals[i] + x, vals[n] + x);
    }
  }

  lemma Swap(p: int, a: int, b: int)
    ensures (p * a) * b == (p * b) * a
  {
    assert (p * a) * b == p * (a * b) && (p * b) * a == p * (b * a);
  }

  lemma WithoutMultiset(vals: seq<Felt>, i: nat)
    requires i < |vals|
    ensures multiset(vals) == multiset(Without(vals, i)) + multiset{vals[i]}
  {
    assert vals == vals[..i] + [vals[i]] + vals[i + 1..];
  }

  /** Away from the common root the remaining factors agree too. */
  lemma CancelFactor(a: seq<Felt>, b: seq<Felt>, i: nat, j: nat, x: int)
    requires i < |a| && j < |b| && a[i] == b[j] && AgreeAt(a, b, x) && !Vanishes(a[i] + x)
    ensures AgreeAt(Without(a, i), Without(b, j), x)
  {
    hide Prod, Without;
    TakeOut(a, i, x);
    TakeOut(b, j, x);
    var p, q, f := Prod(Without(a, i), x), Prod(Without(b, j), x), a[i] + x;
    assert p * f - q * f == (p - q) * f;
    ZeroProduct(p - q, f);
  }

  /** All points but the one where the common factor vanishes. */
  lemma DropRoot(xs: seq<Felt>, v: Felt) returns (ys: seq<Felt>)
    requires Distinct(xs) && xs != []
    ensures Distinct(ys) && |ys| == |xs| - 1
    ensures forall k :: 0 <= k < |ys| ==> ys[k] in xs && !Vanishes(v + ys[k])
  {
    var root := FSub(0, v);
    if root in xs {
      var i :| 0 <= i < |xs| && xs[i] == root;
      ys := Without(xs, i);
      forall k | 0 <= k < |ys| ensures ys[k] in xs && !Vanishes(v + ys[k]) {
        assert ys[k] == xs[if k < i then k else k + 1];
        NegativeUnique(v, ys[k]);
      }
    } else {
      ys := xs[1..];
      forall k | 0 <= k < |ys| ensures !Vanishes(v + ys[k]) { NegativeUnique(v, ys[k]); }
    }
  }

  lemma NegativeUnique(v: Felt, x: Felt)
    ensures Vanishes(v + x) <==> x == FSub(0, v)
  {
    var y: int := v;
    assert (0 - y) % P == if y == 0 then 0 else P - y;
  }

  /** Products that agree at more challenges than either list is long come from the same multiset. */
  lemma {:induction false} ProductsDetermine(a: seq<Felt>, b: seq<Felt>, xs: seq<Felt>)
    requires Distinct(xs) && |xs| > |a| && |xs| > |b| && AgreeOn(a, b, xs)
    ensures multiset(a) == multiset(b)
    decreases |a|
  {
    hide Prod, Vanishes, Without, AgreeAt;
    if a == [] {
      if b != [] { NothingEqualsOne(b, xs); assert false; }
    } else {
      var j := Common(a, b, xs);
      var ys := DropRoot(xs, a[0]);
      forall k | 0 <= k < |ys| ensures AgreeAt(Without(a, 0), Without(b, j), ys[k]) {
        var i :| 0 <= i < |xs| && xs[i] == ys[k];
        CancelFactor(a, b, 0, j, ys[k]);
      }
      ProductsDetermine(Without(a, 0), Without(b, j), ys);
      WithoutMultiset(a, 0);
      WithoutMultiset(b, j);
    }
  }

  /** The root that belongs to the first factor on the left is the root of a factor on the right. */
  lemma Common(a: seq<Felt>, b: seq<Felt>, xs: seq<Felt>) returns (j: nat)
    requires Distinct(xs) && |xs| > |a| && |xs| > |b| && AgreeOn(a, b, xs) && a != []
    ensures j < |b| && b[j] == a[0]
  {
    var v: int := a[0];
    var x := -v;
    AgreeEverywhere(a, b, xs, x);
    TakeOut(a, 0, x);
    ZeroProduct(Prod(Without(a, 0), x), a[0] + x);
    DivSum(Prod(a, x), Prod(a, x) - Prod(b, x), P);
    j := ZeroFactor(b, x);
    assert b[j] + x == b[j] - a[0];
    SameFelt(b[j], a[0]);
  }

  lemma NothingEqualsOne(b: seq<Felt>, xs: seq<Felt>)
    requires Distinct(xs) && |xs| > |b| && b != []
    ensures !AgreeOn([], b, xs)
  {
    var v: int := b[0];
    assert Prod([], -v) == 1;
    if AgreeOn([], b, xs) {
      AgreeEverywhere([], b, xs, -v);
      TakeOut(b, 0, -v);
      ZeroProduct(Prod(Without(b, 0), -v), b[0] - v);
      DivSum(1 - Prod(b, -v), Prod(b, -v), P);
    }
  }

  // ---- rows ----

  function Reduced(tuples: seq<seq<Felt>>, beta: Felt): (r: seq<Felt>)
    ensures |r| == |tuples|
  {
    seq(|tuples|, i requires 0 <= i < |tuples| => Reduce(tuples[i], beta))
  }

  lemma {:induction false} CombinedIs(ch: Challenge, tuples: seq<seq<Felt>>)
    ensures CombinedProduct(ch, tuples) == Prod(Reduced(tuples, ch.beta), ch.gamma) % P
  {
    if tuples != [] {
      var n := |tuples| - 1;
      CombinedIs(ch, tuples[..n]);
      assert Reduced(tuples, ch.beta)[..n] == Reduced(tuples[..n], ch.beta);
      var p, s := Prod(Reduced(tuples[..n], ch.beta), ch.gamma), Reduce(tuples[n], ch.beta) + ch.gamma;
      MulReduced(p, s);
    }
  }

  lemma MulReduced(p: int, s: int)
    ensures ((p % P) * (s % P)) % P == (p * s) % P
  {
    ReduceCong(p, P);
    ReduceCong(s, P);
    CongProduct(p, p % P, s, s % P, P);
    CongSameRemainder(p * s, (p % P) * (s % P), P);
  }

  /** The rows as they enter the product: the two sides of a lookup. */
  ghost predicate ProductsEqual(a: seq<seq<Felt>>, b: seq<seq<Felt>>, beta: Felt, gamma: Felt) {
    CombinedProduct(Challenge(beta, gamma), a) == CombinedProduct(Challenge(beta, gamma), b)
  }

  /** For a fixed beta: products that are equal for more gammas than there are rows on either side come from
      the same reduced rows, and the same reduced rows give equal products for every gamma. */
  lemma ReducedRowsDetermined(a: seq<seq<Felt>>, b: seq<seq<Felt>>, beta: Felt, gammas: seq<Felt>)
    requires Distinct(gammas) && |gammas| > |a| && |gammas| > |b|
    ensures (forall k :: 0 <= k < |gammas| ==> ProductsEqual(a, b, beta, gammas[k]))
            <==> multiset(Reduced(a, beta)) == multiset(Reduced(b, beta))
  {
    hide CombinedProduct, Reduced, Prod;
    var ra, rb := Reduced(a, beta), Reduced(b, beta);
    forall k | 0 <= k < |gammas| ensures ProductsEqual(a, b, beta, gammas[k]) <==> AgreeAt(ra, rb, gammas[k]) {
      CombinedIs(Challenge(beta, gammas[k]), a);
      CombinedIs(Challenge(beta, gammas[k]), b);
      EqualRemainders(Prod(ra, gammas[k]), Prod(rb, gammas[k]));
    }
    if AgreeOn(ra, rb, gammas) { ProductsDetermine(ra, rb, gammas); }
    if multiset(ra) == multiset(rb) {
      forall k | 0 <= k < |gammas| ensures AgreeAt(ra, rb, gammas[k]) { ProdOfMultiset(ra, rb, gammas[k]); }
    }
  }

  lemma EqualRemainders(x: int, y: int)
    ensures Vanishes(x - y) <==> x % P == y % P
  {
    if Vanishes(x - y) { CongSameRemainder(x, y, P); }
    ReduceCong(x, P);
    ReduceCong(y, P);
    DivSum(x - x % P, y - y % P, P);
  }

  lemma {:induction false} ProdOfMultiset(a: seq<Felt>, b: seq<Felt>, x: int)
    requires multiset(a) == multiset(b)
    ensures Prod(a, x) == Prod(b, x)
    decreases |a|
  {
    hide Without, Prod;
    if a == [] {
      assert |multiset(b)| == 0;
    } else {
      assert a[0] in multiset(b);
      var j :| 0 <= j < |b| && b[j] == a[0];
      TakeOut(a, 0, x);
      TakeOut(b, j, x);
      WithoutMultiset(a, 0);
      WithoutMultiset(b, j);
      Lookup.Cancel(multiset(Without(a, 0)), multiset(Without(b, j)), multiset{a[0]});
      ProdOfMultiset(Without(a, 0), Without(b, j), x);
    }
  }

  // ---- reducing a row ----

  /** A row as the coefficients of the polynomial that `Reduce` evaluates. */
  function Backwards(t: seq<Felt>): (r: seq<int>)
    ensures |r| == |t|
  {
    seq(|t|, i requires 0 <= i < |t| => t[|t| - 1 - i] as int)
  }

  lemma {:induction false} ReduceIs(t: seq<Felt>, beta: Felt)
    ensures Reduce(t, beta) == Horner(Backwards(t), beta) % P
  {
    hide Horner, FMul, FAdd;
    if t == [] {
      HornerShort(Backwards(t), beta);
    } else {
      ReduceIs(t[1..], beta);
      assert Backwards(t) == Backwards(t[1..]) + [t[0] as int];
      Accumulate(Backwards(t[1..]), beta, Reduce(t[1..], beta), t[0]);
      Canonical(t[0]);
    }
  }

  lemma Canonical(x: Felt)
    ensures Canon(x) == x
  {
  }

  /** Two rows of the same width that reduce to the same element for as many betas as they have entries are
      the same row. */
  lemma RowsDetermined(t: seq<Felt>, u: seq<Felt>, betas: seq<Felt>)
    requires |t| == |u| <= |betas| && Distinct(betas)
    requires forall k :: 0 <= k < |betas| ==> Reduce(t, betas[k]) == Reduce(u, betas[k])
    ensures t == u
  {
    hide Horner, Reduce, Vanishes, Mix;
    var c, d := Backwards(t), Backwards(u);
    var m := Mix(c, d, 1, -1);
    forall k | 0 <= k < |betas| ensures Vanishes(Horner(m, betas[k])) {
      ReduceIs(t, betas[k]);
      ReduceIs(u, betas[k]);
      HornerMix(c, d, 1, -1, betas[k]);
      EqualRemainders(Horner(c, betas[k]), Horner(d, betas[k]));
    }
    RootsBound(m, betas);
    forall i | 0 <= i < |t| ensures t[i] == u[i] {
      MixAt(c, d, |t| - 1 - i);
      SameFelt(t[i], u[i]);
    }
  }

  lemma MixAt(c: seq<int>, d: seq<int>, i: nat)
    requires i < |c| == |d|
    ensures Mix(c, d, 1, -1)[i] == c[i] - d[i]
  {
  }

  // ---- a beta that tells all rows apart ----

  predicate Separates(beta: Felt, t: seq<Felt>, u: seq<Felt>) { Reduce(t, beta) == Reduce(u, beta) ==> t == u }

  function Separating(betas: seq<Felt>, t: seq<Felt>, u: seq<Felt>): (r: seq<Felt>)
    ensures forall k :: 0 <= k < |r| ==> r[k] in betas && Separates(r[k], t, u)
  {
    if betas == [] then [] else
      var n := |betas| - 1;
      Separating(betas[..n], t, u) + if Separates(betas[n], t, u) then [betas[n]] else []
  }

  /** The betas that fail to separate two rows of width w number less than w, or none if w is 0. */
  lemma {:induction false} FewFail(betas: seq<Felt>, t: seq<Felt>, u: seq<Felt>) returns (bad: seq<Felt>)
    requires Distinct(betas)
    ensures Distinct(bad) && |bad| + |Separating(betas, t, u)| == |betas| && Distinct(Separating(betas, t, u))
    ensures forall k :: 0 <= k < |bad| ==> bad[k] in betas && !Separates(bad[k], t, u)
  {
    hide Separates;
    bad := [];
    if betas != [] {
      var n := |betas| - 1;
      bad := FewFail(betas[..n], t, u);
      if !Separates(betas[n], t, u) { bad := bad + [betas[n]]; }
    }
  }

  lemma ManySeparate(betas: seq<Felt>, t: seq<Felt>, u: seq<Felt>)
    requires Distinct(betas) && |t| == |u|
    ensures Distinct(Separating(betas, t, u)) && |Separating(betas, t, u)| + |t| >= |betas|
  {
    hide Reduce, Separating;
    var bad := FewFail(betas, t, u);
    if |bad| > |t| {
      assert !Separates(bad[0], t, u);
      RowsDetermined(t, u, bad);
    }
  }

  lemma {:induction false} GoodBeta(pairs: seq<(seq<Felt>, seq<Felt>)>, w: nat, betas: seq<Felt>) returns (beta: Felt)
    requires forall k :: 0 <= k < |pairs| ==> |pairs[k].0| == |pairs[k].1| == w
    requires Distinct(betas) && |betas| > |pairs| * w
    ensures beta in betas && forall k :: 0 <= k < |pairs| ==> Separates(beta, pairs[k].0, pairs[k].1)
    decreases |pairs|
  {
    hide Separates, Separating;
    if pairs == [] {
      beta := betas[0];
    } else {
      var n := |pairs| - 1;
      var t, u := pairs[n].0, pairs[n].1;
      ManySeparate(betas, t, u);
      assert |pairs| * w == n * w + w;
      beta := GoodBeta(pairs[..n], w, Separating(betas, t, u));
    }
  }

  function Pairs(a: seq<seq<Felt>>, b: seq<seq<Felt>>): (r: seq<(seq<Felt>, seq<Felt>)>)
    ensures |r| == |a| * |b|
  {
    if a == [] then [] else
      var n := |a| - 1;
      assert |a| * |b| == n * |b| + |b|;
      Pairs(a[..n], b) + seq(|b|, j requires 0 <= j < |b| => (a[n], b[j]))
  }

  lemma {:induction false} PairIn(a: seq<seq<Felt>>, b: seq<seq<Felt>>, i: nat, j: nat)
    requires i < |a| && j < |b|
    ensures (a[i], b[j]) in Pairs(a, b)
  {
    var n := |a| - 1;
    if i < n {
      PairIn(a[..n], b, i, j);
    } else {
      assert Pairs(a, b)[|Pairs(a[..n], b)| + j] == (a[i], b[j]);
    }
  }

  lemma {:induction false} PairsOfWidth(a: seq<seq<Felt>>, b: seq<seq<Felt>>, w: nat, k: nat)
    requires k < |Pairs(a, b)| && AllWidth(a, w) && AllWidth(b, w)
    ensures |Pairs(a, b)[k].0| == |Pairs(a, b)[k].1| == w
  {
    var n := |a| - 1;
    if k < |Pairs(a[..n], b)| { PairsOfWidth(a[..n], b, w, k); }
  }

  predicate AllWidth(a: seq<seq<Felt>>, w: nat) {
    forall i :: 0 <= i < |a| ==> |a[i]| == w
  }

  lemma RemoveRow(a: seq<seq<Felt>>, i: nat, beta: Felt)
    requires i < |a|
    ensures multiset(a) == multiset(Without(a, i)) + multiset{a[i]}
    ensures multiset(Reduced(a, beta)) == multiset(Reduced(Without(a, i), beta)) + multiset{Reduce(a[i], beta)}
  {
    assert a == a[..i] + [a[i]] + a[i + 1..];
    WithoutMultiset(Reduced(a, beta), i);
    assert Reduced(Without(a, i), beta) == Without(Reduced(a, beta), i);
  }

  ghost predicate AllSeparated(a: seq<seq<Felt>>, b: seq<seq<Felt>>, beta: Felt) {
    forall t, u :: t in a && u in b ==> Separates(beta, t, u)
  }

  lemma Partner(a: seq<seq<Felt>>, b: seq<seq<Felt>>, beta: Felt) returns (j: nat)
    requires a != [] && multiset(Reduced(a, beta)) == multiset(Reduced(b, beta)) && AllSeparated(a, b, beta)
    ensures j < |b| && b[j] == a[0]
  {
    var ra, rb := Reduced(a, beta), Reduced(b, beta);
    assert ra[0] in multiset(rb);
    j :| 0 <= j < |rb| && rb[j] == ra[0];
    assert Separates(beta, a[0], b[j]);
  }

  lemma NoRows(b: seq<seq<Felt>>, beta: Felt)
    requires multiset(Reduced([], beta)) == multiset(Reduced(b, beta))
    ensures b == []
  {
    assert |multiset(Reduced(b, beta))| == |b|;
  }

  /** If no row on the left is confused with a different row on the right, the same reduced rows are the same rows. */
  lemma {:induction false} PullBack(a: seq<seq<Felt>>, b: seq<seq<Felt>>, beta: Felt)
    requires multiset(Reduced(a, beta)) == multiset(Reduced(b, beta)) && AllSeparated(a, b, beta)
    ensures multiset(a) == multiset(b)
    decreases |a|
  {
    hide Reduced, Separates;
    if a == [] {
      NoRows(b, beta);
    } else {
      var j := Partner(a, b, beta);
      RemoveRow(a, 0, beta);
      RemoveRow(b, j, beta);
      var a', b' := Without(a, 0), Without(b, j);
      Lookup.Cancel(multiset(Reduced(a', beta)), multiset(Reduced(b', beta)), multiset{Reduce(a[0], beta)});
      PullBack(a', b', beta);
    }
  }

  /** The two sides of a cross-table lookup hold the same rows, as multisets, if and only if their
      products are equal for enough betas and gammas. */
  lemma ProductsDecideRows(a: seq<seq<Felt>>, b: seq<seq<Felt>>, w: nat, betas: seq<Felt>, gammas: seq<Felt>)
    requires AllWidth(a, w) && AllWidth(b, w)
    requires Distinct(betas) && |betas| > |a| * |b| * w
    requires Distinct(gammas) && |gammas| > |a| && |gammas| > |b|
    ensures (forall i, k :: 0 <= i < |betas| && 0 <= k < |gammas| ==> ProductsEqual(a, b, betas[i], gammas[k]))
            <==> multiset(a) == multiset(b)
  {
    hide CombinedProduct, Reduced, Separates, Pairs;
    if multiset(a) == multiset(b) {
      forall i, k | 0 <= i < |betas| && 0 <= k < |gammas| ensures ProductsEqual(a, b, betas[i], gammas[k]) {
        ProductOfMultiset(Challenge(betas[i], gammas[k]), a, b);
      }
    }
    if forall i, k :: 0 <= i < |betas| && 0 <= k < |gammas| ==> ProductsEqual(a, b, betas[i], gammas[k]) {
      var pairs := Pairs(a, b);
      forall k | 0 <= k < |pairs| ensures |pairs[k].0| == |pairs[k].1| == w { PairsOfWidth(a, b, w, k); }
      var beta := GoodBeta(pairs, w, betas);
      ReducedRowsDetermined(a, b, beta, gammas);
      forall t, u | t in a && u in b ensures Separates(beta, t, u) {
        var i :| 0 <= i < |a| && a[i] == t;
        var j :| 0 <= j < |b| && b[j] == u;
        PairIn(a, b, i, j);
      }
      PullBack(a, b, beta);
    }
  }
}
