/** The prime field the whole VM works over: integers modulo P = 2^64 - 2^32 + 1.

    An AIR constraint is a polynomial in row entries that has to be zero in the field. Reducing
    modulo P is a ring homomorphism, so a constraint is written here as an integer polynomial of
    the (canonical) entries that has to be divisible by P, `Vanishes`.

    That P is prime is not assumed. It is proved by Proth's argument: an element whose 2^31-th
    power is -1 has 2^32 distinct powers modulo every divisor d > 1 of P, so every such d is at
    least 2^32, and two factors of that size multiply to more than P. */
module Goldilocks {

  const P: int := 0xFFFF_FFFF_0000_0001

  /** A canonical field element. */
  type Felt = x: int | 0 <= x < P witness 0

  function Canon(x: int): (r: Felt) { x % P }

  function FAdd(a: Felt, b: Felt): (r: Felt) { (a + b) % P }

  function FSub(a: Felt, b: Felt): (r: Felt) { (a - b) % P }

  function FMul(a: Felt, b: Felt): (r: Felt) { (a * b) % P }

  /** A polynomial value that is zero in the field. */
  predicate Vanishes(x: int) { x % P == 0 }

  // ---- divisibility ----

  lemma SmallMultiple(k: int, d: int)
    requires -d < k * d < d
    ensures k == 0
  {
  }

  lemma DivByFactor(x: int, k: int, d: int)
    requires d > 0 && x == k * d
    ensures x % d == 0
  {
    var q, r := x / d, x % d;
    assert x == d * q + r;
    assert r == (k - q) * d;
    SmallMultiple(k - q, d);
  }

  lemma Quotient(x: int, d: int) returns (k: int)
    requires d > 0 && x % d == 0
    ensures x == k * d
  {
    k := x / d;
    assert x == d * (x / d) + x % d;
  }

  lemma DivSum(x: int, y: int, d: int)
    requires d > 0 && x % d == 0 && y % d == 0
    ensures (x + y) % d == 0 && (x - y) % d == 0
  {
    var k := Quotient(x, d);
    var l := Quotient(y, d);
    assert x + y == (k + l) * d && x - y == (k - l) * d;
    DivByFactor(x + y, k + l, d);
    DivByFactor(x - y, k - l, d);
  }

  lemma DivProduct(x: int, y: int, d: int)
    requires d > 0 && x % d == 0
    ensures (x * y) % d == 0 && (y * x) % d == 0
  {
    var k := Quotient(x, d);
    assert x * y == (k * y) * d by { assert k * d * y == (k * y) * d; }
    assert y * x == x * y;
    DivByFactor(x * y, k * y, d);
  }

  lemma DivTransitive(x: int, n: int, d: int)
    requires d > 0 && n > 0 && n % d == 0 && x % n == 0
    ensures x % d == 0
  {
    var k := Quotient(x, n);
    var l := Quotient(n, d);
    assert x == (k * l) * d by { assert k * (l * d) == (k * l) * d; }
    DivByFactor(x, k * l, d);
  }

  /** Congruence modulo d is kept by multiplication. */
  lemma CongProduct(a: int, b: int, x: int, y: int, d: int)
    requires d > 0 && (a - b) % d == 0 && (x - y) % d == 0
    ensures (a * x - b * y) % d == 0
  {
    DivProduct(a - b, x, d);
    DivProduct(x - y, b, d);
    assert a * x - b * y == (a - b) * x + b * (x - y);
    DivSum((a - b) * x, b * (x - y), d);
  }

  lemma ReduceCong(x: int, d: int)
    requires d > 0
    ensures (x - x % d) % d == 0
  {
    assert x - x % d == (x / d) * d by { assert x == d * (x / d) + x % d; }
    DivByFactor(x - x % d, x / d, d);
  }

  /** Congruent numbers with equal remainders; and small congruent numbers are equal. */
  lemma CongSameRemainder(x: int, y: int, d: int)
    requires d > 0 && (x - y) % d == 0
    ensures x % d == y % d
  {
    ReduceCong(x, d);
    ReduceCong(y, d);
    DivSum(x - y, x - x % d, d);
    assert (x - y) - (x - x % d) == x % d - y;
    DivSum(x % d - y, y - y % d, d);
    var k := Quotient(x % d - y % d, d);
    SmallMultiple(k, d);
  }

  // ---- powers ----

  ghost function Pow(b: int, e: nat): int {
    if e == 0 then 1 else b * Pow(b, e - 1)
  }

  lemma {:induction false} PowAdd(b: int, m: nat, n: nat)
    ensures Pow(b, m + n) == Pow(b, m) * Pow(b, n)
  {
    if m > 0 {
      PowAdd(b, m - 1, n);
      assert b * (Pow(b, m - 1) * Pow(b, n)) == (b * Pow(b, m - 1)) * Pow(b, n);
    }
  }

  /** If b^m is congruent to c modulo d then b^(m*u) is congruent to c^u. */
  lemma {:induction false} PowCong(b: int, m: nat, c: int, u: nat, d: int)
    requires d > 0 && (Pow(b, m) - c) % d == 0
    ensures m * u >= 0 && (Pow(b, m * u) - Pow(c, u)) % d == 0
  {
    if u == 0 {
      assert m * u == 0;
    } else {
      PowCong(b, m, c, u - 1, d);
      assert m * u == m + m * (u - 1);
      PowAdd(b, m, m * (u - 1));
      CongProduct(Pow(b, m), c, Pow(b, m * (u - 1)), Pow(c, u - 1), d);
    }
  }

  lemma {:induction false} PowOfOnes(u: nat)
    ensures Pow(1, u) == 1
    ensures Pow(-1, u) == if u % 2 == 0 then 1 else -1
  {
    if u > 0 { PowOfOnes(u - 1); }
  }

  // ---- P is prime ----

  /** Successive squares of an element of order 2^32; the last one is -1. */
  ghost const SQUARES: seq<int> := [
    1753635133440165772, 4614640910117430873, 9123114210336311365, 16116352524544190054,
    6414415596519834757, 1213594585890690845, 17096174751763063430, 5456943929260765144,
    9713644485405565297, 16905767614792059275, 5416168637041100469, 17654865857378133588,
    3511170319078647661, 18146160046829613826, 9306717745644682924, 12380578893860276750,
    6115771955107415310, 17776499369601055404, 16207902636198568418, 1532612707718625687,
    17492915097719143606, 455906449640507599, 11353340290879379826, 1803076106186727246,
    13797081185216407910, 17870292113338400769, 549755813888, 70368744161280,
    17293822564807737345, 18446744069397807105, 281474976710656, 18446744069414584320]

  /** How often P goes into each square. */
  ghost const QUOTIENTS: seq<int> := [
    166708887468903991, 1154399424049971884, 4511973093009996851, 14080361158478670879,
    2230460144622294524, 79841288704448195, 15844486704156700236, 1614281465338340559,
    5114988793349933654, 15493518941330557636, 1590247178281506213, 16896981237942002723,
    668319404399374695, 17850473948468743512, 4695408299218975106, 8309256808156222390,
    2027602620068516376, 17130607366173278638, 14240784545824149997, 127334216977357403,
    16588405924890216597, 11267608529812975, 6987592784692205430, 176241586724885086,
    10319406422896923811, 17311854006015885313, 16384, 268435455,
    16212958654255595520, 18446744069381029889, 4294967296]

  ghost function Square(i: nat): int
    requires i < 32
  {
    SQUARES[i]
  }

  lemma SquaresAreSquares(i: nat)
    requires i < 31
    ensures (Square(i) * Square(i)) % P == Square(i + 1)
  {
    assert |QUOTIENTS| == 31;
    assert 0 <= SQUARES[i + 1] < P;
    assert SQUARES[i] * SQUARES[i] == QUOTIENTS[i] * P + SQUARES[i + 1];
    Remainder(SQUARES[i] * SQUARES[i], QUOTIENTS[i], SQUARES[i + 1], P);
  }

  lemma Remainder(x: int, q: int, r: int, d: int)
    requires x == q * d + r && 0 <= r < d
    ensures x % d == r
  {
    var k := x / d;
    assert x == d * k + x % d;
    assert (q - k) * d == q * d - d * k;
    SmallMultiple(q - k, d);
  }

  function Pow2(i: nat): (r: nat)
    ensures r > 0
  {
    if i == 0 then 1 else 2 * Pow2(i - 1)
  }

  /** The generator raised to 2^i, modulo any divisor of P. */
  lemma {:induction false} GeneratorPower(i: nat, d: int)
    requires i < 32 && d > 0 && P % d == 0
    ensures (Pow(Square(0), Pow2(i)) - Square(i)) % d == 0
  {
    hide Pow, Pow2, Square;
    PowStart(Square(0));
    if i > 0 {
      GeneratorPower(i - 1, d);
      var e, x := Pow2(i - 1), Pow(Square(0), Pow2(i - 1));
      assert Pow2(i) == e + e by { Pow2Step(i); }
      PowAdd(Square(0), e, e);
      SquaresAreSquares(i - 1);
      NextSquare(x, Square(i - 1), Square(i), d);
    }
  }

  lemma PowStart(b: int)
    ensures Pow2(0) == 1 && Pow(b, 1) == b
  {
    assert Pow(b, 0) == 1;
  }

  lemma Pow2Step(i: nat)
    requires i > 0
    ensures Pow2(i) == Pow2(i - 1) + Pow2(i - 1)
  {
  }

  lemma NextSquare(x: int, s: int, t: int, d: int)
    requires d > 0 && P % d == 0 && (x - s) % d == 0 && s * s % P == t
    ensures (x * x - t) % d == 0
  {
    CongProduct(x, s, x, s, d);
    ReduceCong(s * s, P);
    DivTransitive(s * s - t, P, d);
    DivSum(x * x - s * s, s * s - t, d);
  }

  /** If g^(2^k) is -1 modulo d, an exponent that brings g back to 1 is a multiple of 2^i for i <= k + 1. */
  lemma {:induction false} PeriodDivides(g: int, k: nat, m: nat, i: nat, d: int)
    requires i <= k + 1 && d > 2 && (Pow(g, Pow2(k)) + 1) % d == 0
    requires (Pow(g, m) - 1) % d == 0
    ensures m % Pow2(i) == 0
  {
    if i > 0 {
      PeriodDivides(g, k, m, i - 1, d);
      var q, w := Pow2(i - 1), Pow2(k + 1 - i);
      Pow2Add(i - 1, k + 1 - i);
      var u := Quotient(m, q);
      HalfTurns(g, q, w, m, u, d);
      DivByFactor(m, u / 2, Pow2(i));
    }
  }

  lemma HalfTurns(g: int, q: nat, w: nat, m: nat, u: int, d: int)
    requires d > 2 && q > 0 && u >= 0 && m == u * q
    requires (Pow(g, q * w) + 1) % d == 0 && (Pow(g, m) - 1) % d == 0
    ensures m == (u / 2) * (2 * q)
  {
    hide Pow;
    Rearrange(u, q, w);
    OddPeriod(g, q * w, m, w, u, d);
    Halve(u, q);
  }

  lemma Rearrange(u: int, q: int, w: int)
    ensures (u * q) * w == (q * w) * u
  {
    assert (u * q) * w == u * (q * w);
  }

  lemma Halve(u: int, q: int)
    requires u % 2 == 0
    ensures u * q == (u / 2) * (2 * q)
  {
    var h := u / 2;
    assert u == 2 * h;
    assert (2 * h) * q == h * (2 * q);
  }

  /** g^(m*w) is 1 and is also (g^h)^u, that is (-1)^u, so u is even. */
  lemma OddPeriod(g: int, h: nat, m: nat, w: nat, u: int, d: int)
    requires d > 2 && (Pow(g, h) + 1) % d == 0 && (Pow(g, m) - 1) % d == 0
    requires m * w == h * u && u >= 0
    ensures u % 2 == 0
  {
    hide Pow;
    PowCong(g, m, 1, w, d);
    PowCong(g, h, -1, u, d);
    PowOfOnes(w);
    PowOfOnes(u);
    var t := Pow(g, m * w);
    DivSum(t - 1, t - Pow(-1, u), d);
    if u % 2 == 1 {
      assert (t - 1) - (t - Pow(-1, u)) == -2;
      var k := Quotient(-2, d);
      SmallMultiple(k, d);
    }
  }

  lemma {:induction false} Pow2Add(i: nat, j: nat)
    ensures Pow2(i + j) == Pow2(i) * Pow2(j)
  {
    if i > 0 { Pow2Add(i - 1, j); }
  }

  lemma Pow2Values()
    ensures Pow2(8) == 0x100 && Pow2(16) == 0x1_0000 && Pow2(32) == 0x1_0000_0000
    ensures Pow2(64) == 0x1_0000_0000_0000_0000
  {
    assert Pow2(8) == 0x100;
    Pow2Add(8, 8);
    Pow2Add(16, 16);
    Pow2Add(32, 32);
  }

  /** Below 2^(k+1) the powers of g are distinct modulo d. */
  lemma DistinctPowers(g: int, k: nat, i: nat, j: nat, d: int)
    requires d > 2 && (Pow(g, Pow2(k)) + 1) % d == 0 && i < j < Pow2(k + 1)
    ensures Pow(g, i) % d != Pow(g, j) % d
  {
    hide Pow;
    var h, n := Pow2(k), Pow2(k + 1);
    if Pow(g, i) % d == Pow(g, j) % d {
      ReduceCong(Pow(g, i), d);
      ReduceCong(Pow(g, j), d);
      DivSum(Pow(g, j) - Pow(g, j) % d, Pow(g, i) - Pow(g, i) % d, d);
      CongProduct(Pow(g, j), Pow(g, i), Pow(g, n - i), Pow(g, n - i), d);
      PowAdd(g, j, n - i);
      PowAdd(g, i, n - i);
      CongProduct(Pow(g, h), -1, Pow(g, h), -1, d);
      PowAdd(g, h, h);
      DivSum(Pow(g, j + (n - i)) - Pow(g, n), Pow(g, n) - 1, d);
      PeriodDivides(g, k, j + (n - i), k + 1, d);
      var c := Quotient(j + (n - i), n);
      assert j - i == (c - 1) * n;
      SmallMultiple(c - 1, n);
    }
  }

  ghost function Below(d: nat): (r: set<int>)
    ensures |r| == d && forall x :: x in r <==> 0 <= x < d
  {
    if d == 0 then {} else Below(d - 1) + {d - 1}
  }

  /** Pigeonhole: n distinct values in [0, d) need d >= n. */
  lemma DistinctFit(f: int -> int, n: nat, d: nat)
    requires forall i :: 0 <= i < n ==> 0 <= f(i) < d
    requires forall i, j :: 0 <= i < j < n ==> f(i) != f(j)
    ensures n <= d
  {
    var image := ImageSize(f, n);
    SubsetSize(image, Below(d));
  }

  lemma {:induction false} ImageSize(f: int -> int, n: nat) returns (image: set<int>)
    requires forall i, j :: 0 <= i < j < n ==> f(i) != f(j)
    ensures |image| == n && forall y :: y in image ==> InImage(f, n, y)
  {
    image := {};
    if n > 0 {
      var smaller := ImageSize(f, n - 1);
      forall y | y in smaller ensures y != f(n - 1) && InImage(f, n, y) {
        assert InImage(f, n - 1, y);
        var i :| 0 <= i < n - 1 && y == f(i);
        assert 0 <= i < n;
      }
      assert InImage(f, n, f(n - 1));
      image := smaller + {f(n - 1)};
    }
  }

  ghost predicate InImage(f: int -> int, n: nat, y: int) { exists i :: 0 <= i < n && y == f(i) }

  lemma {:induction false} SubsetSize<T>(a: set<T>, b: set<T>)
    requires a <= b
    ensures |a| <= |b|
  {
    if a != {} {
      var x :| x in a;
      SubsetSize(a - {x}, b - {x});
    }
  }

  /** Every divisor of P other than 1 is at least 2^32. */
  lemma DivisorsAreLarge(d: int)
    requires d > 1 && P % d == 0
    ensures d >= 0x1_0000_0000
  {
    hide Pow, Pow2, Square;
    var g, k := Square(0), 31;
    MinusOne(k, d);
    Pow2Values();
    PowersFit(g, k, d);
  }

  /** The powers of g below its order are different, so there have to be as many residues. */
  lemma PowersFit(g: int, k: nat, d: int)
    requires d > 2 && (Pow(g, Pow2(k)) + 1) % d == 0
    ensures d >= Pow2(k + 1)
  {
    hide Pow, Pow2;
    var f := (i: int) => if i < 0 then 0 else Pow(g, i) % d;
    var n := Pow2(k + 1);
    forall i, j | 0 <= i < j < n
      ensures f(i) != f(j)
    {
      DistinctPowers(g, k, i, j, d);
    }
    DistinctFit(f, n, d);
  }

  lemma MinusOne(k: nat, d: int)
    requires k == 31 && d > 1 && P % d == 0
    ensures d > 2 && (Pow(Square(0), Pow2(k)) + 1) % d == 0
  {
    hide Pow, Pow2;
    GeneratorPower(k, d);
    var t := Pow(Square(0), Pow2(k));
    assert P == Square(k) + 1;
    DivSum(t - Square(k), P, d);
    assert t - Square(k) + P == t + 1;
  }

  /** P has no proper divisor. */
  lemma OrderIsPrime(d: int)
    requires 1 < d < P
    ensures P % d != 0
  {
    if P % d == 0 {
      var e := Quotient(P, d);
      DivByFactor(P, d, e);
      DivisorsAreLarge(d);
      DivisorsAreLarge(e);
      LargeProduct(d, e);
    }
  }

  lemma LargeProduct(d: int, e: int)
    requires d >= 0x1_0000_0000 && e >= 0x1_0000_0000
    ensures d * e > P
  {
    assert d * e >= d * 0x1_0000_0000;
  }

  // ---- the field ----

  /** Euclid's lemma, by descent on a positive multiplier below P. */
  lemma {:induction false} PrimeDivides(r: int, b: int)
    requires 0 < r < P && (r * b) % P == 0
    ensures b % P == 0
    decreases r
  {
    if r > 1 {
      OrderIsPrime(r);
      var q, s := P / r, P % r;
      DivProduct(P, b, P);
      DivProduct(r * b, q, P);
      assert s * b == P * b - q * (r * b) by { assert s == P - q * r; assert q * r * b == q * (r * b); }
      DivSum(P * b, q * (r * b), P);
      PrimeDivides(s, b);
    }
  }

  /** A product is zero in the field exactly when one of its factors is. */
  lemma ZeroProduct(a: int, b: int)
    ensures Vanishes(a * b) <==> Vanishes(a) || Vanishes(b)
  {
    if Vanishes(a) {
      DivProduct(a, b, P);
    } else if Vanishes(b) {
      DivProduct(b, a, P);
    } else if Vanishes(a * b) {
      ReduceCong(a, P);
      DivProduct(a - a % P, b, P);
      assert (a % P) * b == a * b - (a - a % P) * b;
      DivSum(a * b, (a - a % P) * b, P);
      PrimeDivides(a % P, b);
    }
  }

  /** The multiplicative inverse, by the same descent. */
  function Inverse(a: int): (r: Felt)
    requires 0 < a < P
    ensures Vanishes(a * r - 1)
    decreases a
  {
    if a == 1 then 1 else
      OrderIsPrime(a);
      var r := (P - P / a) * Inverse(P % a) % P;
      InverseStep(a, Inverse(P % a));
      r
  }

  lemma InverseStep(a: int, v: int)
    requires 1 < a < P && Vanishes((P % a) * v - 1)
    ensures Vanishes(a * ((P - P / a) * v % P) - 1)
  {
    var q, s := P / a, P % a;
    var x := (P - q) * v;
    ReduceCong(x, P);
    CongProduct(a, a, x, x % P, P);
    assert a * x == (a * P) * v - (a * q) * v by {
      assert a * ((P - q) * v) == (a * (P - q)) * v;
      assert a * (P - q) == a * P - a * q;
      assert (a * P - a * q) * v == (a * P) * v - (a * q) * v;
    }
    assert a * q == P - s;
    assert (P - s) * v == P * v - s * v;
    assert a * x - 1 == (a * P) * v - P * v + (s * v - 1);
    DivProduct(P, a * v, P);
    DivProduct(P, v, P);
    assert (a * P) * v == P * (a * v);
    DivSum((a * P) * v, P * v, P);
    DivSum((a * P) * v - P * v, s * v - 1, P);
    DivSum(a * x - 1, a * x - a * (x % P), P);
  }
}
