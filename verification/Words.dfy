/** 64-bit instruction words: an immediate flag, three fields of ten register bits and an opcode
    mask, and the bit arithmetic that encodes, extracts and decodes them. */
module Words {
  import opened Goldilocks

  const REGS: nat := 10

  predicate Bit01(x: int) { x == 0 || x == 1 }

  predicate Bits01(s: seq<int>) { forall i :: 0 <= i < |s| ==> Bit01(s[i]) }

  /** The bits of s, least significant first, with the first one at position k. */
  function Weigh(s: seq<int>, k: nat): int {
    if s == [] then 0 else Weigh(s[..|s| - 1], k) + s[|s| - 1] * Pow2(k + |s| - 1)
  }

  lemma {:induction false} WeighConcat(a: seq<int>, b: seq<int>, k: nat)
    ensures Weigh(a + b, k) == Weigh(a, k) + Weigh(b, k + |a|)
  {
    if b == [] {
      assert a + b == a;
    } else {
      WeighConcat(a, b[..|b| - 1], k);
      assert (a + b)[..|a + b| - 1] == a + b[..|b| - 1];
    }
  }

  lemma Factor(b: int, p: int, q: int, w: int)
    ensures p * w + b * (p * q) == p * (w + b * q)
  {
  }

  lemma {:induction false} WeighShift(s: seq<int>, k: nat)
    ensures Weigh(s, k) == Pow2(k) * Weigh(s, 0)
  {
    if s != [] {
      var n := |s| - 1;
      WeighShift(s[..n], k);
      Pow2Add(k, n);
      Factor(s[n], Pow2(k), Pow2(n), Weigh(s[..n], 0));
    }
  }

  lemma {:induction false} WeighBound(s: seq<int>)
    requires Bits01(s)
    ensures 0 <= Weigh(s, 0) < Pow2(|s|)
  {
    if s != [] { WeighBound(s[..|s| - 1]); }
  }

  lemma {:induction false} WeighUnique(a: seq<int>, b: seq<int>)
    requires Bits01(a) && Bits01(b) && |a| == |b| && Weigh(a, 0) == Weigh(b, 0)
    ensures a == b
  {
    if a != [] {
      var n := |a| - 1;
      WeighBound(a[..n]);
      WeighBound(b[..n]);
      assert a[n] == b[n];
      WeighUnique(a[..n], b[..n]);
      assert a == a[..n] + [a[n]] && b == b[..n] + [b[n]];
    }
  }

  // ---- encoding ----

  /** The register selectors of one row. */
  datatype Selectors = Selectors(imm: int, op0: seq<int>, op1: seq<int>, dst: seq<int>)
  {
    predicate Valid() {
      && |op0| == |op1| == |dst| == REGS
      && Bit01(imm) && Bits01(op0) && Bits01(op1) && Bits01(dst)
    }
  }

  /** The word that a row's selectors and opcode add up to. */
  function Encode(s: Selectors, opcode: int): int {
    s.imm * Pow2(62) + Weigh(s.op0, 52) + Weigh(s.op1, 42) + Weigh(s.dst, 32) + opcode
  }

  function AllBits(s: Selectors): seq<int> { s.dst + s.op1 + s.op0 + [s.imm] }

  lemma WeighOne(x: int, k: nat)
    ensures Weigh([x], k) == x * Pow2(k)
  {
    assert [x][..0] == [];
  }

  lemma EncodeIs(s: Selectors, opcode: int)
    requires |s.op0| == |s.op1| == |s.dst| == REGS
    ensures |AllBits(s)| == 31
    ensures Encode(s, opcode) == opcode + Pow2(32) * Weigh(AllBits(s), 0)
  {
    hide Weigh, Pow2;
    var imm := [s.imm];
    WeighOne(s.imm, 62);
    WeighConcat(s.dst, s.op1, 32);
    WeighConcat(s.dst + s.op1, s.op0, 32);
    WeighConcat(s.dst + s.op1 + s.op0, imm, 32);
    WeighShift(AllBits(s), 32);
  }

  /** Words stay below the field order, so encodings never wrap. */
  lemma EncodeBound(s: Selectors, opcode: int)
    requires s.Valid() && 0 <= opcode < Pow2(32)
    ensures Pow2(63) < P && 0 <= Encode(s, opcode) < Pow2(63)
  {
    EncodeIs(s, opcode);
    WeighBound(AllBits(s));
    Pow2Add(32, 31);
    Pow2Values();
    var w, p, q := Weigh(AllBits(s), 0), Pow2(32), Pow2(31);
    assert p * w <= p * (q - 1) by { Scale(p, w, q - 1); }
    assert p * (q - 1) == p * q - p;
    assert Pow2(32) == 2 * Pow2(31);
  }

  lemma Scale(k: int, a: int, b: int)
    requires k >= 0 && a <= b
    ensures k * a <= k * b
  {
  }

  lemma LowPart(x: int, y: int, m: int, a: int, b: int)
    requires m > 0 && 0 <= x < m && 0 <= y < m && x + m * a == y + m * b
    ensures x == y && a == b
  {
    assert (a - b) * m == y - x;
    SmallMultiple(a - b, m);
  }

  /** Words that agree in the field were encoded from the same opcode and the same selectors. */
  lemma EncodeUnique(s: Selectors, op: int, t: Selectors, oq: int)
    requires s.Valid() && t.Valid() && 0 <= op < Pow2(32) && 0 <= oq < Pow2(32)
    requires Vanishes(Encode(s, op) - Encode(t, oq))
    ensures s == t && op == oq
  {
    hide Weigh, Encode, AllBits, Pow2;
    EncodeBound(s, op);
    EncodeBound(t, oq);
    var a: Felt, b: Felt := Encode(s, op), Encode(t, oq);
    assert a == b;
    EncodeIs(s, op);
    EncodeIs(t, oq);
    LowPart(op, oq, Pow2(32), Weigh(AllBits(s), 0), Weigh(AllBits(t), 0));
    AllBitsValid(s);
    AllBitsValid(t);
    WeighUnique(AllBits(s), AllBits(t));
    SameBits(s, t);
  }

  lemma AllBitsValid(s: Selectors)
    requires s.Valid()
    ensures |AllBits(s)| == 31 && Bits01(AllBits(s))
  {
  }

  lemma SameBits(s: Selectors, t: Selectors)
    requires s.Valid() && t.Valid() && AllBits(s) == AllBits(t)
    ensures s == t
  {
    var x, y := AllBits(s), AllBits(t);
    assert s.dst == x[..10] && t.dst == y[..10];
    assert s.op1 == x[10..20] && t.op1 == y[10..20];
    assert s.op0 == x[20..30] && t.op0 == y[20..30];
    assert s.imm == x[30] && t.imm == y[30];
  }

  // ---- extraction by shift and mask ----

  function BitAt(w: nat, i: nat): (r: int)
    ensures Bit01(r)
  {
    (w / Pow2(i)) % 2
  }

  function BitsAt(w: nat, k: nat, n: nat): (r: seq<int>)
    ensures |r| == n && Bits01(r)
  {
    var r := seq(n, i requires 0 <= i < n => BitAt(w, k + i));
    assert forall i :: 0 <= i < n ==> r[i] == BitAt(w, k + i);
    r
  }

  function Extracted(w: nat): Selectors {
    Selectors(BitAt(w, 62), BitsAt(w, 52, REGS), BitsAt(w, 42, REGS), BitsAt(w, 32, REGS))
  }

  /** `get_common_cpu_exe_pieces`: ten bits of each field, one at a time. */
  method ExtractSelectors(w: nat) returns (op0: seq<int>, op1: seq<int>, dst: seq<int>)
    ensures op0 == BitsAt(w, 52, REGS) && op1 == BitsAt(w, 42, REGS) && dst == BitsAt(w, 32, REGS)
    ensures w < Pow2(63) ==> Encode(Selectors(BitAt(w, 62), op0, op1, dst), w % Pow2(32)) == w
  {
    hide Pow2, Encode;
    op0, op1, dst := [], [], [];
    for index := 0 to REGS
      invariant |op0| == |op1| == |dst| == index
      invariant forall i :: 0 <= i < index ==>
                  op0[i] == BitAt(w, 52 + i) && op1[i] == BitAt(w, 42 + i) && dst[i] == BitAt(w, 32 + i)
    {
      op0 := op0 + [w / Pow2(52 + index) % 2];
      op1 := op1 + [w / Pow2(42 + index) % 2];
      dst := dst + [w / Pow2(32 + index) % 2];
    }
    if w < Pow2(63) { ExtractEncodes(w); }
  }

  lemma {:induction false} BitsWeigh(w: nat, k: nat, n: nat)
    ensures Weigh(BitsAt(w, k, n), 0) == (w / Pow2(k)) % Pow2(n)
  {
    hide Pow2, BitAt, Weigh;
    var s := BitsAt(w, k, n);
    if n == 0 {
      NoWeight(w / Pow2(k));
    } else {
      assert s[..n - 1] == BitsAt(w, k, n - 1);
      BitsWeigh(w, k, n - 1);
      WeighLast(s, 0);
      BitAbove(w, k, n - 1);
    }
  }

  lemma NoWeight(x: nat)
    ensures Weigh([], 0) == 0 == x % Pow2(0)
  {
  }

  lemma WeighLast(s: seq<int>, k: nat)
    requires s != []
    ensures Weigh(s, k) == Weigh(s[..|s| - 1], k) + s[|s| - 1] * Pow2(k + |s| - 1)
  {
  }

  /** One more bit of a number above bit k. */
  lemma BitAbove(w: nat, k: nat, n: nat)
    ensures (w / Pow2(k)) % Pow2(n + 1) == (w / Pow2(k)) % Pow2(n) + BitAt(w, k + n) * Pow2(n)
  {
    Pow2Add(k, n);
    Above(w, Pow2(k), Pow2(n));
  }

  lemma Above(w: nat, a: nat, b: nat)
    requires a > 0 && b > 0
    ensures a * b > 0 && (w / a) % (2 * b) == (w / a) % b + (w / (a * b)) % 2 * b
  {
    DivDiv(w, a, b);
    ModDouble(w / a, b);
  }

  lemma DivMod(w: nat, m: nat)
    requires m > 0
    ensures w == m * (w / m) + w % m && 0 <= w % m < m && w / m >= 0
  {
  }

  lemma Regroup(a: int, b: int, s: int, t: int)
    ensures a * (b * s + t) == (a * b) * s + a * t
  {
    assert a * (b * s + t) == a * (b * s) + a * t;
    assert a * (b * s) == (a * b) * s;
  }

  /** Two digits to mixed bases fit their product. */
  lemma MixedBases(a: int, b: int, t: int, r: int)
    requires 0 <= r < a && 0 <= t < b
    ensures 0 <= a * t + r < a * b
  {
    Scale(a, 0, t);
    Scale(a, t + 1, b);
    assert a * (t + 1) == a * t + a;
  }

  lemma DivDiv(w: nat, a: nat, b: nat)
    requires a > 0 && b > 0
    ensures a * b > 0 && w / (a * b) == w / a / b
  {
    MixedBases(a, b, 0, 0);
    DivDivMod(w, a, b);
  }

  lemma DivDivMod(w: nat, a: nat, b: nat)
    requires a > 0 && b > 0 && a * b > 0
    ensures w / (a * b) == w / a / b && w % (a * b) == a * (w / a % b) + w % a
  {
    var q, r := w / a, w % a;
    DivMod(w, a);
    DivMod(q, b);
    Regroup(a, b, q / b, q % b);
    MixedBases(a, b, q % b, r);
    DivUnique(w, a * b, q / b, a * (q % b) + r);
  }

  lemma DivUnique(w: nat, m: nat, q: nat, r: nat)
    requires m > 0 && r < m && w == m * q + r
    ensures w / m == q && w % m == r
  {
    LowPart(w % m, r, m, w / m, q);
  }

  /** Modulo 2m: the lower digit is the remainder modulo m, the upper one the parity of the quotient. */
  lemma ModDouble(x: nat, m: nat)
    requires m > 0
    ensures x % (2 * m) == x % m + (x / m % 2) * m
  {
    DivDivMod(x, m, 2);
  }

  /** Re-encoding the extracted bits of a 63-bit word gives the word back. */
  lemma ExtractEncodes(w: nat)
    requires w < Pow2(63)
    ensures Encode(Extracted(w), w % Pow2(32)) == w
  {
    hide *;
    var s := Extracted(w);
    ExtractedBits(w);
    EncodeIs(s, w % Pow2(32));
    BitsWeigh(w, 32, 31);
    Pow2Add(32, 31);
    TwoDigits(w, Pow2(32), Pow2(31));
  }

  lemma TwoDigits(w: nat, p: nat, q: nat)
    requires p > 0 && q > 0 && w < p * q
    ensures w % p + p * ((w / p) % q) == w
  {
    DivMod(w, p);
    DivLess(w, p, q);
    DivUnique(w / p, q, 0, w / p);
  }

  lemma ExtractedBits(w: nat)
    ensures AllBits(Extracted(w)) == BitsAt(w, 32, 31)
    ensures var s := Extracted(w); s.Valid() && |s.op0| == |s.op1| == |s.dst| == REGS
  {
    hide Pow2, BitAt;
    var s := Extracted(w);
    var x, y := AllBits(s), BitsAt(w, 32, 31);
    forall i | 0 <= i < 31 ensures x[i] == y[i] {
      assert y[i] == BitAt(w, 32 + i);
      if i < 10 {
        assert x[i] == s.dst[i];
      } else if i < 20 {
        assert x[i] == s.op1[i - 10];
      } else if i < 30 {
        assert x[i] == s.op0[i - 20];
      }
    }
  }

  lemma DivLess(w: nat, a: nat, b: nat)
    requires a > 0 && w < a * b
    ensures w / a < b
  {
    if w / a >= b { Scale(a, b, w / a); }
  }

  // ---- decoding by highest bit ----

  const NOT_USED: nat := 255

  /** `get_index`: the position of the highest set bit. */
  function HighestBit(x: nat): (r: nat)
    ensures x > 0 ==> Pow2(r) <= x < Pow2(r + 1)
    ensures x == 0 ==> r == NOT_USED
  {
    if x == 0 then NOT_USED else if x == 1 then 0 else 1 + HighestBit(x / 2)
  }

  lemma {:induction false} Pow2Monotone(i: nat, j: nat)
    requires i <= j
    ensures Pow2(i) <= Pow2(j)
  {
    if i < j { Pow2Monotone(i, j - 1); }
  }

  lemma HighestUnique(x: nat, i: nat)
    requires Pow2(i) <= x < Pow2(i + 1)
    ensures HighestBit(x) == i
  {
    hide Pow2;
    var h := HighestBit(x);
    if h < i { Pow2Monotone(h + 1, i); }
    if i < h { Pow2Monotone(i + 1, h); }
  }

  method GetIndex(data: nat) returns (r: nat)
    requires data < Pow2(64)
    ensures r == HighestBit(data)
  {
    hide Pow2, HighestBit;
    var i: int := 63;
    while i >= 0
      invariant -1 <= i <= 63
      invariant data < Pow2(i + 1)
    {
      if data / Pow2(i) % 2 != 0 {
        TopBit(data, i);
        HighestUnique(data, i);
        return i;
      }
      TopBit(data, i);
      i := i - 1;
    }
    NoBits(data);
    r := NOT_USED;
  }

  lemma TopBit(x: nat, i: nat)
    requires x < Pow2(i + 1)
    ensures x / Pow2(i) % 2 != 0 <==> Pow2(i) <= x
  {
    var p := Pow2(i);
    if p <= x { DivUnique(x, p, 1, x - p); } else { DivUnique(x, p, 0, x); }
  }

  lemma NoBits(x: nat)
    requires x < Pow2(0)
    ensures HighestBit(x) == NOT_USED
  {
  }

  /** The selectors of a single register, or of none. */
  function OneHot(i: nat): (r: seq<int>)
    ensures |r| == REGS && Bits01(r)
  {
    seq(REGS, k => if k == i then 1 else 0)
  }

  lemma {:induction false} HotWeigh(i: nat, n: nat)
    requires n <= REGS
    ensures Weigh(OneHot(i)[..n], 0) == if i < n then Pow2(i) else 0
  {
    if n > 0 {
      HotWeigh(i, n - 1);
      assert OneHot(i)[..n][..n - 1] == OneHot(i)[..n - 1];
    }
  }

  predicate AtMostOneBit(x: nat) { x == 0 || (exists i: nat :: i < REGS && x == Pow2(i)) }

  /** A register field with at most one bit set is the field of its highest bit. */
  lemma FieldHot(x: nat, k: nat)
    requires AtMostOneBit(x)
    ensures Weigh(OneHot(HighestBit(x)), k) == Pow2(k) * x
  {
    var h := OneHot(HighestBit(x));
    assert h[..REGS] == h;
    WeighShift(h, k);
    HotWeigh(HighestBit(x), REGS);
    if x != 0 {
      var i: nat :| i < REGS && x == Pow2(i);
      HighestUnique(x, i);
    }
  }

  // ---- single bits ----

  lemma EvenPow2(k: nat)
    requires k > 0
    ensures Pow2(k) % 2 == 0
  {
    assert Pow2(k) == 2 * Pow2(k - 1);
    DivByFactor(Pow2(k), Pow2(k - 1), 2);
  }

  /** The bits of a power of two. */
  lemma BitOfPow2(t: nat, s: nat)
    ensures BitAt(Pow2(t), s) == if s == t then 1 else 0
  {
    hide Pow2;
    if t < s {
      StrictPow2(t, s);
      DivUnique(Pow2(t), Pow2(s), 0, Pow2(t));
    } else {
      Pow2Add(s, t - s);
      DivUnique(Pow2(t), Pow2(s), Pow2(t - s), 0);
      if t > s { EvenPow2(t - s); } else { StrictPow2(0, 1); }
    }
  }

  lemma StrictPow2(t: nat, s: nat)
    requires t < s
    ensures Pow2(t) < Pow2(s) && Pow2(0) == 1
  {
    Pow2Monotone(t + 1, s);
  }

  /** A low bit depends on the low part of a word only. */
  lemma LowBit(w: nat, k: nat, s: nat)
    requires s < k
    ensures BitAt(w, s) == BitAt(w % Pow2(k), s)
  {
    hide Pow2;
    Pow2Add(s, k - s);
    EvenPow2(k - s);
    LowDigits(w, Pow2(s), Pow2(k - s));
  }

  lemma LowDigits(w: nat, a: nat, b: nat)
    requires a > 0 && b > 0 && b % 2 == 0 && a * b > 0
    ensures w / a % 2 == w % (a * b) / a % 2
  {
    DivDivMod(w, a, b);
    LowDigit(w % (a * b), a, w / a % b, w % a);
    EvenBase(w / a, b);
  }

  lemma LowDigit(w: nat, a: nat, q: nat, r: nat)
    requires r < a && w == a * q + r
    ensures w / a == q
  {
    DivUnique(w, a, q, r);
  }

  lemma EvenBase(x: nat, b: nat)
    requires b > 0 && b % 2 == 0
    ensures x % b % 2 == x % 2
  {
    DivMod(x, b);
    Even(b, x / b);
  }

  lemma Even(b: int, q: int)
    requires b % 2 == 0
    ensures (b * q) % 2 == 0
  {
    var h := b / 2;
    assert b == 2 * h;
    assert b * q == 2 * (h * q);
  }
}
