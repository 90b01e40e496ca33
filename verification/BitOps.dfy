/** Bitwise operators on numbers, bit by bit, and how they split into 8-bit limbs. */
module BitOps {
  datatype Kind = And | Or | Xor

  function OnBit(kind: Kind, x: nat, y: nat): (r: nat)
    requires x < 2 && y < 2
    ensures r < 2
  {
    match kind
    case And => if x == 1 && y == 1 then 1 else 0
    case Or => if x == 1 || y == 1 then 1 else 0
    case Xor => if x != y then 1 else 0
  }

  /** The operator on the lowest n bits. */
  function BitOp(kind: Kind, a: nat, b: nat, n: nat): nat {
    if n == 0 then 0 else OnBit(kind, a % 2, b % 2) + 2 * BitOp(kind, a / 2, b / 2, n - 1)
  }

  /** Nothing comes from nothing. */
  lemma {:induction false} BitOpZero(kind: Kind, n: nat)
    ensures BitOp(kind, 0, 0, n) == 0
  {
    if n > 0 { BitOpZero(kind, n - 1); }
  }

  function Shr(a: nat, m: nat): nat { if m == 0 then a else Shr(a / 2, m - 1) }

  function LowBits(a: nat, m: nat): nat { if m == 0 then 0 else a % 2 + 2 * LowBits(a / 2, m - 1) }

  /** Shifting the result right is shifting the operands right. */
  lemma {:induction false} HighPart(kind: Kind, a: nat, b: nat, m: nat, n: nat)
    ensures Shr(BitOp(kind, a, b, m + n), m) == BitOp(kind, Shr(a, m), Shr(b, m), n)
  {
    if m > 0 { HighPart(kind, a / 2, b / 2, m - 1, n); }
  }

  /** The low bits of the result depend on the low bits of the operands only. */
  lemma {:induction false} LowPart(kind: Kind, a: nat, b: nat, m: nat, n: nat)
    ensures LowBits(BitOp(kind, a, b, m + n), m) == BitOp(kind, LowBits(a, m), LowBits(b, m), m)
  {
    hide BitOp, LowBits, OnBit;
    if m == 0 {
      NoLow(kind, a, b, n);
    } else {
      LowPart(kind, a / 2, b / 2, m - 1, n);
      OpStep(kind, a, b, m + n);
      LowStep(BitOp(kind, a, b, m + n), m);
      Doubled(OnBit(kind, a % 2, b % 2), BitOp(kind, a / 2, b / 2, m + n - 1));
      LowStep(a, m);
      LowStep(b, m);
      OpStep(kind, LowBits(a, m), LowBits(b, m), m);
      Doubled(a % 2, LowBits(a / 2, m - 1));
      Doubled(b % 2, LowBits(b / 2, m - 1));
    }
  }

  lemma NoLow(kind: Kind, a: nat, b: nat, n: nat)
    ensures LowBits(BitOp(kind, a, b, n), 0) == BitOp(kind, LowBits(a, 0), LowBits(b, 0), 0)
  {
  }

  lemma OpStep(kind: Kind, a: nat, b: nat, n: nat)
    requires n > 0
    ensures BitOp(kind, a, b, n) == OnBit(kind, a % 2, b % 2) + 2 * BitOp(kind, a / 2, b / 2, n - 1)
  {
  }

  lemma LowStep(a: nat, m: nat)
    requires m > 0
    ensures LowBits(a, m) == a % 2 + 2 * LowBits(a / 2, m - 1)
  {
  }

  lemma Doubled(bit: nat, x: nat)
    requires bit < 2
    ensures (bit + 2 * x) % 2 == bit && (bit + 2 * x) / 2 == x
  {
  }

  lemma TwoBits(a: nat, m: nat)
    ensures Shr(a, m + 2) == Shr(a / 4, m) && LowBits(a, m + 2) == a % 4 + 4 * LowBits(a / 4, m)
  {
    assert a / 2 / 2 == a / 4 && a % 4 == a % 2 + 2 * (a / 2 % 2);
    assert LowBits(a, m + 2) == a % 2 + 2 * LowBits(a / 2, m + 1);
  }

  lemma NoBits(a: nat)
    ensures Shr(a, 0) == a && LowBits(a, 0) == 0
  {
  }

  lemma EightBits(a: nat)
    ensures Shr(a, 8) == a / BASE && LowBits(a, 8) == a % BASE
  {
    hide Shr, LowBits;
    TwoBits(a, 6);
    TwoBits(a / 4, 4);
    TwoBits(a / 16, 2);
    TwoBits(a / 64, 0);
    NoBits(a / 256);
    assert a / 4 / 4 == a / 16 && a / 16 / 4 == a / 64 && a / 64 / 4 == a / 256;
    assert a % 256 == a % 4 + 4 * (a / 4 % 4) + 16 * (a / 16 % 4) + 64 * (a / 64 % 4);
  }

  // ---- limbs ----

  const BASE: nat := 0x100

  /** 8-bit limb j of a machine word. */
  function Limb(w: nat, j: nat): (r: nat)
    ensures r < BASE
  {
    if j == 0 then w % BASE else Limb(w / BASE, j - 1)
  }

  lemma SplitLow(kind: Kind, a: nat, b: nat, n: nat)
    ensures BitOp(kind, a, b, 8 + n) % BASE == BitOp(kind, a % BASE, b % BASE, 8)
    ensures BitOp(kind, a, b, 8 + n) / BASE == BitOp(kind, a / BASE, b / BASE, n)
  {
    hide BitOp;
    LowPart(kind, a, b, 8, n);
    HighPart(kind, a, b, 8, n);
    EightBits(a);
    EightBits(b);
    EightBits(BitOp(kind, a, b, 8 + n));
  }

  /** A limb of the result is the operator on the limbs of the operands. */
  lemma {:induction false} LimbOfOp(kind: Kind, a: nat, b: nat, j: nat, n: nat)
    requires 8 * j + 8 <= n
    ensures Limb(BitOp(kind, a, b, n), j) == BitOp(kind, Limb(a, j), Limb(b, j), 8)
  {
    hide BitOp;
    SplitLow(kind, a, b, n - 8);
    if j > 0 { LimbOfOp(kind, a / BASE, b / BASE, j - 1, n - 8); }
  }

  /** The number with the given limbs, lowest first: `reduce_with_powers` with base 2^8. */
  function Join(limbs: seq<nat>): nat {
    if limbs == [] then 0 else Join(limbs[1..]) * BASE + limbs[0]
  }

  predicate AreLimbs(limbs: seq<nat>) { forall j :: 0 <= j < |limbs| ==> limbs[j] < BASE }

  /** Operating limb by limb is operating on the whole number. */
  lemma {:induction false} JoinOfOps(kind: Kind, a: seq<nat>, b: seq<nat>, c: seq<nat>)
    requires |a| == |b| == |c| && AreLimbs(a) && AreLimbs(b)
    requires forall j :: 0 <= j < |a| ==> c[j] == BitOp(kind, a[j], b[j], 8)
    ensures Join(c) == BitOp(kind, Join(a), Join(b), 8 * |a|)
  {
    hide BitOp;
    if a == [] {
      OpOfNothing(kind);
    } else {
      JoinOfOps(kind, a[1..], b[1..], c[1..]);
      SplitLow(kind, Join(a), Join(b), 8 * |a| - 8);
    }
  }

  lemma OpOfNothing(kind: Kind)
    ensures BitOp(kind, 0, 0, 0) == 0
  {
  }

  /** Four limbs hold a 32-bit number, three a 24-bit number. */
  lemma JoinBound(limbs: seq<nat>)
    requires |limbs| == 4 && AreLimbs(limbs)
    ensures Join(limbs) == limbs[0] + limbs[1] * BASE + limbs[2] * (BASE * BASE) + limbs[3] * (BASE * BASE * BASE)
    ensures Join(limbs) < 0x1_0000_0000 && (limbs[3] == 0 ==> Join(limbs) < 0x100_0000)
  {
    assert Join(limbs) == Join(limbs[1..]) * BASE + limbs[0];
    assert Join(limbs[1..]) == Join(limbs[1..][1..]) * BASE + limbs[1];
    assert Join(limbs[1..][1..]) == Join(limbs[1..][1..][1..]) * BASE + limbs[2];
    assert Join(limbs[1..][1..][1..]) == limbs[3];
  }

  /** Operands of 24 bits give results of 24 bits. */
  lemma NoCarry(kind: Kind, a: nat, b: nat, n: nat)
    requires a < 0x100_0000 && b < 0x100_0000 && n >= 24
    ensures BitOp(kind, a, b, n) < 0x100_0000
  {
    hide BitOp;
    SplitLow(kind, a, b, n - 8);
    SplitLow(kind, a / BASE, b / BASE, n - 16);
    SplitLow(kind, a / BASE / BASE, b / BASE / BASE, n - 24);
    BitOpZero(kind, n - 24);
  }
}
