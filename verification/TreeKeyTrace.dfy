/** The storage hash table: for every storage access, one row per layer of the tree, with the bits of the
    tree key accumulated limb by limb. */
module TreeKeyTrace {
  import opened Goldilocks
  import opened Words

  const DEPTH: nat := 256
  const U64: nat := 0x1_0000_0000_0000_0000

  type Limb = Felt

  type Key = k: seq<Limb> | |k| == 4 witness [0, 0, 0, 0]

  /** `tree_key_to_u256`: the first limb is the most significant. */
  function Number(key: seq<Limb>): nat {
    if key == [] then 0 else Number(key[..|key| - 1]) * U64 + key[|key| - 1]
  }

  /** A bit of a number given by a high part and 64 low bits. */
  lemma BitOfPair(hi: nat, lo: nat, s: nat)
    requires lo < U64
    ensures BitAt(hi * U64 + lo, s) == if s < 64 then BitAt(lo, s) else BitAt(hi, s - 64)
  {
    hide Pow2;
    Pow2Values();
    var m := Pow2(64);
    var w := hi * m + lo;
    assert w == m * hi + lo;
    DivUnique(w, m, hi, lo);
    if s < 64 {
      LowBit(w, 64, s);
    } else {
      Pow2Add(64, s - 64);
      DivDiv(w, m, Pow2(s - 64));
    }
  }

  /** Layer i of a key looks at bit 63 - i % 64 of limb i / 64. */
  lemma {:induction false} BitOfKey(key: seq<Limb>, i: nat)
    requires i < 64 * |key|
    ensures BitAt(Number(key), 64 * |key| - 1 - i) == BitAt(key[i / 64], 63 - i % 64)
  {
    hide BitAt, Pow2;
    var n := |key| - 1;
    var front, lo := key[..n], key[n];
    BitOfPair(Number(front), lo, 64 * |key| - 1 - i);
    if i < 64 * n {
      BitOfKey(front, i);
    }
  }

  /** Shifting one more bit in extends the prefix of a limb. */
  lemma PrefixStep(limb: Limb, r: nat)
    requires r < 64
    ensures limb / Pow2(63 - r) == 2 * (limb / Pow2(64 - r)) + BitAt(limb, 63 - r)
    ensures 0 <= limb / Pow2(63 - r) < P
  {
    hide Pow2;
    var a := Pow2(63 - r);
    assert Pow2(64 - r) == a * 2 by { DoublePow2(63 - r); }
    DivDiv(limb, a, 2);
    var q := limb / a;
    assert q == 2 * (q / 2) + q % 2;
    DivAtMost(limb, a);
  }

  lemma DoublePow2(k: nat)
    ensures Pow2(k + 1) == Pow2(k) * 2
  {
  }

  lemma DivAtMost(x: nat, a: nat)
    requires a > 0
    ensures 0 <= x / a <= x
  {
    Scale(x / a, 1, a);
  }

  /** The first r + 1 bits of a limb. */
  function Prefix(limb: Limb, r: nat): (x: Felt)
    requires r < 64
  {
    DivAtMost(limb, Pow2(63 - r));
    limb / Pow2(63 - r)
  }

  /** What the accumulator holds in the row of layer i + 1: the first bits of the current limb. */
  function Accumulated(key: Key, i: nat): Felt
    requires i < DEPTH
  {
    Prefix(key[i / 64], i % 64)
  }

  /** At the end of a limb it is the limb. */
  lemma WholeLimb(key: Key, q: nat)
    requires q < 4
    ensures Accumulated(key, 64 * q + 63) == key[q]
  {
    var i := 64 * q + 63;
    assert i / 64 == q && i % 64 == 63;
    assert Pow2(0) == 1;
  }

  datatype HashRow = HashRow(accessIdx: nat, preRoot: seq<Felt>, root: seq<Felt>, hashType: int, layer: nat,
                             layerBit: int, addrAcc: Felt, addr: Key)

  datatype Access = Access(key: Key, root: seq<Felt>)

  /** The rows of one access. The accumulator is a field element; it never wraps, and at layers 64, 128,
      192 and 256 it equals the corresponding limb. */
  method AccessRows(a: Access, idx: nat, preRoot: seq<Felt>) returns (rows: seq<HashRow>)
    ensures |rows| == DEPTH
    ensures forall i :: 0 <= i < DEPTH ==>
              rows[i] == HashRow(idx, preRoot, a.root, if i == 255 then 1 else 0, i + 1,
                                 BitAt(Number(a.key), 255 - i), Accumulated(a.key, i), a.key)
    ensures forall q :: 0 <= q < 4 ==> rows[64 * q + 63].addrAcc == a.key[q]
  {
    hide BitAt, Pow2, Prefix, FAdd, FMul;
    var number := Number(a.key);
    var acc: Felt := 0;
    var hashType := 0;
    rows := [];
    for i := 0 to DEPTH
      invariant |rows| == i && hashType == 0
      invariant acc == if i % 64 == 0 then 0 else Accumulated(a.key, i - 1)
      invariant forall k :: 0 <= k < i ==>
                  rows[k] == HashRow(idx, preRoot, a.root, if k == 255 then 1 else 0, k + 1,
                                     BitAt(number, 255 - k), Accumulated(a.key, k), a.key)
    {
      var layerBit := BitAt(number, 255 - i);
      AccStep(a.key, i, acc);
      acc := FAdd(FMul(acc, 2), layerBit);
      if i == 255 {
        rows := rows + [HashRow(idx, preRoot, a.root, 1, i + 1, layerBit, acc, a.key)];
      } else {
        rows := rows + [HashRow(idx, preRoot, a.root, hashType, i + 1, layerBit, acc, a.key)];
      }
      if (i + 1) % 64 == 0 { acc := 0; }
    }
    forall q | 0 <= q < 4 ensures rows[64 * q + 63].addrAcc == a.key[q] {
      WholeLimb(a.key, q);
    }
  }

  lemma AccLimb(limb: Limb, r: nat, acc: Felt)
    requires r < 64 && acc == if r == 0 then 0 else Prefix(limb, r - 1)
    ensures 2 * acc + BitAt(limb, 63 - r) == Prefix(limb, r)
  {
    hide BitAt;
    PrefixStep(limb, r);
    if r == 0 { NoPrefix(limb); }
  }

  lemma NoPrefix(limb: Limb)
    ensures limb / Pow2(64) == 0
  {
    hide Pow2;
    Pow2Values();
    DivUnique(limb, Pow2(64), 0, limb);
  }

  /** Doubling and adding a bit in the field, when the sum stays below P. */
  lemma NoWrap(acc: Felt, bit: int, sum: Felt)
    requires Bit01(bit) && 2 * acc + bit == sum
    ensures FAdd(FMul(acc, 2), bit) == sum
  {
    assert acc * 2 == 2 * acc;
  }

  /** One turn of the loop, on the accumulator. */
  lemma AccStep(key: Key, i: nat, acc: Felt)
    requires i < DEPTH && acc == if i % 64 == 0 then 0 else Accumulated(key, i - 1)
    ensures FAdd(FMul(acc, 2), BitAt(Number(key), 255 - i)) == Accumulated(key, i)
    ensures 2 * acc + BitAt(Number(key), 255 - i) == Accumulated(key, i)
  {
    hide Pow2, BitAt, Prefix, FAdd, FMul;
    BitOfKey(key, i);
    var limb, r := key[i / 64], i % 64;
    assert r > 0 ==> (i - 1) / 64 == i / 64 && (i - 1) % 64 == r - 1;
    AccLimb(limb, r, acc);
    NoWrap(acc, BitAt(limb, 63 - r), Prefix(limb, r));
  }

  /** Row n belongs to access n / 256: its roots and its number. */
  predicate RootsAt(rows: seq<HashRow>, root: seq<Felt>, accesses: seq<Access>, n: nat)
    requires n < |rows| && |rows| <= DEPTH * |accesses|
  {
    var a := n / DEPTH;
    && rows[n].preRoot == (if a == 0 then root else accesses[a - 1].root)
    && rows[n].root == accesses[a].root && rows[n].accessIdx == a + 1
  }

  predicate KeyAt(rows: seq<HashRow>, accesses: seq<Access>, a: nat)
    requires a < |accesses| && DEPTH * a + DEPTH <= |rows|
  {
    forall q :: 0 <= q < 4 ==> rows[DEPTH * a + (64 * q + 63)].addrAcc == accesses[a].key[q]
  }

  lemma RootsKept(before: seq<HashRow>, more: seq<HashRow>, root: seq<Felt>, accesses: seq<Access>, a: nat, n: nat)
    requires a < |accesses| && |before| == DEPTH * a && |more| == DEPTH && n < DEPTH * a + DEPTH
    requires n < |before| ==> RootsAt(before, root, accesses, n)
    requires forall i :: 0 <= i < DEPTH ==> more[i].accessIdx == a + 1 && more[i].root == accesses[a].root
    requires forall i :: 0 <= i < DEPTH ==> more[i].preRoot == if a == 0 then root else accesses[a - 1].root
    ensures RootsAt(before + more, root, accesses, n)
  {
    if n >= |before| { assert (before + more)[n] == more[n - |before|] && n / DEPTH == a; }
  }

  lemma KeysKept(before: seq<HashRow>, more: seq<HashRow>, accesses: seq<Access>, a: nat, b: nat)
    requires b <= a < |accesses| && |before| == DEPTH * a && |more| == DEPTH
    requires b < a ==> KeyAt(before, accesses, b)
    requires forall q :: 0 <= q < 4 ==> more[64 * q + 63].addrAcc == accesses[a].key[q]
    ensures KeyAt(before + more, accesses, b)
  {
    forall q | 0 <= q < 4 ensures (before + more)[DEPTH * b + (64 * q + 63)].addrAcc == accesses[b].key[q] {
      if b == a {
        assert (before + more)[DEPTH * b + (64 * q + 63)] == more[64 * q + 63];
      } else {
        assert (before + more)[DEPTH * b + (64 * q + 63)] == before[DEPTH * b + (64 * q + 63)];
      }
    }
  }

  /** All accesses: the root before an access is the root after the previous one. */
  method StorageHashRows(root: seq<Felt>, accesses: seq<Access>) returns (rows: seq<HashRow>)
    ensures |rows| == DEPTH * |accesses|
    ensures forall n :: 0 <= n < |rows| ==> RootsAt(rows, root, accesses, n)
    ensures forall a :: 0 <= a < |accesses| ==> KeyAt(rows, accesses, a)
  {
    hide RootsAt, KeyAt;
    rows := [];
    var preRoot := root;
    for a := 0 to |accesses|
      invariant |rows| == DEPTH * a && preRoot == if a == 0 then root else accesses[a - 1].root
      invariant forall n :: 0 <= n < |rows| ==> RootsAt(rows, root, accesses, n)
      invariant forall b :: 0 <= b < a ==> KeyAt(rows, accesses, b)
    {
      var more := AccessRows(accesses[a], a + 1, preRoot);
      forall n | 0 <= n < DEPTH * a + DEPTH ensures RootsAt(rows + more, root, accesses, n) {
        RootsKept(rows, more, root, accesses, a, n);
      }
      forall b | 0 <= b < a + 1 ensures KeyAt(rows + more, accesses, b) {
        KeysKept(rows, more, accesses, a, b);
      }
      rows := rows + more;
      preRoot := accesses[a].root;
    }
  }
}
