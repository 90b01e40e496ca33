/** The range-check table: 32-bit values split into 16-bit limbs that are looked up in a fixed table. */
module RangeCheck {
  import opened Goldilocks
  import opened MemoryTrace
  import L = Lookup

  const U16: int := 0x1_0000
  const U32: int := 0x1_0000_0000

  /** `split_u16_limbs_from_field`. */
  function Lo(v: Felt): Felt { v % U16 }
  function Hi(v: Felt): Felt { (v / U16) % U16 }

  /** The limbs add up to the value exactly if it has 32 bits. */
  lemma LimbsAddUp(v: Felt)
    ensures Vanishes(v - (Lo(v) + Hi(v) * U16)) <==> v < U32
  {
    var x: int := v;
    var sum := Lo(v) + Hi(v) * U16;
    assert sum == x % U32;
    if x >= U32 {
      assert 0 < x - sum < P;
    }
  }

  function TableLength(n: nat): (r: nat)
    ensures r >= n && r >= U16
  {
    NextPowerOfTwo(if n > U16 then n else U16)
  }

  /** All 16-bit values; the last one is repeated up to the length of the table. */
  function FixedTable(n: nat): (r: seq<Felt>)
    requires n >= U16
    ensures |r| == n
  {
    seq(n, i requires 0 <= i => if i < U16 then i else U16 - 1)
  }

  lemma InFixed(n: nat, x: Felt)
    requires n >= U16
    ensures x in FixedTable(n) <==> x < U16
  {
    if x < U16 { assert FixedTable(n)[x] == x; }
  }

  /** The columns of the table. */
  datatype Columns = Columns(val: seq<Felt>, lo: seq<Felt>, hi: seq<Felt>, fixed: seq<Felt>,
                             loPermuted: seq<Felt>, fixedLo: seq<Felt>, hiPermuted: seq<Felt>, fixedHi: seq<Felt>)

  predicate SumHolds(c: Columns, i: nat)
    requires i < |c.val| == |c.lo| == |c.hi|
  {
    Vanishes(c.val[i] - (c.lo[i] + c.hi[i] * U16))
  }

  /** All of `RangeCheckStark`. */
  ghost predicate TableHolds(c: Columns) {
    && |c.val| == |c.lo| == |c.hi| == |c.loPermuted| == |c.fixedLo| == |c.hiPermuted| == |c.fixedHi|
    && (forall i :: 0 <= i < |c.val| ==> SumHolds(c, i))
    && L.LookupHolds(c.loPermuted, c.fixedLo) && L.LookupHolds(c.hiPermuted, c.fixedHi)
  }

  function Padded(s: seq<Felt>, n: nat): (r: seq<Felt>)
    requires |s| <= n
    ensures |r| == n
  {
    s + seq(n - |s|, _ => 0)
  }

  function Limbs(vals: seq<Felt>, hi: bool): (r: seq<Felt>)
    ensures |r| == |vals|
  {
    seq(|vals|, i requires 0 <= i < |vals| => if hi then Hi(vals[i]) else Lo(vals[i]))
  }

  lemma LimbsInTable(vals: seq<Felt>, hi: bool, n: nat)
    requires n >= U16 && |vals| <= n
    ensures forall x :: x in Padded(Limbs(vals, hi), n) ==> x in FixedTable(n)
  {
    forall x | x in Padded(Limbs(vals, hi), n) ensures x in FixedTable(n) {
      InFixed(n, x);
      var i :| 0 <= i < n && Padded(Limbs(vals, hi), n)[i] == x;
      assert i < |vals| ==> x == Limbs(vals, hi)[i];
    }
  }

  /** The recorded rows go to the top of columns that start out as zeros. */
  method FillRows(vals: seq<Felt>, n: nat) returns (val: array<Felt>, lo: array<Felt>, hi: array<Felt>)
    requires |vals| <= n
    ensures val[..] == Padded(vals, n)
    ensures lo[..] == Padded(Limbs(vals, false), n) && hi[..] == Padded(Limbs(vals, true), n)
  {
    hide Lo, Hi;
    val := new Felt[n](_ => 0);
    lo := new Felt[n](_ => 0);
    hi := new Felt[n](_ => 0);
    for i := 0 to |vals|
      invariant forall j :: 0 <= j < i ==> val[j] == vals[j] && lo[j] == Lo(vals[j]) && hi[j] == Hi(vals[j])
      invariant forall j :: i <= j < n ==> val[j] == 0 && lo[j] == 0 && hi[j] == 0
    {
      val[i] := vals[i];
      lo[i], hi[i] := Lo(vals[i]), Hi(vals[i]);
    }
  }

  /** The fixed column starts as all 16-bit values and grows by its last entry. */
  method FillFixed(n: nat) returns (fixed: seq<Felt>)
    requires n >= U16
    ensures fixed == FixedTable(n)
  {
    fixed := [];
    for i := 0 to U16
      invariant |fixed| == i && forall j :: 0 <= j < i ==> fixed[j] == j
    {
      fixed := fixed + [i];
    }
    var last := fixed[U16 - 1];
    for i := U16 to n
      invariant |fixed| == i && forall j :: 0 <= j < i ==> fixed[j] == if j < U16 then j else last
    {
      fixed := fixed + [last];
    }
  }

  /** `generate_rc_trace`: both lookups always hold; the whole table holds exactly if every value is
      below 2^32. */
  method GenerateRcTrace(vals: seq<Felt>) returns (c: Columns)
    ensures c.val == Padded(vals, TableLength(|vals|)) && c.fixed == FixedTable(TableLength(|vals|))
    ensures multiset(c.loPermuted) == multiset(c.lo) && multiset(c.fixedLo) == multiset(c.fixed)
    ensures multiset(c.hiPermuted) == multiset(c.hi) && multiset(c.fixedHi) == multiset(c.fixed)
    ensures |c.loPermuted| == |c.fixedLo| && |c.hiPermuted| == |c.fixedHi|
    ensures L.LookupHolds(c.loPermuted, c.fixedLo) && L.LookupHolds(c.hiPermuted, c.fixedHi)
    ensures TableHolds(c) <==> forall i :: 0 <= i < |vals| ==> vals[i] < U32
  {
    hide L.LookupHolds, NextPowerOfTwo, Vanishes, Lo, Hi;
    var n := TableLength(|vals|);
    var val, lo, hi := FillRows(vals, n);
    var fixed := FillFixed(n);
    LimbsInTable(vals, false, n);
    LimbsInTable(vals, true, n);
    var a, b := L.PermutedCols(lo[..], fixed);
    var d, e := L.PermutedCols(hi[..], fixed);
    c := Columns(val[..], lo[..], hi[..], fixed, a, b, d, e);
    SumsHold(vals, c, n);
  }

  lemma SumsHold(vals: seq<Felt>, c: Columns, n: nat)
    requires |vals| <= n && c.val == Padded(vals, n) && c.lo == Padded(Limbs(vals, false), n)
             && c.hi == Padded(Limbs(vals, true), n)
    ensures (forall i :: 0 <= i < n ==> SumHolds(c, i)) <==> forall i :: 0 <= i < |vals| ==> vals[i] < U32
  {
    hide Lo, Hi;
    forall i | 0 <= i < n ensures SumHolds(c, i) <==> (i < |vals| ==> vals[i] < U32) {
      if i < |vals| { LimbsAddUp(vals[i]); }
    }
  }

  /** Conversely, a table that holds, with permuted columns that really are permutations, has only 32-bit
      values in it. */
  lemma RangeCheckSound(c: Columns, n: nat, i: nat)
    requires n >= U16 && |c.val| == n && c.fixed == FixedTable(n) && TableHolds(c) && i < n
    requires multiset(c.loPermuted) == multiset(c.lo) && multiset(c.fixedLo) == multiset(c.fixed)
    requires multiset(c.hiPermuted) == multiset(c.hi) && multiset(c.fixedHi) == multiset(c.fixed)
    ensures c.val[i] < U32 && c.lo[i] == Lo(c.val[i]) && c.hi[i] == Hi(c.val[i])
  {
    hide L.LookupHolds;
    L.LookupSound(c.lo, c.fixed, c.loPermuted, c.fixedLo);
    L.LookupSound(c.hi, c.fixed, c.hiPermuted, c.fixedHi);
    assert c.lo[i] in c.lo && c.hi[i] in c.hi;
    InFixed(n, c.lo[i]);
    InFixed(n, c.hi[i]);
    assert SumHolds(c, i);
    var sum: int := c.lo[i] + c.hi[i] * U16;
    var v: int := c.val[i];
    assert v == sum;
  }
}
