/** The Halo2-style lookup argument: the column builder `permuted_cols` and the constraints
    `eval_lookups` that the columns have to satisfy. */
module Lookup {
  import opened Goldilocks
  import opened Air

  /** `eval_lookups` on every row of a trace of n rows; the row after the last one is the first. */
  ghost predicate LookupHolds(input: seq<Felt>, table: seq<Felt>)
    requires |input| == |table|
  {
    forall i :: 0 <= i < |input| ==> LookupRow(input, table, i)
  }

  predicate LookupRow(input: seq<Felt>, table: seq<Felt>, i: nat)
    requires i < |input| == |table|
  {
    var next := if i + 1 == |input| then 0 else i + 1;
    var localInput: int, nextInput: int, nextTable: int := input[i], input[next], table[next];
    && Zero2(nextInput - localInput, nextInput - nextTable)
    && (i + 1 == |input| ==> Vanishes(nextInput - nextTable))
  }

  /** The first of a run of equal values. */
  predicate Fresh(input: seq<Felt>, k: nat)
    requires k < |input|
  {
    k == 0 || input[k - 1] != input[k]
  }

  /** Reading `LookupRow` at the row before k: a new input value has to sit beside an equal table value. */
  ghost predicate Aligned(input: seq<Felt>, table: seq<Felt>, k: nat)
    requires k < |input| == |table|
  {
    Fresh(input, k) ==> table[k] == input[k]
  }

  function NextRow(n: nat, i: nat): nat { if i + 1 == n then 0 else i + 1 }

  lemma RowAligns(input: seq<Felt>, table: seq<Felt>, i: nat)
    requires i < |input| == |table|
    ensures LookupRow(input, table, i) <==> Aligned(input, table, NextRow(|input|, i))
  {
    hide Vanishes;
    var next := NextRow(|input|, i);
    SameFelt(input[next], input[i]);
    SameFelt(input[next], table[next]);
  }

  lemma HoldsWhenAligned(input: seq<Felt>, table: seq<Felt>)
    requires |input| == |table|
    ensures LookupHolds(input, table) <==> forall k :: 0 <= k < |input| ==> Aligned(input, table, k)
  {
    hide LookupRow, Aligned;
    var n := |input|;
    if LookupHolds(input, table) {
      forall k | 0 <= k < n ensures Aligned(input, table, k) {
        var i := if k == 0 then n - 1 else k - 1;
        assert LookupRow(input, table, i);
        RowAligns(input, table, i);
      }
    }
    if forall k :: 0 <= k < n ==> Aligned(input, table, k) {
      forall i | 0 <= i < n ensures LookupRow(input, table, i) {
        RowAligns(input, table, i);
        assert Aligned(input, table, NextRow(n, i));
      }
    }
  }

  /** Soundness: the constraints alone force every input of the permuted column into the table. */
  lemma {:induction false} InputsAreInTable(input: seq<Felt>, table: seq<Felt>, k: nat)
    requires k < |input| == |table|
    requires LookupHolds(input, table)
    ensures input[k] in table
  {
    HoldsWhenAligned(input, table);
    assert Aligned(input, table, k);
    if !Fresh(input, k) {
      InputsAreInTable(input, table, k - 1);
    }
  }

  /** Soundness of the argument: permuted columns that satisfy the constraints leave no input
      value outside the table. */
  lemma LookupSound(input: seq<Felt>, table: seq<Felt>, pinput: seq<Felt>, ptable: seq<Felt>)
    requires |pinput| == |ptable| && LookupHolds(pinput, ptable)
    requires multiset(pinput) == multiset(input) && multiset(ptable) == multiset(table)
    ensures forall x :: x in input ==> x in table
  {
    forall x | x in input ensures x in table {
      assert x in multiset(pinput);
      var k :| 0 <= k < |pinput| && pinput[k] == x;
      InputsAreInTable(pinput, ptable, k);
      assert x in multiset(ptable);
    }
  }

  // ---- sorting ----

  predicate Ascending(s: seq<Felt>) {
    forall i, j :: 0 <= i < j < |s| ==> s[i] <= s[j]
  }

  lemma InsertBehind(x: Felt, s: seq<Felt>, t: seq<Felt>)
    requires s != [] && s[0] <= x && Ascending(s) && Ascending(t)
    requires multiset(t) == multiset(s[1..]) + multiset{x}
    ensures Ascending([s[0]] + t) && multiset([s[0]] + t) == multiset(s) + multiset{x}
  {
    assert s == [s[0]] + s[1..];
    forall k | 0 <= k < |t| ensures s[0] <= t[k] {
      assert t[k] in multiset(t);
      assert t[k] in s[1..] || t[k] == x;
    }
  }

  function Insert(x: Felt, s: seq<Felt>): (r: seq<Felt>)
    requires Ascending(s)
    ensures Ascending(r) && multiset(r) == multiset(s) + multiset{x}
  {
    if s == [] || x <= s[0] then
      assert [x] + s == [x] + s;
      [x] + s
    else
      var t := Insert(x, s[1..]);
      InsertBehind(x, s, t);
      [s[0]] + t
  }

  /** The canonical values in ascending order. */
  function Sort(s: seq<Felt>): (r: seq<Felt>)
    ensures Ascending(r) && multiset(r) == multiset(s) && |r| == |s|
  {
    if s == [] then [] else
      assert s == [s[0]] + s[1..];
      var r := Insert(s[0], Sort(s[1..]));
      assert |multiset(r)| == |multiset(s)|;
      r
  }

  // ---- the column builder ----

  ghost function Zeros(n: nat): multiset<Felt> { multiset{}[0 := n] }

  /** Slots up to i are filled, except the listed ones, which still hold zero; together with the
      spare values they use up the first j table entries. */
  ghost predicate Placed(p: seq<Felt>, i: nat, open: seq<nat>, spare: seq<Felt>, taken: seq<Felt>)
    requires i <= |p|
  {
    && (forall a, b :: 0 <= a < b < |open| ==> open[a] < open[b])
    && (forall a :: 0 <= a < |open| ==> open[a] < i && p[open[a]] == 0)
    && multiset(p[..i]) + multiset(spare) == multiset(taken) + Zeros(|open|)
  }

  /** What the merge knows about the slots it has passed: a first occurrence of a value that is in
      the table is aligned with it and closed. */
  ghost predicate Matched(input: seq<Felt>, p: seq<Felt>, i: nat, open: seq<nat>, table: seq<Felt>)
    requires i <= |p| == |input|
  {
    forall k :: 0 <= k < i && Fresh(input, k) && input[k] in table ==> p[k] == input[k] && k !in open
  }

  /** Table entries already passed are below the next input, or equal to it and then used by an
      equal input just before it. */
  ghost predicate Behind(input: seq<Felt>, table: seq<Felt>, i: nat, j: nat)
    requires j <= |table|
  {
    i < |input| ==> forall m :: 0 <= m < j ==>
      && table[m] <= input[i]
      && (table[m] == input[i] ==> !Fresh(input, i))
  }

  lemma Cancel<T>(a: multiset<T>, b: multiset<T>, c: multiset<T>)
    requires a + c == b + c
    ensures a == b
  {
    assert a == (a + c) - c && b == (b + c) - c;
  }

  lemma FillNext(p: seq<Felt>, i: nat, open: seq<nat>, spare: seq<Felt>, taken: seq<Felt>, x: Felt,
                 spare': seq<Felt>, taken': seq<Felt>)
    requires i < |p| && Placed(p, i, open, spare, taken)
    requires multiset{x} + multiset(spare') + multiset(taken) == multiset(taken') + multiset(spare)
    ensures Placed(p[i := x], i + 1, open, spare', taken')
  {
    assert p[i := x][..i + 1] == p[..i] + [x];
    var a, z := multiset(p[..i]), Zeros(|open|);
    var t, t', s, s' := multiset(taken), multiset(taken'), multiset(spare), multiset(spare');
    assert (a + multiset{x} + s') + t == a + (multiset{x} + s' + t) == (a + s) + t' == (t' + z) + t;
    Cancel(a + multiset{x} + s', t' + z, t);
  }

  lemma SkipNext(p: seq<Felt>, i: nat, open: seq<nat>, spare: seq<Felt>, taken: seq<Felt>)
    requires i < |p| && Placed(p, i, open, spare, taken) && p[i] == 0
    ensures Placed(p, i + 1, open + [i], spare, taken)
  {
    assert p[..i + 1] == p[..i] + [p[i]];
    assert Zeros(|open + [i]|) == Zeros(|open|) + multiset{0};
    var zero: multiset<Felt> := multiset{0};
    assert multiset(p[..i + 1]) + multiset(spare) == (multiset(p[..i]) + multiset(spare)) + zero;
    assert (multiset(taken) + Zeros(|open|)) + zero == multiset(taken) + (Zeros(|open|) + zero);
  }

  /** The state of the merge after i inputs and j table entries. */
  ghost predicate Merged(input: seq<Felt>, table: seq<Felt>, i: nat, j: nat,
                         p: seq<Felt>, open: seq<nat>, spare: seq<Felt>)
  {
    && |input| == |table| == |p| && i <= |p| && j <= |p|
    && i - |open| + |spare| == j
    && (forall k :: i <= k < |p| ==> p[k] == 0)
    && Placed(p, i, open, spare, table[..j])
    && Matched(input, p, i, open, table)
    && Behind(input, table, i, j)
  }

  lemma PassTableEntry(input: seq<Felt>, table: seq<Felt>, i: nat, j: nat,
                       p: seq<Felt>, open: seq<nat>, spare: seq<Felt>)
    requires Merged(input, table, i, j, p, open, spare) && j < |p|
    requires i < |p| ==> input[i] > table[j]
    ensures Merged(input, table, i, j + 1, p, open, spare + [table[j]])
  {
    assert table[..j + 1] == table[..j] + [table[j]];
    var v := multiset{table[j]};
    assert multiset(p[..i]) + (multiset(spare) + v) == (multiset(p[..i]) + multiset(spare)) + v;
    assert (multiset(table[..j]) + Zeros(|open|)) + v == (multiset(table[..j]) + v) + Zeros(|open|);
  }

  /** An input that is not met by the table is a repeated value or a value the table lacks. */
  lemma UnmatchedInput(input: seq<Felt>, table: seq<Felt>, i: nat, j: nat)
    requires Ascending(input) && Ascending(table) && |input| == |table| && i < |input| && j <= |table|
    requires Behind(input, table, i, j)
    requires j < |table| ==> input[i] < table[j]
    ensures Fresh(input, i) ==> input[i] !in table
    ensures Behind(input, table, i + 1, j)
  {
  }

  /** The slot of an unmatched input stays open. */
  lemma LeaveOpen(input: seq<Felt>, table: seq<Felt>, i: nat, j: nat,
                  p: seq<Felt>, open: seq<nat>, spare: seq<Felt>)
    requires Ascending(input) && Ascending(table)
    requires Merged(input, table, i, j, p, open, spare) && i < |p|
    requires j < |p| ==> input[i] < table[j]
    requires spare == [] || j == |p|
    ensures Merged(input, table, i + 1, j, p, open + [i], spare)
  {
    hide Placed, Ascending, Behind;
    UnmatchedInput(input, table, i, j);
    SkipNext(p, i, open, spare, table[..j]);
    assert forall k :: k in open + [i] <==> k in open || k == i;
  }

  /** Or it takes the last spare table value. */
  lemma TakeSpare(input: seq<Felt>, table: seq<Felt>, i: nat, j: nat,
                  p: seq<Felt>, open: seq<nat>, spare: seq<Felt>)
    requires Ascending(input) && Ascending(table)
    requires Merged(input, table, i, j, p, open, spare) && i < |p| && spare != []
    requires j < |p| ==> input[i] < table[j]
    ensures Merged(input, table, i + 1, j, p[i := spare[|spare| - 1]], open, spare[..|spare| - 1])
  {
    hide Placed, Ascending, Behind;
    UnmatchedInput(input, table, i, j);
    var x, rest := spare[|spare| - 1], spare[..|spare| - 1];
    assert spare == rest + [x];
    FillNext(p, i, open, spare, table[..j], x, rest, table[..j]);
  }

  lemma PassInput(input: seq<Felt>, table: seq<Felt>, i: nat, j: nat,
                  p: seq<Felt>, open: seq<nat>, spare: seq<Felt>)
    requires Ascending(input) && Ascending(table)
    requires Merged(input, table, i, j, p, open, spare) && i < |p|
    requires j < |p| ==> input[i] < table[j]
    ensures spare == [] || j == |p| ==> Merged(input, table, i + 1, j, p, open + [i], spare)
    ensures spare != [] ==>
              var x := spare[|spare| - 1];
              Merged(input, table, i + 1, j, p[i := x], open, spare[..|spare| - 1])
  {
    hide Placed, Ascending, Behind, Matched;
    if spare == [] || j == |p| { LeaveOpen(input, table, i, j, p, open, spare); }
    if spare != [] { TakeSpare(input, table, i, j, p, open, spare); }
  }

  lemma PassBoth(input: seq<Felt>, table: seq<Felt>, i: nat, j: nat,
                 p: seq<Felt>, open: seq<nat>, spare: seq<Felt>)
    requires Ascending(input) && Ascending(table)
    requires Merged(input, table, i, j, p, open, spare) && i < |p| && j < |p| && input[i] == table[j]
    ensures Merged(input, table, i + 1, j + 1, p[i := table[j]], open, spare)
  {
    assert table[..j + 1] == table[..j] + [table[j]];
    FillNext(p, i, open, spare, table[..j], table[j], spare, table[..j + 1]);
  }

  /** The two-pointer merge, and the lists of slots and table values it leaves unmatched. */
  method Merge(input: seq<Felt>, table: seq<Felt>)
    returns (permuted: seq<Felt>, unusedInds: seq<nat>, unusedVals: seq<Felt>)
    requires Ascending(input) && Ascending(table) && |input| == |table|
    ensures Merged(input, table, |input|, |input|, permuted, unusedInds, unusedVals)
  {
    hide Placed, Matched, Behind, Ascending;
    var n := |input|;
    permuted, unusedInds, unusedVals := seq(n, _ => 0), [], [];
    MergeStart(input, table, permuted);
    var i, j := 0, 0;
    while j < n && i < n
      invariant Merged(input, table, i, j, permuted, unusedInds, unusedVals)
      decreases 2 * n - i - j
    {
      if input[i] > table[j] {
        PassTableEntry(input, table, i, j, permuted, unusedInds, unusedVals);
        unusedVals := unusedVals + [table[j]];
        j := j + 1;
      } else if input[i] < table[j] {
        PassInput(input, table, i, j, permuted, unusedInds, unusedVals);
        if |unusedVals| > 0 {
          var x := unusedVals[|unusedVals| - 1];
          unusedVals := unusedVals[..|unusedVals| - 1];
          permuted := permuted[i := x];
        } else {
          unusedInds := unusedInds + [i];
        }
        i := i + 1;
      } else {
        PassBoth(input, table, i, j, permuted, unusedInds, unusedVals);
        permuted := permuted[i := table[j]];
        i := i + 1;
        j := j + 1;
      }
    }
    for jj := j to n
      invariant Merged(input, table, i, jj, permuted, unusedInds, unusedVals)
    {
      PassTableEntry(input, table, i, jj, permuted, unusedInds, unusedVals);
      unusedVals := unusedVals + [table[jj]];
    }
    for ii := i to n
      invariant Merged(input, table, ii, n, permuted, unusedInds, unusedVals)
    {
      PassInput(input, table, ii, n, permuted, unusedInds, unusedVals);
      unusedInds := unusedInds + [ii];
    }
  }

  lemma MergeStart(input: seq<Felt>, table: seq<Felt>, zeros: seq<Felt>)
    requires |input| == |table| == |zeros| && forall k :: 0 <= k < |zeros| ==> zeros[k] == 0
    ensures Merged(input, table, 0, 0, zeros, [], [])
  {
  }

  /** Returns the sorted inputs and a rearrangement of the table. The columns are permutations of
      the arguments whatever the arguments are, and they satisfy the lookup constraints exactly
      when every input value occurs in the table. */
  method PermutedCols(inputs: seq<Felt>, table: seq<Felt>)
    returns (sortedInputs: seq<Felt>, permutedTable: seq<Felt>)
    requires |inputs| == |table|
    ensures Ascending(sortedInputs) && |sortedInputs| == |permutedTable| == |inputs|
    ensures multiset(sortedInputs) == multiset(inputs)
    ensures multiset(permutedTable) == multiset(table)
    ensures LookupHolds(sortedInputs, permutedTable) <==> forall x :: x in inputs ==> x in table
  {
    hide Sort, Insert, LookupHolds;
    var n := |inputs|;
    sortedInputs := Sort(inputs);
    var sortedTable := Sort(table);
    var unusedInds, unusedVals;
    permutedTable, unusedInds, unusedVals := Merge(sortedInputs, sortedTable);
    // `zip_eq` panics on lists of different lengths
    assert |unusedInds| == |unusedVals|;
    assert sortedTable[..n] == sortedTable;
    for k := 0 to |unusedInds|
      invariant |permutedTable| == n
      invariant Placed(permutedTable, n, unusedInds[k..], unusedVals[k..], sortedTable)
      invariant Matched(sortedInputs, permutedTable, n, unusedInds, sortedTable)
    {
      CloseOne(permutedTable, unusedInds[k..], unusedVals[k..], sortedTable);
      assert unusedInds[k..][1..] == unusedInds[k + 1..] && unusedVals[k..][1..] == unusedVals[k + 1..];
      permutedTable := permutedTable[unusedInds[k] := unusedVals[k]];
    }
    AllClosed(permutedTable, unusedInds[|unusedInds|..], unusedVals[|unusedInds|..], sortedTable);
    forall k | 0 <= k < n && sortedInputs[k] in table
      ensures Aligned(sortedInputs, permutedTable, k)
    {
      assert sortedInputs[k] in multiset(sortedTable);
    }
    CompleteOrUnsound(inputs, table, sortedInputs, permutedTable);
  }

  lemma CloseOne(p: seq<Felt>, open: seq<nat>, spare: seq<Felt>, taken: seq<Felt>)
    requires Placed(p, |p|, open, spare, taken) && |open| == |spare| > 0
    ensures Placed(p[open[0] := spare[0]], |p|, open[1..], spare[1..], taken)
  {
    var q := p[open[0] := spare[0]];
    assert spare == [spare[0]] + spare[1..];
    assert p[..|p|] == p && q[..|p|] == q;
    var zero: multiset<Felt>, v := multiset{0}, multiset{spare[0]};
    assert multiset(q) + zero == multiset(p) + v;
    assert Zeros(|open|) == Zeros(|open[1..]|) + zero;
    calc {
      (multiset(q) + multiset(spare[1..])) + zero;
      (multiset(q) + zero) + multiset(spare[1..]);
      multiset(p) + (v + multiset(spare[1..]));
      { assert multiset(spare) == v + multiset(spare[1..]); }
      multiset(p) + multiset(spare);
      multiset(taken) + (Zeros(|open[1..]|) + zero);
      (multiset(taken) + Zeros(|open[1..]|)) + zero;
    }
    Cancel(multiset(q) + multiset(spare[1..]), multiset(taken) + Zeros(|open[1..]|), zero);
  }

  lemma AllClosed(p: seq<Felt>, open: seq<nat>, spare: seq<Felt>, taken: seq<Felt>)
    requires Placed(p, |p|, open, spare, taken) && open == [] && spare == []
    ensures multiset(p) == multiset(taken)
  {
    assert p[..|p|] == p;
    assert Zeros(0) == multiset{};
    assert multiset(p) == multiset(p) + multiset(spare);
  }

  lemma CompleteOrUnsound(inputs: seq<Felt>, table: seq<Felt>, sorted: seq<Felt>, permuted: seq<Felt>)
    requires |inputs| == |table| == |sorted| == |permuted|
    requires multiset(sorted) == multiset(inputs) && multiset(permuted) == multiset(table)
    requires forall k :: 0 <= k < |sorted| && sorted[k] in table ==> Aligned(sorted, permuted, k)
    ensures LookupHolds(sorted, permuted) <==> forall x :: x in inputs ==> x in table
  {
    if LookupHolds(sorted, permuted) {
      LookupSound(inputs, table, sorted, permuted);
    }
    if forall x :: x in inputs ==> x in table {
      forall k | 0 <= k < |sorted| ensures Aligned(sorted, permuted, k) {
        assert sorted[k] in multiset(sorted);
      }
      HoldsWhenAligned(sorted, permuted);
    }
  }
}
