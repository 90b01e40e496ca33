/** The comparison table behind `gte`. */
module Compare {
  import opened Goldilocks
  import opened Air
  import opened Common
  import opened MemoryTrace

  datatype CmpRow = CmpRow(op0: Felt, op1: Felt, gte: Felt, absDiff: Felt, absDiffInv: Felt, filter: Felt)

  /** All of `CmpStark`. */
  predicate RowHolds(r: CmpRow) {
    && Zero2(r.gte, 1 - r.gte)
    && Zero2(r.gte, r.op0 - r.op1 - r.absDiff)
    && Zero2(1 - r.gte, r.op1 - r.op0 - r.absDiff)
    && Zero2(1 - r.gte, 1 - r.absDiff * r.absDiffInv)
  }

  predicate TableHolds(rows: seq<CmpRow>) { forall i :: 0 <= i < |rows| ==> RowHolds(rows[i]) }

  const U32: int := 0x1_0000_0000

  /** `execute_inst_gte` and `insert_cmp`: the row it records, or the range-check failure. */
  method ExecuteGte(op0: Felt, op1: Felt) returns (dst: Felt, row: Option<CmpRow>)
    ensures dst == if op0 >= op1 then 1 else 0
    ensures row.Some? <==> -U32 < op0 - op1 < U32
    ensures row.Some? ==> RowHolds(row.value) && row.value.absDiff < U32 && row.value.filter == 1
    ensures row.Some? ==> row.value.op0 == op0 && row.value.op1 == op1 && row.value.gte == dst
  {
    dst := if op0 >= op1 then 1 else 0;
    var absDiff: Felt;
    if dst == 1 { absDiff := FSub(op0, op1); } else { absDiff := FSub(op1, op0); }
    Distance(op0, op1);
    if absDiff > U32 - 1 { return dst, None; }
    var inv: Felt := 0;
    if absDiff != 0 { inv := Inverse(absDiff); }
    row := Some(CmpRow(op0, op1, dst, absDiff, inv, 1));
    Recorded(op0, op1, dst, absDiff, inv);
  }

  lemma Distance(x: Felt, y: Felt)
    ensures x >= y ==> FSub(x, y) as int == x as int - y as int
    ensures x < y ==> FSub(y, x) as int == y as int - x as int
  {
  }

  lemma Recorded(op0: Felt, op1: Felt, dst: Felt, absDiff: Felt, inv: Felt)
    requires dst == if op0 >= op1 then 1 else 0
    requires absDiff as int == if op0 >= op1 then op0 as int - op1 as int else op1 as int - op0 as int
    requires absDiff != 0 ==> Vanishes(absDiff * inv - 1)
    ensures RowHolds(CmpRow(op0, op1, dst, absDiff, inv, 1))
  {
    var p := absDiff * inv;
    if absDiff != 0 { DivSum(0, p - 1, P); }
  }

  /** A row that holds and whose difference passes the range check decides the comparison correctly exactly
      if the operands are less than 2^32 apart. */
  lemma RowDecides(r: CmpRow)
    requires RowHolds(r) && r.absDiff < U32
    ensures r.gte == 0 || r.gte == 1
    ensures (r.gte == 1 <==> r.op0 >= r.op1) <==> -U32 < r.op0 - r.op1 < U32
  {
    Binary(r.gte);
    var x: int, y: int, d: int := r.op0, r.op1, r.absDiff;
    if r.gte == 1 {
      Apart(x - y, d);
    } else {
      Apart(y - x, d);
    }
  }

  lemma Binary(g: Felt)
    requires Zero2(g, 1 - g)
    ensures g == 0 || g == 1
  {
    SameFelt(1, g);
    SameFelt(g, 0);
  }

  /** A difference that is d modulo P is d or d - P. */
  lemma Apart(diff: int, d: int)
    requires Vanishes(diff - d) && -P < diff < P && 0 <= d < U32
    ensures diff == d || diff == d - P
  {
    var k := Quotient(diff - d, P);
    assert -2 < k < 1;
  }

  const PADDING := CmpRow(1, 0, 1, 1, 1, 0)

  function Padded(rows: seq<CmpRow>): (r: seq<CmpRow>)
    ensures |r| == PaddedLength(|rows|)
  {
    rows + seq(PaddedLength(|rows|) - |rows|, _ => PADDING)
  }

  /** `generate_cmp_trace`: padding adds rows that hold, so the table holds exactly if the recorded rows do. */
  method GenerateCmpTrace(rows: seq<CmpRow>) returns (trace: array<CmpRow>)
    ensures fresh(trace) && trace[..] == Padded(rows)
    ensures TableHolds(trace[..]) <==> TableHolds(rows)
  {
    hide NextPowerOfTwo, RowHolds;
    var n := PaddedLength(|rows|);
    trace := new CmpRow[n](_ => CmpRow(0, 0, 0, 0, 0, 0));
    for i := 0 to |rows|
      invariant forall j :: 0 <= j < i ==> trace[j] == rows[j]
      invariant forall j :: i <= j < n ==> trace[j] == CmpRow(0, 0, 0, 0, 0, 0)
    {
      trace[i] := rows[i];
    }
    for i := |rows| to n
      invariant forall j :: 0 <= j < |rows| ==> trace[j] == rows[j]
      invariant forall j :: |rows| <= j < i ==> trace[j] == PADDING
      invariant forall j :: i <= j < n ==> trace[j] == CmpRow(0, 0, 0, 0, 0, 0)
    {
      trace[i] := trace[i].(op0 := 1, gte := 1, absDiff := 1, absDiffInv := 1);
    }
    PaddingHolds();
    assert forall i :: 0 <= i < |rows| ==> trace[..][i] == rows[i];
  }

  lemma PaddingHolds()
    ensures RowHolds(PADDING)
  {
  }
}
