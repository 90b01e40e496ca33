/** From the memory log to the accesses of the memory table: `gen_memory_table`, which sorts and
    annotates them and emits range checks. */
module MemoryTable {
  import opened Common
  import opened Goldilocks
  import opened MemoryAir
  import opened MemoryLog

  // ---- sorted accesses ----

  /** One address of the log with its cells; the log is walked in ascending address order. */
  datatype Entry = Entry(addr: nat, cells: seq<Cell>)

  /** An access, with the address of the entry before its own. */
  datatype Access = Access(addr: nat, origin: nat, cell: Cell)

  predicate Walkable(entries: seq<Entry>) {
    && (forall i :: 0 <= i < |entries| ==> entries[i].addr < P)
    && (forall i, j :: 0 <= i < j < |entries| ==> entries[i].addr < entries[j].addr)
    && (forall i :: 0 <= i < |entries| ==> Zoned(entries[i]))
  }

  /** Region flags say where the address is, and clocks do not go backwards. */
  predicate Zoned(e: Entry) {
    && (forall k :: 0 <= k < |e.cells| ==>
          && e.cells[k].isRw == ZoneIsRw(e.addr)
          && e.cells[k].regionHeap == ZoneHeap(e.addr)
          && e.cells[k].regionProphet == ZoneProphet(e.addr))
    && (forall k :: 0 < k < |e.cells| ==> InTime(e.cells, k))
  }

  predicate InTime(cells: seq<Cell>, k: nat)
    requires 0 < k < |cells|
  {
    cells[k - 1].clk <= cells[k].clk
  }

  function AccessesOf(e: Entry, origin: nat): (r: seq<Access>)
    ensures |r| == |e.cells|
  {
    seq(|e.cells|, k requires 0 <= k < |e.cells| => Access(e.addr, origin, e.cells[k]))
  }

  function Origin(entries: seq<Entry>, i: nat): nat
    requires i < |entries|
  {
    if i == 0 then 0 else entries[i - 1].addr
  }

  function Flatten(entries: seq<Entry>): seq<Access> {
    if entries == [] then [] else
      var n := |entries| - 1;
      Flatten(entries[..n]) + AccessesOf(entries[n], Origin(entries, n))
  }

  // ---- the annotated row of one access, from the access above it ----

  datatype TraceCell = TraceCell(
    envIdx: Felt, addr: Felt, clk: nat, isRw: Felt, op: int, isWrite: Felt, diffAddr: Felt,
    diffAddrInv: Felt, diffClk: nat, diffAddrCond: Felt, rwAddrUnchanged: Felt,
    regionProphet: Felt, regionHeap: Felt, value: Felt, rcValue: int)

  datatype RcKind = MemSort | MemRegion
  datatype Rc = Rc(value: int, kind: RcKind)

  function DiffAddrCond(a: Access): (r: Felt)
    requires a.addr < P
  {
    if a.cell.regionProphet == 1 then Canon(P - a.addr)
    else if a.cell.regionHeap == 1 then Canon(P - SPAN - a.addr)
    else 0
  }

  predicate Annotable(s: seq<Access>) {
    && (forall t :: 0 <= t < |s| ==> s[t].addr < P && s[t].origin <= s[t].addr)
    && (forall t :: 0 < t < |s| ==> InOrder(s, t))
  }

  predicate InOrder(s: seq<Access>, t: nat)
    requires 0 < t < |s|
  {
    if s[t - 1].addr == s[t].addr then s[t - 1].cell.clk <= s[t].cell.clk
    else s[t - 1].addr < s[t].addr && s[t].origin < s[t].addr
  }

  /** The annotations depend on the access above only: first row, first row of the heap, new
      address, or a repeated address. */
  function Annotate(s: seq<Access>, t: nat): TraceCell
    requires t < |s| && Annotable(s)
  {
    assert t > 0 ==> InOrder(s, t);
    var a, c := s[t], s[t].cell;
    var cond := DiffAddrCond(a);
    if t == 0 then Plain(a, 0, 0, 0, 0, 0)
    else if s[t - 1].addr != a.addr then
      if c.regionProphet == 1 then Plain(a, a.addr - a.origin, 0, 0, 0, cond)
      else if StartsHeap(s, t) then Plain(a, 0, 0, 0, 0, 0)
      else Plain(a, a.addr - a.origin, Inverse(a.addr - a.origin), 0, 0, a.addr - a.origin)
    else
      var diffClk := c.clk - s[t - 1].cell.clk;
      if c.isRw == 0 then Plain(a, 0, 0, diffClk, 0, cond) else Plain(a, 0, 0, diffClk, 1, diffClk)
  }

  predicate StartsHeap(s: seq<Access>, t: nat)
    requires 0 < t < |s|
  {
    s[t].cell.regionHeap == 1 && s[t - 1].addr < HP_START
  }

  function Plain(a: Access, diffAddr: Felt, inv: Felt, diffClk: nat, still: Felt, rc: int): TraceCell
    requires a.addr < P
  {
    var c := a.cell;
    TraceCell(c.envIdx, a.addr, c.clk, c.isRw, c.op, c.isWrite, diffAddr, inv, diffClk, DiffAddrCond(a),
              still, c.regionProphet, c.regionHeap, c.value, rc)
  }

  /** The range checks emitted for the same access. */
  function Checks(s: seq<Access>, t: nat): seq<Rc>
    requires t < |s| && Annotable(s)
  {
    var r := Annotate(s, t);
    var region := [Rc(r.diffAddrCond, MemRegion)];
    if t == 0 then []
    else if s[t].cell.regionProphet == 1 && s[t - 1].addr != s[t].addr then region
    else if StartsHeap(s, t) then region
    else if s[t].cell.isRw == 0 && s[t - 1].addr == s[t].addr then
      region + if s[t].cell.regionHeap == 1 then region else []
    else [Rc(r.rcValue, MemSort)] + if s[t].cell.regionHeap == 1 then region else []
  }

  lemma AnnotatePrefix(s: seq<Access>, n: nat)
    requires Annotable(s) && n <= |s|
    ensures Annotable(s[..n])
    ensures forall t :: 0 <= t < n ==> Annotate(s[..n], t) == Annotate(s, t)
  {
    forall t | 0 < t < n ensures InOrder(s[..n], t) {
      assert InOrder(s, t);
    }
  }

  function AnnotateAll(s: seq<Access>): (r: seq<TraceCell>)
    requires Annotable(s)
    ensures |r| == |s| && forall t :: 0 <= t < |s| ==> r[t] == Annotate(s, t)
  {
    if s == [] then [] else
      var n := |s| - 1;
      AnnotatePrefix(s, n);
      AnnotateAll(s[..n]) + [Annotate(s, n)]
  }

  function AllChecks(s: seq<Access>): seq<Rc>
    requires Annotable(s)
  {
    if s == [] then [] else
      AnnotatePrefix(s, |s| - 1);
      AllChecks(s[..|s| - 1]) + Checks(s, |s| - 1)
  }

  predicate InRange(rcs: seq<Rc>) {
    forall i :: 0 <= i < |rcs| ==> rcs[i].value <= 0xFFFF_FFFF
  }

  // ---- gen_memory_table ----

  datatype Error = MemVistInv(addr: nat) | U32RangeCheckFail

  datatype TableResult = Table(rows: seq<TraceCell>, checks: seq<Rc>) | Failed(error: Error)

  function HeapIndex(entries: seq<Entry>): (r: Option<nat>)
    ensures r.Some? ==> r.value < |entries| && entries[r.value].addr == HP_START
    ensures r.None? ==> forall i :: 0 <= i < |entries| ==> entries[i].addr != HP_START
  {
    if entries == [] then None
    else if entries[|entries| - 1].addr == HP_START then Some(|entries| - 1)
    else HeapIndex(entries[..|entries| - 1])
  }

  /** The log without the initial write of the heap pointer. */
  function DropHeapInit(entries: seq<Entry>, h: nat): (r: seq<Entry>)
    requires h < |entries| && entries[h].cells != []
  {
    entries[h := Entry(entries[h].addr, entries[h].cells[1..])]
  }

  /** Every access gets the row and the range checks that its position in the sorted order demands;
      the call fails exactly when the heap pointer was never initialised or a range check is out of range. */
  method GenMemoryTable(log: seq<Entry>) returns (r: TableResult)
    requires Walkable(log)
    requires forall i :: 0 <= i < |log| ==> log[i].cells != []
    ensures HeapIndex(log).None? ==> r == Failed(MemVistInv(HP_START))
    ensures HeapIndex(log).Some? ==>
              var s := Flatten(DropHeapInit(log, HeapIndex(log).value));
              && Annotable(s)
              && r == if InRange(AllChecks(s)) then Table(AnnotateAll(s), AllChecks(s)) else Failed(U32RangeCheckFail)
  {
    var h := HeapIndex(log);
    if h.None? {
      return Failed(MemVistInv(HP_START));
    }
    var entries := DropHeapInit(log, h.value);
    DropKeepsWalkable(log, h.value);
    r := SortAndAnnotate(entries);
  }

  lemma DropKeepsWalkable(entries: seq<Entry>, h: nat)
    requires Walkable(entries) && h < |entries| && entries[h].cells != []
    ensures Walkable(DropHeapInit(entries, h))
  {
    assert Zoned(entries[h]);
    var rest := entries[h].cells[1..];
    forall k | 0 < k < |rest| ensures InTime(rest, k) {
      assert InTime(entries[h].cells, k + 1);
    }
  }

  /** Accesses up to cell c of entry e. */
  function Seen(entries: seq<Entry>, e: nat, c: nat): seq<Access>
    requires e < |entries| && c <= |entries[e].cells|
  {
    Flatten(entries[..e]) + AccessesOf(entries[e], Origin(entries, e))[..c]
  }

  lemma SeenNext(entries: seq<Entry>, e: nat)
    requires e < |entries|
    ensures Seen(entries, e, |entries[e].cells|) == Flatten(entries[..e + 1])
    ensures e + 1 < |entries| ==> Seen(entries, e + 1, 0) == Flatten(entries[..e + 1])
  {
    assert entries[..e + 1][..e] == entries[..e];
    var own := AccessesOf(entries[e], Origin(entries, e));
    assert own[..|own|] == own;
  }

  /** Everything in s is below addr, and origin is either the start or such an address. */
  ghost predicate Beneath(s: seq<Access>, origin: nat, addr: nat) {
    && (forall t :: 0 <= t < |s| ==> s[t].addr < addr)
    && (if s == [] then origin <= addr else origin < addr)
  }

  /** The accesses of one more entry, or some of them, go after those of the entries below it. */
  lemma JoinAnnotable(s: seq<Access>, e: Entry, origin: nat, own: seq<Access>)
    requires Annotable(s) && Beneath(s, origin, e.addr) && Zoned(e) && e.addr < P
    requires own <= AccessesOf(e, origin)
    ensures Annotable(s + own)
  {
    assert forall t :: 0 <= t < |own| ==> own[t] == Access(e.addr, origin, e.cells[t]);
    forall t | 0 < t < |s + own| ensures InOrder(s + own, t) {
      if t < |s| {
        assert InOrder(s, t);
      } else if t > |s| {
        assert InTime(e.cells, t - |s|);
      }
    }
  }

  lemma FlattenStep(entries: seq<Entry>, e: nat)
    requires e < |entries|
    ensures Flatten(entries[..e + 1]) == Flatten(entries[..e]) + AccessesOf(entries[e], Origin(entries, e))
  {
    assert entries[..e + 1][..e] == entries[..e];
  }

  lemma BeneathNext(s: seq<Access>, e: Entry, origin: nat, next: nat)
    requires Beneath(s, origin, e.addr) && e.addr < next
    ensures Beneath(s + AccessesOf(e, origin), e.addr, next)
  {
  }

  lemma WalkableAt(entries: seq<Entry>, e: nat)
    requires Walkable(entries) && e < |entries|
    ensures Zoned(entries[e]) && entries[e].addr < P
    ensures Origin(entries, e) <= entries[e].addr
    ensures e + 1 < |entries| ==> Origin(entries, e + 1) == entries[e].addr < entries[e + 1].addr
  {
  }

  /** Facts about everything seen before an entry is reached. */
  lemma {:induction false} FlattenBelow(entries: seq<Entry>, e: nat)
    requires Walkable(entries) && e <= |entries|
    ensures Annotable(Flatten(entries[..e]))
    ensures e < |entries| ==> Beneath(Flatten(entries[..e]), Origin(entries, e), entries[e].addr)
  {
    hide *;
    if e == 0 {
      FlattenNone(entries);
    } else {
      var entry, origin := entries[e - 1], Origin(entries, e - 1);
      WalkableAt(entries, e - 1);
      FlattenBelow(entries, e - 1);
      FlattenStep(entries, e - 1);
      var s, own := Flatten(entries[..e - 1]), AccessesOf(entry, origin);
      JoinAnnotable(s, entry, origin, own);
      if e < |entries| { BeneathNext(s, entry, origin, entries[e].addr); }
    }
  }

  lemma FlattenNone(entries: seq<Entry>)
    ensures Annotable(Flatten(entries[..0]))
    ensures entries != [] ==> Beneath(Flatten(entries[..0]), Origin(entries, 0), entries[0].addr)
  {
    assert entries[..0] == [];
  }

  lemma SeenAnnotable(entries: seq<Entry>, e: nat, c: nat)
    requires Walkable(entries) && e < |entries| && c <= |entries[e].cells|
    ensures Annotable(Seen(entries, e, c)) && |Seen(entries, e, c)| >= c
    ensures var s := Seen(entries, e, c);
            s != [] ==> (s[|s| - 1].addr == entries[e].addr <==> c > 0)
  {
    hide Annotable, Zoned, Flatten;
    FlattenBelow(entries, e);
    var own := AccessesOf(entries[e], Origin(entries, e));
    JoinAnnotable(Flatten(entries[..e]), entries[e], Origin(entries, e), own[..c]);
    assert c > 0 ==> own[c - 1].addr == entries[e].addr;
  }

  lemma SeenStep(entries: seq<Entry>, e: nat, c: nat)
    requires e < |entries| && c < |entries[e].cells|
    ensures Seen(entries, e, c + 1)
            == Seen(entries, e, c) + [Access(entries[e].addr, Origin(entries, e), entries[e].cells[c])]
  {
  }

  lemma {:induction false} ChecksPrefix(s: seq<Access>, n: nat)
    requires Annotable(s) && n <= |s|
    ensures Annotable(s[..n]) && AllChecks(s[..n]) <= AllChecks(s)
  {
    if n < |s| {
      AnnotatePrefix(s, |s| - 1);
      ChecksPrefix(s[..|s| - 1], n);
      assert s[..|s| - 1][..n] == s[..n];
    } else {
      assert s[..n] == s;
    }
  }

  lemma {:induction false} SeenIsPrefix(entries: seq<Entry>, e: nat, c: nat, n: nat)
    requires e < n <= |entries| && c <= |entries[e].cells|
    ensures Seen(entries, e, c) <= Flatten(entries[..n])
  {
    assert entries[..n][..n - 1] == entries[..n - 1];
    if n > e + 1 {
      SeenIsPrefix(entries, e, c, n - 1);
    }
  }

  /** A check that fails on the way is a check that fails at the end. */
  lemma FailsAtEnd(entries: seq<Entry>, e: nat, c: nat)
    requires Walkable(entries) && e < |entries| && c <= |entries[e].cells|
    ensures Annotable(Seen(entries, e, c)) && Annotable(Flatten(entries))
    ensures !InRange(AllChecks(Seen(entries, e, c))) ==> !InRange(AllChecks(Flatten(entries)))
  {
    hide AllChecks, Flatten, Annotable, Seen, Walkable;
    SeenAnnotable(entries, e, c);
    FlattenBelow(entries, |entries|);
    assert entries[..|entries|] == entries;
    SeenIsPrefix(entries, e, c, |entries|);
    var s := Seen(entries, e, c);
    ChecksPrefix(Flatten(entries), |s|);
    assert Flatten(entries)[..|s|] == s;
  }

  /** What the walk carries from cell to cell. */
  datatype Walk = Walk(rows: seq<TraceCell>, checks: seq<Rc>, firstRow: bool, firstHeap: bool,
                       originAddr: nat, originClk: nat)

  ghost predicate WalkOk(w: Walk, s: seq<Access>) {
    && Annotable(s)
    && w.rows == AnnotateAll(s) && w.checks == AllChecks(s)
    && (w.firstRow <==> s == [])
    && (s != [] ==> var last := s[|s| - 1];
                    && w.originClk == last.cell.clk
                    && (last.addr < HP_START ==> w.firstHeap)
                    && (HP_START <= last.addr < PSP_START ==> !w.firstHeap))
    && (s == [] ==> w.firstHeap)
  }

  predicate InZone(a: Access) {
    && a.cell.isRw == ZoneIsRw(a.addr)
    && a.cell.regionHeap == ZoneHeap(a.addr)
    && a.cell.regionProphet == ZoneProphet(a.addr)
  }

  lemma Extend(s: seq<Access>, a: Access)
    requires Annotable(s + [a])
    ensures Annotable(s)
    ensures AnnotateAll(s + [a]) == AnnotateAll(s) + [Annotate(s + [a], |s|)]
    ensures AllChecks(s + [a]) == AllChecks(s) + Checks(s + [a], |s|)
  {
    assert (s + [a])[..|s|] == s;
    AnnotatePrefix(s + [a], |s|);
  }

  lemma LastInOrder(s: seq<Access>, a: Access)
    requires Annotable(s + [a])
    ensures s != [] ==> InOrder(s + [a], |s|)
  {
  }

  /** One cell: the row pushed for it and the range checks inserted. */
  method VisitCell(w: Walk, newAddr: bool, addr: Felt, cell: Cell, ghost s: seq<Access>)
    returns (r: Walk, inserted: seq<Rc>)
    requires var a := Access(addr, w.originAddr, cell);
             WalkOk(w, s) && Annotable(s + [a]) && InZone(a)
    requires newAddr <==> s == [] || s[|s| - 1].addr != addr
    ensures Annotable(s + [Access(addr, w.originAddr, cell)])
    ensures WalkOk(r, s + [Access(addr, w.originAddr, cell)])
    ensures r.originAddr == w.originAddr && r.checks == w.checks + inserted
  {
    ghost var a := Access(addr, w.originAddr, cell);
    Extend(s, a);
    LastInOrder(s, a);
    hide AllChecks, AnnotateAll, Inverse, Annotable;
    var writeOnce := false;
    var cond: Felt := 0;
    if cell.regionProphet == 1 {
      cond := Canon(P - addr);
      writeOnce := true;
    } else if cell.regionHeap == 1 {
      cond := Canon(P - SPAN - addr);
    }
    var firstHeap := w.firstHeap;
    var diffAddr: Felt, inv: Felt, diffClk: nat, still: Felt, rc: int := 0, 0, 0, 0, 0;
    inserted := [];
    if w.firstRow {
      firstHeap := cell.regionHeap != 1;
    } else if newAddr {
      diffAddr := addr - w.originAddr;
      if writeOnce {
        rc := cond;
        inserted := inserted + [Rc(cond, MemRegion)];
      } else if cell.regionHeap == 1 && firstHeap {
        diffAddr := 0;
        inserted := inserted + [Rc(cond, MemRegion)];
        firstHeap := false;
      } else {
        inv := Inverse(diffAddr);
        rc := diffAddr;
        inserted := inserted + [Rc(rc, MemSort)];
        if cell.regionHeap == 1 { inserted := inserted + [Rc(cond, MemRegion)]; }
      }
    } else {
      diffClk := cell.clk - w.originClk;
      if cell.isRw == 0 {
        rc := cond;
        inserted := inserted + [Rc(rc, MemRegion)];
      } else {
        still := 1;
        rc := diffClk;
        inserted := inserted + [Rc(rc, MemSort)];
      }
      if cell.regionHeap == 1 { inserted := inserted + [Rc(cond, MemRegion)]; }
    }
    var row := TraceCell(cell.envIdx, addr, cell.clk, cell.isRw, cell.op, cell.isWrite, diffAddr, inv, diffClk,
                         cond, still, cell.regionProphet, cell.regionHeap, cell.value, rc);
    r := Walk(w.rows + [row], w.checks + inserted, false, firstHeap, w.originAddr, cell.clk);
    assert row == Annotate(s + [a], |s|);
    assert inserted == Checks(s + [a], |s|);
  }

  /** All cells of one entry. */
  method VisitEntry(w: Walk, entries: seq<Entry>, e: nat) returns (r: Walk, ok: bool)
    requires Walkable(entries) && e < |entries| && w.originAddr == Origin(entries, e)
    requires WalkOk(w, Seen(entries, e, 0)) && InRange(w.checks)
    ensures ok ==> WalkOk(r, Flatten(entries[..e + 1])) && InRange(r.checks) && r.originAddr == w.originAddr
    ensures !ok ==> Annotable(Flatten(entries)) && !InRange(AllChecks(Flatten(entries)))
  {
    hide Seen, Flatten, WalkOk, AllChecks, AnnotateAll, Annotable, Annotate, Checks;
    var entry := entries[e];
    assert Zoned(entry);
    var newAddr := true;
    r := w;
    for c := 0 to |entry.cells|
      invariant WalkOk(r, Seen(entries, e, c)) && InRange(r.checks)
      invariant r.originAddr == w.originAddr
      invariant newAddr <==> c == 0
    {
      SeenStep(entries, e, c);
      SeenAnnotable(entries, e, c);
      SeenAnnotable(entries, e, c + 1);
      ghost var s := Seen(entries, e, c);
      var inserted;
      r, inserted := VisitCell(r, newAddr, entry.addr, entry.cells[c], s);
      newAddr := false;
      if exists i :: 0 <= i < |inserted| && inserted[i].value > 0xFFFF_FFFF {
        FailsAtEnd(entries, e, c + 1);
        OutOfRange(r, Seen(entries, e, c + 1), inserted);
        return r, false;
      }
    }
    SeenNext(entries, e);
    return r, true;
  }

  lemma OutOfRange(w: Walk, s: seq<Access>, inserted: seq<Rc>)
    requires WalkOk(w, s) && |inserted| <= |w.checks|
    requires w.checks[|w.checks| - |inserted|..] == inserted
    requires !InRange(inserted)
    ensures !InRange(AllChecks(s))
  {
    var i :| 0 <= i < |inserted| && inserted[i].value > 0xFFFF_FFFF;
    assert w.checks[|w.checks| - |inserted| + i] == inserted[i];
  }

  lemma Nothing(w: Walk)
    requires w == Walk([], [], true, true, 0, 0)
    ensures WalkOk(w, [])
  {
  }

  method SortAndAnnotate(entries: seq<Entry>) returns (r: TableResult)
    requires Walkable(entries)
    ensures var s := Flatten(entries);
            && Annotable(s)
            && r == if InRange(AllChecks(s)) then Table(AnnotateAll(s), AllChecks(s)) else Failed(U32RangeCheckFail)
  {
    hide AllChecks, AnnotateAll, Annotable;
    var w := Walk([], [], true, true, 0, 0);
    Nothing(w);
    for e := 0 to |entries|
      invariant WalkOk(w, Flatten(entries[..e])) && InRange(w.checks)
      invariant w.originAddr == if e == 0 then 0 else entries[e - 1].addr
    {
      assert Seen(entries, e, 0) == Flatten(entries[..e]);
      var ok;
      w, ok := VisitEntry(w, entries, e);
      if !ok { return Failed(U32RangeCheckFail); }
      w := w.(originAddr := entries[e].addr);
    }
    assert entries[..|entries|] == entries;
    r := Table(w.rows, w.checks);
  }
}
