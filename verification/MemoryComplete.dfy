/** Every executor log yields a memory table that satisfies all of `MemoryStark`, unless it has no
    access at all, and the range checks emitted are those the table looks up. */
module MemoryComplete {
  import opened Goldilocks
  import opened Air
  import opened MemoryAir
  import opened MemoryLog
  import opened MemoryTable
  import opened MemoryTrace

  // ---- the sorted accesses of an executor log ----

  /** A first access to an address. */
  predicate Starts(a: Access) {
    a.cell.isWrite == 1 || (a.addr == HP_START && a.cell.value == HP_START + 1)
  }

  predicate Succeeds(p: Access, a: Access) {
    if p.addr == a.addr then CellFollows(p.cell, a.cell)
    else Starts(a) && p.addr < a.addr && (a.origin == p.addr || p.addr < HP_START <= a.addr)
  }

  predicate SucceedsAt(s: seq<Access>, t: nat)
    requires 0 < t < |s|
  {
    Succeeds(s[t - 1], s[t])
  }

  ghost predicate AccessesOk(env: Felt, s: seq<Access>) {
    && Annotable(s)
    && (forall t :: 0 <= t < |s| ==> CellOk(env, s[t].addr, s[t].cell))
    && (s != [] ==> Starts(s[0]))
    && (forall t :: 0 < t < |s| ==> SucceedsAt(s, t))
  }

  /** Entries after the initial write of the heap pointer was dropped. */
  ghost predicate Accessed(env: Felt, entries: seq<Entry>) {
    && Walkable(entries)
    && (forall i :: 0 <= i < |entries| ==>
          CellsOk(env, entries[i].addr, entries[i].cells)
          && (entries[i].cells == [] ==> entries[i].addr == HP_START))
  }

  /** The last access seen is at the entry before, which is empty at most for the heap pointer. */
  predicate Adjoins(s: seq<Access>, origin: nat) {
    s != [] ==> s[|s| - 1].addr == origin || (s[|s| - 1].addr < HP_START == origin)
  }

  lemma JoinOk(env: Felt, s: seq<Access>, e: Entry, origin: nat)
    requires AccessesOk(env, s) && Adjoins(s, origin) && CellsOk(env, e.addr, e.cells)
    requires Beneath(s, origin, e.addr) && Annotable(s + AccessesOf(e, origin))
    ensures AccessesOk(env, s + AccessesOf(e, origin))
    ensures e.cells != [] || e.addr == HP_START ==> Adjoins(s + AccessesOf(e, origin), e.addr)
  {
    hide Annotable;
    var own := AccessesOf(e, origin);
    var all := s + own;
    forall t | 0 <= t < |all| ensures CellOk(env, all[t].addr, all[t].cell) {
      if t >= |s| { assert own[t - |s|].cell == e.cells[t - |s|]; }
    }
    assert own != [] ==> Starts(own[0]);
    forall t | 0 < t < |all| ensures SucceedsAt(all, t) {
      if t < |s| {
        assert SucceedsAt(s, t);
      } else if t == |s| {
        assert all[t] == own[0];
      } else {
        assert FollowsAt(e.cells, t - |s|);
      }
    }
  }

  lemma FlattenNone(env: Felt, entries: seq<Entry>)
    requires Accessed(env, entries)
    ensures AccessesOk(env, Flatten(entries[..0]))
    ensures entries != [] ==> Adjoins(Flatten(entries[..0]), Origin(entries, 0))
  {
  }

  lemma {:induction false} FlattenOk(env: Felt, entries: seq<Entry>, e: nat)
    requires Accessed(env, entries) && e <= |entries|
    ensures AccessesOk(env, Flatten(entries[..e]))
    ensures e < |entries| ==> Adjoins(Flatten(entries[..e]), Origin(entries, e))
  {
    hide AccessesOk, Adjoins, Annotable, Flatten, AccessesOf, Beneath;
    if e == 0 {
      FlattenNone(env, entries);
    } else {
      FlattenOk(env, entries, e - 1);
      FlattenStep(entries, e - 1);
      FlattenBelow(entries, e - 1);
      FlattenBelow(entries, e);
      JoinOk(env, Flatten(entries[..e - 1]), entries[e - 1], Origin(entries, e - 1));
    }
  }

  /** The entries of a log in ascending address order. */
  ghost predicate Walks(log: Log, entries: seq<Entry>) {
    && (forall i, j :: 0 <= i < j < |entries| ==> entries[i].addr < entries[j].addr)
    && (forall i :: 0 <= i < |entries| ==> entries[i].addr in log && entries[i].cells == log[entries[i].addr])
    && (forall a :: a in log ==> Listed(entries, a))
  }

  ghost predicate Listed(entries: seq<Entry>, a: nat) {
    exists i :: 0 <= i < |entries| && entries[i].addr == a
  }

  lemma {:induction false} GreatestKey(keys: set<nat>) returns (m: nat)
    requires keys != {}
    ensures m in keys && forall k :: k in keys ==> k <= m
  {
    m :| m in keys;
    var first := m;
    var rest := keys - {first};
    if rest != {} {
      var r := GreatestKey(rest);
      m := if first < r then r else first;
    }
    forall k | k in keys ensures k <= m {
      assert k == first || k in rest;
    }
  }

  /** Every log has such entries. */
  lemma {:induction false} LogWalks(log: Log) returns (entries: seq<Entry>)
    ensures Walks(log, entries)
    decreases |log.Keys|
  {
    if log == map[] {
      entries := [];
    } else {
      var m := GreatestKey(log.Keys);
      var rest := log - {m};
      assert rest.Keys == log.Keys - {m};
      var below := LogWalks(rest);
      entries := below + [Entry(m, log[m])];
      AddGreatest(log, below, m);
    }
  }

  lemma AddGreatest(log: Log, below: seq<Entry>, m: nat)
    requires m in log && (forall k :: k in log ==> k <= m) && Walks(log - {m}, below)
    ensures Walks(log, below + [Entry(m, log[m])])
  {
    var entries := below + [Entry(m, log[m])];
    forall a | a in log ensures Listed(entries, a) {
      if a == m {
        assert entries[|below|].addr == a;
      } else {
        assert a in log - {m} && Listed(below, a);
        var i :| 0 <= i < |below| && below[i].addr == a;
        assert entries[i].addr == a;
      }
    }
    forall i | 0 <= i < |entries|
      ensures entries[i].addr in log && entries[i].cells == log[entries[i].addr]
      ensures i < |below| ==> entries[i].addr < m
    {
      if i < |below| { assert entries[i] == below[i] && below[i].addr in log - {m}; }
    }
  }

  lemma LogEntry(env: Felt, a: nat, cells: seq<Cell>)
    requires CellsOk(env, a, cells)
    ensures Zoned(Entry(a, cells))
  {
    forall k | 0 < k < |cells| ensures InTime(cells, k) {
      assert FollowsAt(cells, k);
    }
  }

  lemma HeapInitEntry(env: Felt, cells: seq<Cell>)
    requires cells != [] && cells[0] == HeapInit(env) && CellsOk(env, HP_START, cells[1..])
    ensures Zoned(Entry(HP_START, cells))
  {
    LogEntry(env, HP_START, cells[1..]);
    forall k | 0 < k < |cells| ensures InTime(cells, k) && CellOk(env, HP_START, cells[k]) {
      assert CellOk(env, HP_START, cells[1..][k - 1]);
      if k > 1 { assert InTime(cells[1..], k - 1); }
    }
  }

  /** The entries of an executor log are what the generator may be called with, and without the
      initial heap pointer write they are well-formed accesses. */
  lemma LogAccessed(env: Felt, log: Log, entries: seq<Entry>)
    requires LogOk(env, log) && Walks(log, entries)
    ensures Walkable(entries) && (forall i :: 0 <= i < |entries| ==> entries[i].cells != [])
    ensures HeapIndex(entries).Some?
    ensures Accessed(env, DropHeapInit(entries, HeapIndex(entries).value))
  {
    hide Zoned, CellsOk, CellOk;
    EntriesZoned(env, log, entries);
    assert Listed(entries, HP_START);
    var h := HeapIndex(entries).value;
    DropKeepsWalkable(entries, h);
    DroppedOk(env, log, entries, h);
  }

  lemma EntriesZoned(env: Felt, log: Log, entries: seq<Entry>)
    requires LogOk(env, log) && Walks(log, entries)
    ensures Walkable(entries) && forall i :: 0 <= i < |entries| ==> entries[i].cells != []
  {
    hide Zoned, CellsOk, CellOk, LogOk;
    forall i | 0 <= i < |entries| ensures Zoned(entries[i]) && entries[i].addr < P && entries[i].cells != [] {
      EntryZoned(env, log, entries[i].addr);
    }
  }

  lemma DroppedOk(env: Felt, log: Log, entries: seq<Entry>, h: nat)
    requires LogOk(env, log) && Walks(log, entries) && h < |entries| && entries[h].addr == HP_START
    requires Walkable(entries) && Walkable(DropHeapInit(entries, h)) && entries[h].cells != []
    ensures Accessed(env, DropHeapInit(entries, h))
  {
    hide Zoned, CellsOk, CellOk;
    var dropped := DropHeapInit(entries, h);
    forall i | 0 <= i < |dropped|
      ensures CellsOk(env, dropped[i].addr, dropped[i].cells)
      ensures dropped[i].cells == [] ==> dropped[i].addr == HP_START
    {
      assert i != h ==> entries[i].addr != HP_START;
    }
  }

  lemma EntryZoned(env: Felt, log: Log, a: nat)
    requires LogOk(env, log) && a in log
    ensures Zoned(Entry(a, log[a])) && a < P && log[a] != []
  {
    if a == HP_START {
      HeapInitEntry(env, log[a]);
    } else {
      LogEntry(env, a, log[a]);
      assert CellOk(env, a, log[a][0]);
    }
  }

  // ---- constraints on one row ----

  lemma OkAt(env: Felt, s: seq<Access>, t: nat)
    requires AccessesOk(env, s)
    ensures Annotable(s) && (s != [] ==> Starts(s[0]))
    ensures t < |s| ==> CellOk(env, s[t].addr, s[t].cell)
    ensures 0 < t < |s| ==> SucceedsAt(s, t)
  {
  }

  /** The columns copied from the access. */
  lemma PlainColumns(env: Felt, s: seq<Access>, i: nat)
    requires AccessesOk(env, s) && i < |s|
    ensures Annotable(s) && CellOk(env, s[i].addr, s[i].cell)
    ensures var c := AnnotateAll(s)[i];
            && c.envIdx == env && c.addr == s[i].addr
            && c.isRw == s[i].cell.isRw && c.op == s[i].cell.op && c.isWrite == s[i].cell.isWrite
            && c.regionProphet == s[i].cell.regionProphet && c.regionHeap == s[i].cell.regionHeap
            && c.value == s[i].cell.value && c.diffAddrCond == DiffAddrCond(s[i])
  {
    hide AccessesOk, Annotable, AnnotateAll, Inverse;
    OkAt(env, s, i);
  }

  /** The columns that compare an access with the one above it. */
  lemma DiffColumns(env: Felt, s: seq<Access>, i: nat)
    requires AccessesOk(env, s) && i < |s|
    ensures Annotable(s)
    ensures var c := AnnotateAll(s)[i];
            if i == 0 || StartsHeap(s, i) then c.diffAddr == c.rwAddrUnchanged == c.rcValue == 0
            else if s[i - 1].addr == s[i].addr then
              c.diffAddr == c.diffAddrInv == 0 && c.rwAddrUnchanged == 1 && c.rcValue == c.diffClk
            else
              && c.diffAddr == c.rcValue == s[i].addr - s[i - 1].addr
              && Vanishes(c.diffAddr * c.diffAddrInv - 1) && c.rwAddrUnchanged == 0
  {
    hide AccessesOk, Annotable, AnnotateAll, Inverse;
    OkAt(env, s, i);
  }

  lemma FilledSelectors(env: Felt, s: seq<Access>, i: nat)
    requires AccessesOk(env, s) && i < |s|
    ensures var r := FilledRow(AnnotateAll(s), i); Selectors(r) && AccessKind(r)
  {
    hide AccessesOk, Zero2, Annotate, AnnotateAll;
    PlainColumns(env, s, i);
  }

  lemma FilledRegions(env: Felt, s: seq<Access>, i: nat)
    requires AccessesOk(env, s) && i < |s|
    ensures Regions(FilledRow(AnnotateAll(s), i))
  {
    hide AccessesOk, Zero2, Zero3, Annotate, AnnotateAll, Vanishes;
    PlainColumns(env, s, i);
    RegionDistance(s[i].addr);
  }

  lemma RegionDistance(addr: int)
    ensures Vanishes(0) && Vanishes(0 - SPAN - addr - (P - SPAN - addr))
  {
  }

  /** The padding rows below a last filled row. */
  predicate Paddable(last: Row) {
    && last.txIdx == 0 && last.isRw == 1 && last.regionProphet == 0 && 0 <= last.addr < PSP_START
    && (last.regionHeap == 0 || last.regionHeap == 1)
  }

  lemma PadRowHolds(last: Row, k: nat)
    requires Paddable(last)
    ensures PadAddr(last, 0) != Canon(last.addr)
    ensures var r := PadRow(last, k); Selectors(r) && AccessKind(r) && Regions(r)
  {
    hide Zero2, Zero3, Inverse;
    var r := PadRow(last, k);
    var addr: int := PadAddr(last, k);
    assert Vanishes(0 - addr - Canon(P - addr));
  }

  // ---- constraints on two rows ----

  /** What the order of two rows comes down to. */
  lemma OrderFrom(lv: Row, nv: Row)
    requires lv.txIdx == nv.txIdx && lv.envIdx == nv.envIdx
    requires (nv.regionHeap == lv.regionHeap + 1 && lv.regionHeap == 0 && nv.RegionStack() == 0)
             || (nv.addr - lv.addr == nv.diffAddr && Vanishes(nv.diffAddr * nv.diffAddrInv - 1 + nv.rwAddrUnchanged))
    ensures Order(lv, nv)
  {
    hide Zero2, Zero3, Zero4, Zero5;
    Negated(nv.diffAddr * nv.diffAddrInv - 1 + nv.rwAddrUnchanged);
  }

  lemma Negated(x: int)
    ensures Vanishes(0) && (Vanishes(x) ==> Vanishes(-x))
  {
  }

  lemma FilledOrder(env: Felt, s: seq<Access>, i: nat)
    requires AccessesOk(env, s) && i + 1 < |s|
    ensures var c := AnnotateAll(s); Order(FilledRow(c, i), FilledRow(c, i + 1))
  {
    hide AccessesOk, Annotable, Annotate, AnnotateAll, Order, Vanishes;
    PlainColumns(env, s, i);
    PlainColumns(env, s, i + 1);
    DiffColumns(env, s, i + 1);
    var c := AnnotateAll(s);
    Negated(0);
    OrderFrom(FilledRow(c, i), FilledRow(c, i + 1));
  }

  lemma FilledRangeChecked(env: Felt, s: seq<Access>, i: nat, nv: Row)
    requires AccessesOk(env, s) && i < |s|
    ensures RangeChecked(FilledRow(AnnotateAll(s), i), nv)
  {
    hide AccessesOk, Annotable, Zero6, Annotate, AnnotateAll;
    PlainColumns(env, s, i);
    DiffColumns(env, s, i);
    if i > 0 { PlainColumns(env, s, i - 1); }
  }

  lemma FilledReads(env: Felt, s: seq<Access>, i: nat)
    requires AccessesOk(env, s) && i + 1 < |s|
    ensures var c := AnnotateAll(s); var lv, nv := FilledRow(c, i), FilledRow(c, i + 1);
            WriteOnce(lv, nv) && ReadFollows(lv, nv) && HeapPointer(lv, nv)
  {
    hide AccessesOk, Annotable, Zero2, Zero3, Zero4, Zero5, Annotate, AnnotateAll, DiffAddrCond;
    OkAt(env, s, i + 1);
    PlainColumns(env, s, i);
    PlainColumns(env, s, i + 1);
  }

  /** Any row may stand above the first one. */
  lemma FirstBelowAny(env: Felt, s: seq<Access>, lv: Row)
    requires AccessesOk(env, s) && s != [] && lv.txIdx == 0
    ensures var nv := FilledRow(AnnotateAll(s), 0);
            WriteOnce(lv, nv) && ReadFollows(lv, nv) && HeapPointer(lv, nv) && FirstRow(nv)
  {
    hide AccessesOk, Annotable, Zero2, Zero3, Zero4, Zero5, Annotate, AnnotateAll, DiffAddrCond;
    OkAt(env, s, 0);
    PlainColumns(env, s, 0);
  }

  /** The first padding row below the last filled row. */
  lemma PadBelowFilled(last: Row)
    requires Paddable(last)
    ensures PadAddr(last, 0) != Canon(last.addr)
    ensures var nv := PadRow(last, 0);
            Order(last, nv) && WriteOnce(last, nv) && ReadFollows(last, nv) && HeapPointer(last, nv)
  {
    hide Order, WriteOnce, ReadFollows, HeapPointer, Inverse;
    PadRowHolds(last, 0);
    var nv := PadRow(last, 0);
    var addr: int, above: int := PadAddr(last, 0), last.addr;
    assert nv.regionHeap == 0 && nv.RegionStack() == 0 && nv.addr == addr && nv.diffAddr == (addr - above) % P;
    ProphetBelow(last, nv);
  }

  lemma ProphetBelow(lv: Row, nv: Row)
    requires lv.txIdx == nv.txIdx && lv.envIdx == nv.envIdx && lv.regionProphet == 0
    requires nv.regionHeap == 0 && nv.RegionStack() == 0 && nv.isWrite == 1 && nv.diffAddr == (nv.addr - lv.addr) % P
    ensures Order(lv, nv) && WriteOnce(lv, nv) && ReadFollows(lv, nv) && HeapPointer(lv, nv)
  {
    hide Zero2, Zero3, Zero4, Zero5;
    Negated(0);
    ReduceCong(nv.addr - lv.addr, P);
  }

  lemma PadBelowPad(last: Row, k: nat)
    requires Paddable(last)
    ensures PadAddr(last, 0) != Canon(last.addr)
    ensures var lv, nv := PadRow(last, k), PadRow(last, k + 1);
            && Order(lv, nv) && RangeChecked(lv, nv)
            && WriteOnce(lv, nv) && ReadFollows(lv, nv) && HeapPointer(lv, nv)
  {
    hide Zero2, Zero3, Zero4, Zero5, Zero6, Inverse;
    var a: int, b: int := PadAddr(last, k), PadAddr(last, k + 1);
    assert Vanishes(b - a - 1);
  }

  // ---- the whole table ----

  lemma LastPaddable(env: Felt, s: seq<Access>)
    requires AccessesOk(env, s) && s != []
    ensures Paddable(FilledRow(AnnotateAll(s), |s| - 1))
  {
    hide AccessesOk, Annotable, Annotate, AnnotateAll;
    PlainColumns(env, s, |s| - 1);
  }

  lemma AllPlaceable(env: Felt, s: seq<Access>)
    requires AccessesOk(env, s)
    ensures Placeable(AnnotateAll(s))
  {
    hide AccessesOk, Annotable, Annotate, AnnotateAll;
    OkAt(env, s, 0);
    forall i | 0 <= i < |s| ensures AnnotateAll(s)[i].isRw == ZoneIsRw(AnnotateAll(s)[i].addr) {
      PlainColumns(env, s, i);
    }
  }

  lemma TableRow(cells: seq<TraceCell>, i: nat)
    requires Placeable(cells) && cells != [] && i < PaddedLength(|cells|)
    ensures PadAddr(FilledRow(cells, |cells| - 1), 0) != Canon(FilledRow(cells, |cells| - 1).addr)
    ensures PaddedTable(cells)[i] == if i < |cells| then FilledRow(cells, i)
                                     else PadRow(FilledRow(cells, |cells| - 1), i - |cells|)
  {
    hide FilledRow, PadRow, Inverse, PadAddr;
    PadStarts(cells);
  }

  lemma ZeroTx(cells: seq<TraceCell>, i: nat)
    requires Placeable(cells) && cells != [] && i < PaddedLength(|cells|)
    ensures PaddedTable(cells)[i].txIdx == 0
  {
    hide Inverse, PadAddr, PaddedTable;
    TableRow(cells, i);
  }

  /** What a row has to satisfy by itself. */
  lemma RowAlone(env: Felt, s: seq<Access>, i: nat)
    requires AccessesOk(env, s) && s != [] && i < PaddedLength(|s|)
    ensures Placeable(AnnotateAll(s))
    ensures var r := PaddedTable(AnnotateAll(s))[i]; Selectors(r) && AccessKind(r) && Regions(r) && r.txIdx == 0
  {
    hide AccessesOk, Annotable, Annotate, AnnotateAll, FilledRow, PadRow, PadAddr, PaddedTable, PaddedLength;
    OkAt(env, s, 0);
    hide Selectors, AccessKind, Regions, Paddable, Placeable, Canon;
    AllPlaceable(env, s);
    LastPaddable(env, s);
    var n, c := |s|, AnnotateAll(s);
    TableRow(c, i);
    ZeroTx(c, i);
    if i < n {
      FilledSelectors(env, s, i);
      FilledRegions(env, s, i);
    } else {
      PadRowHolds(FilledRow(c, n - 1), i - n);
    }
  }

  lemma RowOf(env: Felt, s: seq<Access>, i: nat)
    requires AccessesOk(env, s) && s != [] && i < PaddedLength(|s|)
    ensures Placeable(AnnotateAll(s))
    ensures RowHolds(PaddedTable(AnnotateAll(s)), i)
  {
    hide AccessesOk, Annotable, Annotate, AnnotateAll, FilledRow, PadRow, PadAddr, PaddedTable, PaddedLength;
    OkAt(env, s, 0);
    hide Selectors, AccessKind, Regions, Order, RangeChecked, WriteOnce, ReadFollows, HeapPointer, FirstRow;
    hide Paddable, Placeable, Canon;
    RowAlone(env, s, i);
    LastPaddable(env, s);
    var n, c := |s|, AnnotateAll(s);
    var t, last := PaddedTable(c), FilledRow(c, |s| - 1);
    assert |t| == PaddedLength(n) >= 2 && |t| >= n;
    TableRow(c, i);
    TableRow(c, 0);
    FirstBelowAny(env, s, t[i]);
    if i + 1 < |t| {
      TableRow(c, i + 1);
      if i < n { FilledRangeChecked(env, s, i, t[i + 1]); }
      if i + 1 < n {
        FilledOrder(env, s, i);
        FilledReads(env, s, i);
      } else if i + 1 == n {
        PadBelowFilled(last);
      } else {
        PadBelowPad(last, i - n);
      }
    }
  }

  /** The padded table satisfies `MemoryStark` on every row if and only if there was an access. A
      table without accesses starts with a row that has no selector set. */
  lemma MemoryTableHolds(env: Felt, s: seq<Access>)
    requires AccessesOk(env, s)
    ensures Placeable(AnnotateAll(s))
    ensures TableHolds(PaddedTable(AnnotateAll(s))) <==> s != []
  {
    AllPlaceable(env, s);
    var t := PaddedTable(AnnotateAll(s));
    if s == [] {
      assert t[0] == EMPTY_ROW && !Selectors(t[0]);
      assert !RowHolds(t, 0);
    } else {
      forall i | 0 <= i < |t| ensures RowHolds(t, i) {
        RowOf(env, s, i);
      }
    }
  }

  /** What both generators work on. */
  ghost function SortedAccesses(log: seq<Entry>): seq<Access>
    requires HeapIndex(log).Some? && log[HeapIndex(log).value].cells != []
  {
    Flatten(DropHeapInit(log, HeapIndex(log).value))
  }

  lemma ExecutorAccesses(env: Felt, log: Log, entries: seq<Entry>)
    requires LogOk(env, log) && Walks(log, entries)
    ensures Walkable(entries) && (forall i :: 0 <= i < |entries| ==> entries[i].cells != [])
    ensures HeapIndex(entries).Some?
    ensures AccessesOk(env, SortedAccesses(entries)) && |SortedAccesses(entries)| == Accesses(entries) - 1
  {
    hide AccessesOk, LogOk, Walks, Flatten, Accesses, Accessed, Walkable;
    LogAccessed(env, log, entries);
    var h := HeapIndex(entries).value;
    var dropped := DropHeapInit(entries, h);
    FlattenOk(env, dropped, |dropped|);
    AccessCount(dropped, |dropped|);
    CountDropped(entries, h, |entries|);
    assert dropped[..|dropped|] == dropped && entries[..|entries|] == entries;
  }

  /** From any executor log to a table that satisfies `MemoryStark`: the two generators in a row. */
  method ProveMemory(env: Felt, log: seq<Entry>, ghost tree: Log) returns (r: TableResult, trace: seq<Row>)
    requires LogOk(env, tree) && Walks(tree, log)
    ensures HeapIndex(log).Some? && Annotable(SortedAccesses(log))
    ensures var s := SortedAccesses(log);
            r == if InRange(AllChecks(s)) then Table(AnnotateAll(s), AllChecks(s)) else Failed(U32RangeCheckFail)
    ensures r.Table? ==> (TableHolds(trace) <==> r.rows != [])
    ensures r.Table? ==> |r.rows| == Accesses(log) - 1
  {
    hide *;
    ExecutorAccesses(env, tree, log);
    ghost var s := SortedAccesses(log);
    SortedAre(log);
    OkAt(env, s, 0);
    r := GenMemoryTable(log);
    trace := [];
    if r.Table? {
      MemoryTableHolds(env, s);
      var a := GenerateMemoryTrace(r.rows);
      trace := a[..];
    }
  }

  lemma SortedAre(log: seq<Entry>)
    requires HeapIndex(log).Some? && log[HeapIndex(log).value].cells != []
    ensures SortedAccesses(log) == Flatten(DropHeapInit(log, HeapIndex(log).value))
  {
  }

  ghost function Accesses(entries: seq<Entry>): nat {
    if entries == [] then 0 else Accesses(entries[..|entries| - 1]) + |entries[|entries| - 1].cells|
  }

  lemma {:induction false} AccessCount(entries: seq<Entry>, n: nat)
    requires n <= |entries|
    ensures |Flatten(entries[..n])| == Accesses(entries[..n])
  {
    if n > 0 {
      AccessCount(entries, n - 1);
      assert entries[..n][..n - 1] == entries[..n - 1];
    }
  }

  lemma {:induction false} CountDropped(entries: seq<Entry>, h: nat, n: nat)
    requires h < |entries| && entries[h].cells != [] && n <= |entries|
    ensures Accesses(DropHeapInit(entries, h)[..n]) == Accesses(entries[..n]) - (if h < n then 1 else 0)
  {
    if n > 0 {
      CountDropped(entries, h, n - 1);
      assert entries[..n][..n - 1] == entries[..n - 1];
      assert DropHeapInit(entries, h)[..n][..n - 1] == DropHeapInit(entries, h)[..n - 1];
    }
  }

  // ---- range checks emitted and looked up ----

  ghost function Emitted(checks: seq<Rc>, kind: RcKind): multiset<int> {
    if checks == [] then multiset{} else
      var c := checks[|checks| - 1];
      Emitted(checks[..|checks| - 1], kind) + if c.kind == kind then multiset{c.value} else multiset{}
  }

  /** What a row sends to the range-check table: its range-checked value or its region distance. */
  ghost function Sent(r: Row, kind: RcKind): multiset<int> {
    match kind
    case MemSort => if r.filterLookingRc == 1 then multiset{r.rcValue} else multiset{}
    case MemRegion => if r.filterLookingRcCond == 1 then multiset{r.diffAddrCond} else multiset{}
  }

  ghost function Looking(rows: seq<Row>, kind: RcKind): multiset<int> {
    if rows == [] then multiset{} else
      Looking(rows[..|rows| - 1], kind) + Sent(rows[|rows| - 1], kind)
  }

  lemma {:induction false} EmittedConcat(a: seq<Rc>, b: seq<Rc>, kind: RcKind)
    ensures Emitted(a + b, kind) == Emitted(a, kind) + Emitted(b, kind)
  {
    if b == [] {
      assert a + b == a;
    } else {
      EmittedConcat(a, b[..|b| - 1], kind);
      assert (a + b)[..|a + b| - 1] == a + b[..|b| - 1];
    }
  }

  lemma EmittedShort(a: Rc, b: Rc, kind: RcKind)
    ensures Emitted([a], kind) == if a.kind == kind then multiset{a.value} else multiset{}
    ensures Emitted([a] + [b], kind) == Emitted([a], kind) + Emitted([b], kind)
  {
    EmittedConcat([a], [b], kind);
    assert [a][..0] == [];
  }

  /** The checks of one access: its sort check unless it starts the heap, then its region check. */
  lemma ChecksAre(env: Felt, s: seq<Access>, i: nat)
    requires AccessesOk(env, s) && 0 < i < |s|
    ensures Annotable(s)
    ensures var c := AnnotateAll(s)[i];
            var sort, region := [Rc(c.rcValue, MemSort)], [Rc(c.diffAddrCond, MemRegion)];
            Checks(s, i) == if StartsHeap(s, i) then region
                            else sort + if s[i].cell.regionHeap == 1 then region else []
  {
    hide AccessesOk, Annotable, AnnotateAll, Annotate, Inverse, DiffAddrCond;
    OkAt(env, s, 0);
    PlainColumns(env, s, i);
  }

  /** One access emits what its row looks up, except that the first row emits nothing. */
  lemma EmitsSent(env: Felt, s: seq<Access>, i: nat, kind: RcKind)
    requires AccessesOk(env, s) && i < |s|
    ensures var row := FilledRow(AnnotateAll(s), i);
            if i > 0 then Emitted(Checks(s, i), kind) == Sent(row, kind)
            else Checks(s, i) == []
  {
    hide AccessesOk, Annotable, AnnotateAll, Annotate, Inverse, Emitted, DiffAddrCond;
    OkAt(env, s, 0);
    if i > 0 {
      ChecksAre(env, s, i);
      PlainColumns(env, s, i);
      PlainColumns(env, s, i - 1);
      var c := AnnotateAll(s)[i];
      var sort, region := Rc(c.rcValue, MemSort), Rc(c.diffAddrCond, MemRegion);
      EmittedShort(sort, region, kind);
      EmittedShort(region, region, kind);
      assert [sort] + [] == [sort];
    }
  }

  /** The part of the first row that nothing was emitted for. */
  ghost function Missing(s: seq<Access>, kind: RcKind): multiset<int>
    requires Annotable(s)
  {
    if s != [] && kind == MemRegion && s[0].cell.regionHeap == 1 then multiset{DiffAddrCond(s[0]) as int}
    else multiset{}
  }

  lemma LookingStep(rows: seq<Row>, n: nat, kind: RcKind)
    requires 0 < n <= |rows|
    ensures Looking(rows[..n], kind) == Looking(rows[..n - 1], kind) + Sent(rows[n - 1], kind)
  {
    assert rows[..n][..n - 1] == rows[..n - 1];
  }

  lemma ChecksStep(s: seq<Access>, n: nat, kind: RcKind)
    requires Annotable(s) && 0 < n <= |s|
    ensures Annotable(s[..n]) && Annotable(s[..n - 1])
    ensures Emitted(AllChecks(s[..n]), kind) == Emitted(AllChecks(s[..n - 1]), kind) + Emitted(Checks(s, n - 1), kind)
  {
    hide Emitted;
    assert s[..n][..n - 1] == s[..n - 1];
    AnnotatePrefix(s, n);
    AnnotatePrefix(s, n - 1);
    EmittedConcat(AllChecks(s[..n - 1]), Checks(s, n - 1), kind);
  }

  lemma FirstSent(env: Felt, s: seq<Access>, kind: RcKind)
    requires AccessesOk(env, s) && s != []
    ensures Annotable(s)
    ensures Sent(FilledRow(AnnotateAll(s), 0), kind) == Missing(s, kind)
  {
    hide AccessesOk, Annotable, AnnotateAll, Annotate, DiffAddrCond;
    OkAt(env, s, 0);
    PlainColumns(env, s, 0);
  }

  lemma {:induction false} LookingFilled(env: Felt, s: seq<Access>, n: nat, kind: RcKind)
    requires AccessesOk(env, s) && 0 < n <= |s|
    ensures Annotable(s) && Annotable(s[..n])
    ensures Looking(FilledRows(AnnotateAll(s))[..n], kind) == Emitted(AllChecks(s[..n]), kind) + Missing(s, kind)
  {
    hide AccessesOk, Annotable, Annotate, AnnotateAll, FilledRow, Sent, Missing, Checks;
    OkAt(env, s, 0);
    var rows := FilledRows(AnnotateAll(s));
    LookingStep(rows, n, kind);
    ChecksStep(s, n, kind);
    EmitsSent(env, s, n - 1, kind);
    if n == 1 {
      FirstSent(env, s, kind);
      assert rows[..0] == [] && s[..0] == [];
    } else {
      LookingFilled(env, s, n - 1, kind);
    }
  }

  lemma {:induction false} LookingPadded(rows: seq<Row>, n: nat, m: nat, kind: RcKind)
    requires n <= m <= |rows|
    requires forall i :: n <= i < m ==> rows[i].filterLookingRc == 0 == rows[i].filterLookingRcCond
    ensures Looking(rows[..m], kind) == Looking(rows[..n], kind)
  {
    if n < m {
      LookingPadded(rows, n, m - 1, kind);
      assert rows[..m][..m - 1] == rows[..m - 1];
    }
  }

  /** The sort checks emitted are always those the table looks up. The region checks are, if and only
      if the lowest accessed address is not in the heap: for a first row in the heap none is emitted. */
  lemma RangeChecksMatch(env: Felt, s: seq<Access>)
    requires AccessesOk(env, s)
    ensures Placeable(AnnotateAll(s))
    ensures var t := PaddedTable(AnnotateAll(s)); var rcs := AllChecks(s);
            && Emitted(rcs, MemSort) == Looking(t, MemSort)
            && (Emitted(rcs, MemRegion) == Looking(t, MemRegion) <==> (s != [] ==> s[0].addr < HP_START))
  {
    hide AccessesOk, AnnotateAll, AllChecks, PaddedTable, Looking, Emitted, Annotable, DiffAddrCond;
    OkAt(env, s, 0);
    AllPlaceable(env, s);
    LookingTable(env, s, MemSort);
    LookingTable(env, s, MemRegion);
    if s != [] { PlainColumns(env, s, 0); }
  }

  lemma LookingTable(env: Felt, s: seq<Access>, kind: RcKind)
    requires AccessesOk(env, s)
    ensures Placeable(AnnotateAll(s))
    ensures Looking(PaddedTable(AnnotateAll(s)), kind) == Emitted(AllChecks(s), kind) + Missing(s, kind)
  {
    hide *;
    OkAt(env, s, 0);
    AllPlaceable(env, s);
    NothingSent(s, kind);
    var cells := AnnotateAll(s);
    var t, rows := PaddedTable(cells), FilledRows(cells);
    PaddingSendsNothing(cells);
    LookingPadded(t, |rows|, |t|, kind);
    assert t[..|t|] == t;
    if s != [] {
      LookingFilled(env, s, |s|, kind);
      assert s[..|s|] == s && rows[..|s|] == rows;
    }
  }

  lemma NothingSent(s: seq<Access>, kind: RcKind)
    requires Annotable(s)
    ensures s == [] ==>
              Looking(FilledRows(AnnotateAll(s)), kind) == Emitted(AllChecks(s), kind) + Missing(s, kind)
  {
    if s == [] {
      var rows := FilledRows(AnnotateAll(s));
      assert rows == [EMPTY_ROW] && rows[..0] == [];
    }
  }

  lemma PaddingSendsNothing(cells: seq<TraceCell>)
    requires Placeable(cells)
    ensures var t, n := PaddedTable(cells), |FilledRows(cells)|;
            && n <= |t| && t[..n] == FilledRows(cells)
            && forall i :: n <= i < |t| ==> t[i].filterLookingRc == 0 == t[i].filterLookingRcCond
  {
  }

  /** One write to the heap, and no access below it: the region check the table looks up was never emitted. */
  lemma HeapOnlyFails(env: Felt, addr: nat, clk: nat, v: Felt)
    requires HP_START < addr < PSP_START
    ensures var s := [Access(addr, HP_START, NewCell(env, addr, clk, MSTORE, 1, v))];
            && AccessesOk(env, s) && Placeable(AnnotateAll(s))
            && Emitted(AllChecks(s), MemRegion) != Looking(PaddedTable(AnnotateAll(s)), MemRegion)
  {
    hide AnnotateAll, AllChecks, PaddedTable, Looking, Emitted;
    var s := [Access(addr, HP_START, NewCell(env, addr, clk, MSTORE, 1, v))];
    assert AccessesOk(env, s);
    RangeChecksMatch(env, s);
  }
}
