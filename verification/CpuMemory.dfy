/** What a run leaves in memory: its log is one the memory table is proved for, so a run yields a
    CPU table and a memory table that both satisfy their constraints. */
module CpuMemory {
  import opened Goldilocks
  import opened MemoryLog
  import opened Cpu
  import opened CpuStep
  import opened CpuComplete
  import M = MemoryAir
  import MC = MemoryComplete
  import MT = MemoryTable
  import MTr = MemoryTrace

  ghost predicate LogInv(s: State) { LogOk(0, s.log) && Before(s.log, s.clk) }

  lemma ReadKeeps(s: State, addr: nat, op: int)
    requires LogInv(s) && ReadOp(op) && ReadCell(s, addr, op).Ok?
    ensures LogInv(s.(log := ReadCell(s, addr, op).value.1))
  {
    hide LogOk, Before;
    var v := Current(s.log, addr).value;
    ReadableIsLow(0, s.log, addr);
    AppendOk(0, s.log, s.clk, addr, op, 0, v);
  }

  lemma WriteKeeps(s: State, addr: nat, op: int, v: Felt)
    requires LogInv(s) && WriteOp(op) && WriteCell(s, addr, op, v).Ok?
    ensures LogInv(s.(log := WriteCell(s, addr, op, v).value))
  {
    hide LogOk, Before;
    AppendOk(0, s.log, s.clk, addr, op, 1, v);
  }

  /** Every step keeps the log well formed. */
  lemma ExecKeepsLog(s: State, f: Fetched, d: Done)
    requires s.Valid() && LogInv(s) && Exec(s, f) == Ok(d)
    ensures LogInv(d.next)
  {
    hide LogOk, Before, ReadCell, WriteCell, BinResult, BinAux, AddressOf;
    match f.ins {
      case Call(_) =>
        var fp: int := s.regs[FP];
        var ret := Canon(s.pc + f.step);
        WriteKeeps(s, fp - 1, M.CALL, ret);
        var t := s.(log := WriteCell(s, fp - 1, M.CALL, ret).value);
        ReadKeeps(t, fp - 2, M.CALL);
      case Ret =>
        var fp: int := s.regs[FP];
        ReadKeeps(s, fp - 1, M.RET);
        var t := s.(log := ReadCell(s, fp - 1, M.RET).value.1);
        ReadKeeps(t, fp - 2, M.RET);
      case Mload(_, op0, o) =>
        ReadKeeps(s, AddressOf(s, op0, o), M.MLOAD);
      case Mstore(op0, o, dst) =>
        WriteKeeps(s, AddressOf(s, op0, o), M.MSTORE, s.regs[dst]);
      case _ =>
    }
  }

  lemma LaterBefore(log: Log, now: nat, later: nat)
    requires Before(log, now) && now <= later
    ensures Before(log, later)
  {
  }

  lemma {:induction false} RunKeepsLog(words: seq<Felt>, code: Code, e: Env, states: seq<State>, steps: seq<Step>,
                                       i: nat)
    requires ProgramRun(words, code, e, states, steps) && i < |steps|
    ensures |states| == |steps| && LogInv(states[i])
  {
    hide ProgramRun, Exec, LogOk, Before, WellFetched;
    RunNonempty(words, code, e, states, steps);
    if i == 0 {
      InitialLogOk(0);
    } else {
      RunKeepsLog(words, code, e, states, steps, i - 1);
      RunStep(words, code, e, states, steps, i - 1);
      var s := states[i - 1];
      var d := Exec(s, code[s.pc]).value;
      ExecKeepsLog(s, code[s.pc], d);
      LaterBefore(d.next.log, s.clk, s.clk + 1);
    }
  }

  /** End to end: the memory table built from the log a run leaves behind satisfies `MemoryStark` on
      every row if and only if the run accessed memory at all. */
  lemma RunMemoryHolds(words: seq<Felt>, code: Code, e: Env, states: seq<State>, steps: seq<Step>,
                       entries: seq<MT.Entry>)
    requires ProgramRun(words, code, e, states, steps) && |states| > 0
    requires MC.Walks(states[|states| - 1].log, entries)
    ensures MT.HeapIndex(entries).Some? && (forall i :: 0 <= i < |entries| ==> entries[i].cells != [])
    ensures var s := MC.SortedAccesses(entries);
            && MT.Annotable(s) && MTr.Placeable(MT.AnnotateAll(s)) && |s| == MC.Accesses(entries) - 1
            && (M.TableHolds(MTr.PaddedTable(MT.AnnotateAll(s))) <==> s != [])
  {
    hide *;
    RunNonempty(words, code, e, states, steps);
    RunKeepsLog(words, code, e, states, steps, |steps| - 1);
    var last := states[|states| - 1];
    LogInvIs(last);
    MC.ExecutorAccesses(0, last.log, entries);
    MC.OkAt(0, MC.SortedAccesses(entries), 0);
    MC.MemoryTableHolds(0, MC.SortedAccesses(entries));
  }

  lemma LogInvIs(s: State)
    requires LogInv(s)
    ensures LogOk(0, s.log)
  {
  }
}
