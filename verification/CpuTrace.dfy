/** `generate_cpu_trace`: derived columns for every step, then padding to a power of two. */
module CpuTrace {
  import opened CpuAir
  import opened MemoryTrace
  import S = CpuStep

  function IsOp(s: S.Step, op: int): int { if s.opcode == op then 1 else 0 }

  /** The number of extension lines of an instruction; tape loads compute it on 64-bit numbers. */
  function ExtLengthOf(s: S.Step): int {
    var a: int, b: int := s.ops.op0, s.ops.op1;
    if s.opcode in {SLOAD, SSTORE, SCCALL} || (s.opcode == END && s.env != 0) then 1
    else if s.opcode == TLOAD then (a * b + (1 - a)) % S.U64
    else if s.opcode == TSTORE then b
    else 0
  }

  function StepRow(s: S.Step): Row {
    var isExt := s.isExt == 1;
    var filterImm := !isExt && (s.opcode in {MLOAD, MSTORE} || s.op1Imm == 1);
    Row(0, s.env, s.callCnt, s.storage, s.code, s.tp, s.clk, s.pc, s.isExt, s.extCnt, s.regs,
        s.inst, s.op1Imm, s.opcode, s.imm, s.ops.op0, s.ops.op1, s.ops.dst, s.ops.aux0, s.ops.aux1, s.idxStorage,
        s.ops.sOp0, s.ops.sOp1, s.ops.sDst,
        Flag(s.opcode in {ADD, MUL, EQ, ASSERT, NEQ}), IsOp(s, MOV), IsOp(s, JMP), IsOp(s, CJMP), IsOp(s, CALL),
        IsOp(s, RET), IsOp(s, MLOAD), IsOp(s, MSTORE), IsOp(s, END), IsOp(s, RC),
        Flag(s.opcode in {AND, OR, XOR}), IsOp(s, NOT), IsOp(s, GTE), IsOp(s, POSEIDON), IsOp(s, SLOAD),
        IsOp(s, SSTORE), IsOp(s, TLOAD), IsOp(s, TSTORE), IsOp(s, SCCALL),
        Flag(s.env == 0), Flag(ExtLengthOf(s) == s.extCnt), Flag(!(s.env == 0 && s.opcode == END)), s.filterTape,
        Flag(s.opcode == SCCALL && s.extCnt == 1), Flag(s.opcode in {SLOAD, SSTORE} && isExt),
        Flag(s.opcode == END && isExt), Flag(filterImm), 0)
  }

  const ZEROS: seq<int> := [0, 0, 0, 0, 0, 0, 0, 0, 0, 0]
  const ZEROS4: seq<int> := [0, 0, 0, 0]

  const BLANK_ROW: Row := Row(
    0, 0, 0, ZEROS4, ZEROS4, 0, 0, 0, 0, 0, ZEROS, 0, 0, 0, 0, 0, 0, 0, 0, 0, 0, ZEROS, ZEROS, ZEROS,
    0, 0, 0, 0, 0, 0, 0, 0, 0, 0, 0, 0, 0, 0, 0, 0, 0, 0, 0, 0, 0, 0, 0, 0, 0, 0, 0, 0)

  function PaddingRow(tx: int, inst: int, idxStorage: int): Row {
    BLANK_ROW.(tx := tx, inst := inst, opcode := END, idxStorage := idxStorage, sEnd := 1, isEntry := 1,
               isDiffInst := 1, isSameTx := 0, isPadding := 1)
  }

  function PadOf(steps: seq<S.Step>): Row {
    if steps == [] then PaddingRow(0, 0x10_0000, 0) else
      var last := StepRow(steps[|steps| - 1]);
      PaddingRow(last.tx, last.inst, last.idxStorage)
  }

  function CpuTable(steps: seq<S.Step>): (r: seq<Row>)
    ensures |r| == NextPowerOfTwo(|steps|)
    ensures forall i :: 0 <= i < |r| ==> r[i] == if i < |steps| then StepRow(steps[i]) else PadOf(steps)
  {
    seq(NextPowerOfTwo(|steps|), i requires 0 <= i => if i < |steps| then StepRow(steps[i]) else PadOf(steps))
  }

  /** The column array, filled row by row and then padded, is the CPU table. */
  method GenerateCpuTrace(steps: seq<S.Step>) returns (trace: array<Row>)
    ensures fresh(trace) && trace[..] == CpuTable(steps)
  {
    hide NextPowerOfTwo, StepRow;
    var len := |steps|;
    var n := NextPowerOfTwo(len);
    trace := new Row[n](_ => BLANK_ROW);
    for i := 0 to len
      invariant forall k :: 0 <= k < i ==> trace[k] == StepRow(steps[k])
      invariant forall k :: i <= k < n ==> trace[k] == BLANK_ROW
    {
      trace[i] := StepRow(steps[i]);
    }
    var inst := if len == 0 then 0x10_0000 else trace[len - 1].inst;
    var tx := if len == 0 then 0 else trace[len - 1].tx;
    var idx := if len == 0 then 0 else trace[len - 1].idxStorage;
    if len != n {
      for i := len to n
        invariant forall k :: 0 <= k < len ==> trace[k] == StepRow(steps[k])
        invariant forall k :: len <= k < i ==> trace[k] == PadOf(steps)
        invariant forall k :: i <= k < n ==> trace[k] == BLANK_ROW
      {
        trace[i] := trace[i].(tx := tx, inst := inst, opcode := END, idxStorage := idx, sEnd := 1, isEntry := 1,
                              isDiffInst := 1, isSameTx := 0, isPadding := 1);
      }
    }
  }
}
