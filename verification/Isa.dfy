/** Binary instructions and the memory and tape of the contract executor. */
module Isa {
  import opened Common

  const P: nat := 0xFFFF_FFFF_0000_0001
  const SPAN: nat := 0xFFFF_FFFF
  const HEAP: nat := P - 2 * SPAN
  const PROPHETS: nat := P - SPAN
  const U32_MAX: nat := 0xFFFF_FFFF
  const REGS: nat := 10
  const FP: nat := 9

  datatype Opcode =
    | Add | Mul | Eq | Assert | Mov | Jmp | Cjmp | Call | Ret | Mload | Mstore | End | Rc | And | Or | Xor | Not
    | Neq | Gte | Poseidon | Sload | Sstore | Tload | Tstore | Sccall | Sigcheck | Event

  datatype Operand =
    | Imm(v: nat) | Reg(r: nat) | RegOffset(r: nat, offset: nat) | RegFactor(r: nat, factor: nat) | Psp | Pc

  /** Prophet code, and the address of the instruction it is attached to. */
  datatype Prophet = Prophet(host: nat, code: nat)

  datatype Instr = Instr(op: Opcode, op0: Option<Operand>, op1: Option<Operand>, dst: Option<Operand>,
                         prophet: Option<Prophet>)

  predicate OperandOk(o: Option<Operand>) {
    o.Some? && (o.value.Reg? || o.value.RegOffset? || o.value.RegFactor?) ==> o.value.r < REGS
  }

  /** Registers are an enumeration in the source, so every register operand names one. */
  predicate InstrOk(i: Instr) { OperandOk(i.op0) && OperandOk(i.op1) && OperandOk(i.dst) }

  /** `BinaryInstruction::binary_length`. */
  function Length(i: Instr): (r: nat)
    ensures r == 1 || r == 2
  {
    if i.op.Mload? || i.op.Mstore? then 2
    else if i.op1.Some? && (i.op1.value.Imm? || i.op1.value.RegOffset? || i.op1.value.RegFactor?) then 2
    else 1
  }

  /** Which instructions `encode` accepts. */
  predicate Encodable(i: Instr) {
    && (i.op0.Some? ==> i.op0.value.Reg? || i.op0.value.RegOffset?)
    && (i.op1.Some? && (i.op1.value.Psp? || i.op1.value.Pc?) ==> i.op.Mov?)
    && (i.dst.Some? ==> i.dst.value.Reg? || i.dst.value.RegOffset?)
  }

  // ---- memory ----

  /** Cells by address, and where the next prophet value goes. */
  datatype Memory = Memory(cells: map<nat, nat>, psp: nat)

  const FRESH: Memory := Memory(map[HEAP := HEAP + 1], PROPHETS)

  function ReadMem(m: Memory, addr: int): Option<nat> {
    if 0 <= addr < P && addr in m.cells then Some(m.cells[addr]) else None
  }

  /** Writing anywhere in the prophet region appends at its end. */
  function WriteMem(m: Memory, addr: int, v: nat): Option<Memory> {
    if v > P || addr < 0 || addr >= P then None
    else if addr < PROPHETS then Some(m.(cells := m.cells[addr := v]))
    else Some(Memory(m.cells[m.psp := v], m.psp + 1))
  }

  function WriteAll(m: Memory, diffs: seq<(int, nat)>): Option<Memory> {
    if diffs == [] then Some(m) else
      var below := WriteAll(m, diffs[..|diffs| - 1]);
      if below.None? then None else WriteMem(below.value, diffs[|diffs| - 1].0, diffs[|diffs| - 1].1)
  }

  /** Every cell from `from` on has to be there. */
  function ReadCells(m: Memory, from: nat, len: nat): Option<seq<nat>> {
    if len == 0 then Some([]) else
      var below := ReadCells(m, from, len - 1);
      if below.None? || from + len - 1 !in m.cells then None
      else Some(below.value + [m.cells[from + len - 1]])
  }

  /** A batch has to end before the end of the region it starts in. */
  function BatchRead(m: Memory, from: int, len: nat): (r: Option<seq<nat>>)
    ensures r.Some? ==> |r.value| == len
  {
    if from < 0 || from >= P then None else
      var end := if from < HEAP then HEAP else if from < PROPHETS then PROPHETS else P;
      if from + len >= end then None else
        ReadLength(m, from, len);
        ReadCells(m, from, len)
  }

  lemma {:induction false} ReadLength(m: Memory, from: nat, len: nat)
    ensures var r := ReadCells(m, from, len); r.Some? ==> |r.value| == len
  {
    if len > 0 { ReadLength(m, from, len - 1); }
  }

  // ---- tape ----

  function TapeTop(tape: seq<nat>, addr: nat): Option<seq<nat>> {
    if addr < |tape| then Some([tape[addr]]) else None
  }

  function TapeStack(tape: seq<nat>, len: nat): Option<seq<nat>> {
    if len > |tape| then None else Some(tape[|tape| - len..])
  }
}
