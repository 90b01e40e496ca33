/** The trace-producing executor: decoding of instruction words and the step function of
    `Process::execute` for moves, field arithmetic, comparisons, jumps, calls and memory access. */
module Cpu {
  import opened Common
  import opened Goldilocks
  import opened Words

  datatype Error =
    | ParseOpcode | ParseInt | MloadError | MstoreError | PcVistInv | MemVistInv | AssertFail
    | Panic         // an index out of range or an arithmetic underflow
    | NotModelled   // an opcode outside this model

  datatype Result<T> = Ok(value: T) | Err(error: Error)

  // ---- decoding ----

  /** A register index may be NOT_USED, which stands for an empty field. */
  datatype Operand = Imm(v: Felt) | Reg(i: nat)

  datatype Offset = Direct(imm: Felt) | Factored(reg: nat, factor: Felt)

  datatype BinOp = Add | Mul | Eq | Neq

  datatype Instr =
    | Binary(op: BinOp, dst: nat, op0: nat, op1: Operand)
    | Mov(dst: nat, op1: Operand)
    | Assert(op1: Operand)
    | Jmp(op1: Operand)
    | Cjmp(op0: nat, op1: Operand)
    | Call(op1: Operand)
    | Ret
    | Mload(dst: nat, op0: nat, offset: Offset)
    | Mstore(op0: nat, offset: Offset, dst: nat)
    | End
    | Other(shift: nat)

  /** An entry of the decoded program: the instruction, whether an immediate was consumed as
      operand, its length in words, its word and the word after it. */
  datatype Fetched = Fetched(ins: Instr, immFlag: int, step: nat, word: Felt, imm: Felt)

  function OpcodeField(w: nat): nat { w % 0x1_0000_0000 }

  function RegField(w: nat, k: nat): nat { (w / Pow2(k)) % 0x400 }

  function ImmField(w: nat): nat { (w / Pow2(62)) % 2 }

  function DstIndex(w: nat): nat { HighestBit(RegField(w, 32)) }
  function Op1Index(w: nat): nat { HighestBit(RegField(w, 42)) }
  function Op0Index(w: nat): nat { HighestBit(RegField(w, 52)) }

  function BinOpOf(shift: nat): Option<BinOp> {
    match shift
    case 31 => Some(Add)
    case 30 => Some(Mul)
    case 29 => Some(Eq)
    case 14 => Some(Neq)
    case _ => None
  }

  /** The second operand: the next word if the flag is set, which has to be there, else a register. */
  function Op1Of(w: nat, next: Option<Felt>): Result<Operand> {
    if ImmField(w) == 1 then (if next.Some? then Ok(Imm(next.value)) else Err(ParseInt))
    else Ok(Reg(Op1Index(w)))
  }

  function LoadOffset(w: nat, next: Option<Felt>): Result<Offset> {
    if Op1Index(w) == NOT_USED && ImmField(w) == 1 then
      (if next.Some? then Ok(Direct(next.value)) else Err(ParseInt))
    else if Op1Index(w) != NOT_USED then
      (if next.Some? then Ok(Factored(Op1Index(w), next.value)) else Err(ParseInt))
    else Err(MloadError)
  }

  function StoreOffset(w: nat, next: Option<Felt>): Result<Offset> {
    if ImmField(w) == 1 then (if next.Some? then Ok(Direct(next.value)) else Err(ParseInt))
    else if Op1Index(w) != NOT_USED then
      (if next.Some? then Ok(Factored(Op1Index(w), next.value)) else Err(ParseInt))
    else Err(MstoreError)
  }

  /** `decode_raw_instruction`. */
  function Decode(w: nat, next: Option<Felt>): Result<Instr> {
    var shift := HighestBit(OpcodeField(w));
    var dst, op0 := DstIndex(w), Op0Index(w);
    if shift == NOT_USED || shift < 6 then Err(ParseOpcode)
    else if shift == 23 then Ok(Ret)
    else if shift == 20 then Ok(End)
    else if shift == 22 then
      if dst == NOT_USED || op0 == NOT_USED then Err(MloadError) else
        var offset := LoadOffset(w, next);
        if offset.Err? then Err(offset.error) else Ok(Mload(dst, op0, offset.value))
    else if shift == 21 then
      if op0 == NOT_USED then Err(MstoreError) else
        var offset := StoreOffset(w, next);
        if offset.Err? then Err(offset.error)
        else if dst == NOT_USED then Err(MstoreError)
        else Ok(Mstore(op0, offset.value, dst))
    else
      var op1 := Op1Of(w, next);
      if op1.Err? then Err(op1.error)
      else if BinOpOf(shift).Some? then Ok(Binary(BinOpOf(shift).value, dst, op0, op1.value))
      else match shift
        case 27 => Ok(Mov(dst, op1.value))
        case 28 => Ok(Assert(op1.value))
        case 26 => Ok(Jmp(op1.value))
        case 25 => Ok(Cjmp(op0, op1.value))
        case 24 => Ok(Call(op1.value))
        case _ => Ok(Other(shift))
  }

  /** Two words if the instruction consumes the next one. */
  function Length(i: Instr): nat {
    match i
    case Binary(_, _, _, op1) => OperandLength(op1)
    case Mov(_, op1) => OperandLength(op1)
    case Assert(op1) => OperandLength(op1)
    case Jmp(op1) => OperandLength(op1)
    case Cjmp(_, op1) => OperandLength(op1)
    case Call(op1) => OperandLength(op1)
    case Mload(_, _, _) => 2
    case Mstore(_, _, _) => 2
    case _ => 1
  }

  function OperandLength(o: Operand): nat { if o.Imm? then 2 else 1 }

  function NextWord(words: seq<Felt>, pc: nat): Option<Felt> {
    if pc + 1 < |words| then Some(words[pc + 1]) else None
  }

  /** `execute_decode`: one entry of the instruction map. A program of a single word fails, because
      its length minus two is computed on unsigned numbers. */
  function FetchAt(words: seq<Felt>, pc: nat): Result<Fetched>
    requires pc < |words|
  {
    if |words| == 1 then Err(Panic) else
      var ins := Decode(words[pc], NextWord(words, pc));
      if ins.Err? then Err(ins.error)
      else if ins.value.Other? then Err(NotModelled)
      else
        var step, next := Length(ins.value), NextWord(words, pc);
        var imm := if step == 2 && next.Some? then next.value else 0;
        Ok(Fetched(ins.value, if step == 2 then 1 else 0, step, words[pc], imm))
  }

  lemma ConsumesNext(words: seq<Felt>, pc: nat)
    requires pc < |words|
    ensures var ins := Decode(words[pc], NextWord(words, pc));
            ins.Ok? && Length(ins.value) == 2 ==> pc + 1 < |words|
  {
    hide Pow2, HighestBit, OpcodeField, ImmField, DstIndex, Op0Index, Op1Index;
  }

  type Code = map<nat, Fetched>

  /** The instruction map holds exactly the instructions reached by walking from the start. */
  ghost predicate Reached(words: seq<Felt>, pc: nat, code: Code) {
    && pc <= |words|
    && (forall p :: p in code ==> p < pc && FetchAt(words, p) == Ok(code[p]) && p + code[p].step <= |words|)
    && (0 in code || pc == 0)
    && (forall p :: p in code ==> var q := p + code[p].step; q in code || q == pc)
  }

  method DecodeProgram(words: seq<Felt>) returns (r: Result<Code>)
    ensures r.Ok? ==> Reached(words, |words|, r.value)
    ensures r.Err? ==>
              exists p: nat, code :: Reached(words, p, code) && p < |words| && FetchAt(words, p) == Err(r.error)
  {
    hide Decode;
    var code: Code := map[];
    var pc := 0;
    while pc < |words|
      invariant Reached(words, pc, code)
      decreases |words| - pc
    {
      var f := FetchAt(words, pc);
      if f.Err? { return Err(f.error); }
      ConsumesNext(words, pc);
      code := code[pc := f.value];
      pc := pc + f.value.step;
    }
    r := Ok(code);
  }
}
