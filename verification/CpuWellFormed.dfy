/** Which words re-encode: those with one opcode bit, at most one bit per register field, and only
    the fields their instruction uses. Hence for which programs the CPU table holds. */
module CpuWellFormed {
  import opened Goldilocks
  import opened Words
  import opened Cpu
  import opened CpuStep
  import opened CpuComplete
  import A = CpuAir
  import CpuTrace

  // ---- well-formed words ----

  /** The fields of a word: each holds at most one register bit, and the opcode is a single bit. */
  ghost predicate OneBitFields(w: nat) {
    && w < Pow2(63)
    && AtMostOneBit(RegField(w, 32)) && AtMostOneBit(RegField(w, 42)) && AtMostOneBit(RegField(w, 52))
    && OpcodeField(w) == Pow2(HighestBit(OpcodeField(w)))
  }

  predicate Empty(w: nat, k: nat) { RegField(w, k) == 0 }

  /** The fields an instruction does not use are empty, and an immediate leaves no register for the
      second operand. A call records no register for its target. */
  predicate NoUnusedField(w: nat, i: Instr) {
    match i
    case Binary(_, _, _, op1) => op1.Imm? ==> Empty(w, 42)
    case Mov(_, op1) => Empty(w, 52) && (op1.Imm? ==> Empty(w, 42))
    case Assert(op1) => Empty(w, 52) && Empty(w, 32) && (op1.Imm? ==> Empty(w, 42))
    case Jmp(op1) => Empty(w, 52) && Empty(w, 32) && (op1.Imm? ==> Empty(w, 42))
    case Cjmp(_, op1) => Empty(w, 32) && (op1.Imm? ==> Empty(w, 42))
    case Call(_) => Empty(w, 52) && Empty(w, 42) && Empty(w, 32)
    case Ret => ImmField(w) == 0 && Empty(w, 52) && Empty(w, 42) && Empty(w, 32)
    case End => ImmField(w) == 0 && Empty(w, 52) && Empty(w, 42) && Empty(w, 32)
    case Mload(_, _, o) => ImmField(w) == (if o.Direct? then 1 else 0)
    case Mstore(_, o, _) => o.Direct? ==> Empty(w, 42)
    case Other(_) => false
  }

  /** A word is the sum of its fields. */
  lemma FieldsSum(w: nat)
    requires w < Pow2(63)
    ensures w == ImmField(w) * Pow2(62) + Pow2(52) * RegField(w, 52) + Pow2(42) * RegField(w, 42)
                 + Pow2(32) * RegField(w, 32) + OpcodeField(w)
  {
    hide Pow2, Weigh, BitAt, BitsAt;
    ExtractEncodes(w);
    BitsWeigh(w, 52, REGS);
    BitsWeigh(w, 42, REGS);
    BitsWeigh(w, 32, REGS);
    WeighShift(BitsAt(w, 52, REGS), 52);
    WeighShift(BitsAt(w, 42, REGS), 42);
    WeighShift(BitsAt(w, 32, REGS), 32);
    assert Pow2(REGS) == 0x400 && Pow2(32) == 0x1_0000_0000 by { Pow2Ten(); Pow2Values(); }
    assert ImmField(w) == BitAt(w, 62) by { BitIs(w); }
  }

  lemma Pow2Ten()
    ensures Pow2(REGS) == 0x400
  {
  }

  lemma BitIs(w: nat)
    ensures ImmField(w) == BitAt(w, 62)
  {
  }

  /** What a successful step of an instruction records, in terms of its word: the selectors of the
      fields it uses, and nothing for the others. */
  ghost predicate RecordsWord(w: nat, i: Instr, d: Done) {
    && Bit01(d.op1Imm)
    && d.ops.sOp0 == (if i.Binary? || i.Cjmp? || i.Mload? || i.Mstore? then OneHot(Op0Index(w)) else NONE)
    && d.ops.sDst == (if i.Binary? || i.Mov? || i.Mload? || i.Mstore? then OneHot(DstIndex(w)) else NONE)
    && d.ops.sOp1 == (if UsesOp1(i) then OneHot(Op1Index(w)) else NONE)
    && d.op1Imm == (match i
                    case Mload(_, _, o) => if o.Direct? then 1 else 0
                    case Ret => 0
                    case End => 0
                    case _ => ImmField(w))
    && d.opcode == Pow2(HighestBit(OpcodeField(w)))
  }

  predicate UsesOp1(i: Instr) {
    match i
    case Binary(_, _, _, op1) => op1.Reg?
    case Mov(_, op1) => op1.Reg?
    case Assert(op1) => op1.Reg?
    case Jmp(op1) => op1.Reg?
    case Cjmp(_, op1) => op1.Reg?
    case Mload(_, _, o) => o.Factored?
    case Mstore(_, o, _) => o.Factored?
    case _ => false
  }

  lemma OpcodeMasks()
    ensures Pow2(31) == A.ADD && Pow2(30) == A.MUL && Pow2(29) == A.EQ && Pow2(28) == A.ASSERT
    ensures Pow2(27) == A.MOV && Pow2(26) == A.JMP && Pow2(25) == A.CJMP && Pow2(24) == A.CALL
    ensures Pow2(23) == A.RET && Pow2(22) == A.MLOAD && Pow2(21) == A.MSTORE && Pow2(20) == A.END
    ensures Pow2(14) == A.NEQ
  {
    assert Pow2(14) == 0x4000;
    assert Pow2(20) == 0x10_0000;
  }

  lemma Records(words: seq<Felt>, pc: nat, s: State, f: Fetched, d: Done)
    requires pc < |words| && FetchAt(words, pc) == Ok(f) && s.Valid() && Exec(s, f) == Ok(d)
    ensures f.word == words[pc] && RecordsWord(f.word, f.ins, d) && !f.ins.Other?
  {
    hide Pow2, HighestBit, OpcodeField, RegField, OneHot, ReadCell, WriteCell, BinResult, BinAux, AddressOf;
    OpcodeMasks();
    ConsumesNext(words, pc);
  }

  /** The value of a field whose bits are those of one register, or of none. */
  lemma FieldIs(w: nat, k: nat, i: nat)
    requires i < REGS || i == NOT_USED
    requires BitsAt(w, k, REGS) == OneHot(i)
    ensures RegField(w, k) == if i < REGS then Pow2(i) else 0
  {
    hide Pow2;
    BitsWeigh(w, k, REGS);
    HotWeigh(i, REGS);
    assert OneHot(i)[..REGS] == OneHot(i);
    Pow2Ten();
  }

  lemma IndexRange(w: nat, k: nat)
    ensures var h := HighestBit(RegField(w, k)); h < REGS || h == NOT_USED
    ensures RegField(w, k) == 0 <==> HighestBit(RegField(w, k)) == NOT_USED
  {
    hide Pow2;
    Pow2Ten();
    var x := RegField(w, k);
    if x != 0 {
      var h := HighestBit(x);
      if h >= REGS { Pow2Monotone(REGS, h); }
    }
  }

  /** Exactly the words whose fields hold single bits and are used re-encode. */
  ghost predicate WellFormed(w: nat, i: Instr) { OneBitFields(w) && NoUnusedField(w, i) }

  /** The selectors a word decodes to. */
  function WordSelectors(w: nat): Selectors {
    Selectors(ImmField(w), OneHot(Op0Index(w)), OneHot(Op1Index(w)), OneHot(DstIndex(w)))
  }

  /** A word with single-bit fields is encoded by the selectors of the registers it decodes to. */
  lemma OneBitEncodes(w: nat)
    requires OneBitFields(w)
    ensures Encode(WordSelectors(w), Pow2(HighestBit(OpcodeField(w)))) == w
  {
    hide Pow2, HighestBit, Weigh, RegField, OpcodeField, ImmField, OneHot, AtMostOneBit;
    FieldsSum(w);
    FieldHot(RegField(w, 52), 52);
    FieldHot(RegField(w, 42), 42);
    FieldHot(RegField(w, 32), 32);
  }

  lemma UsedSelectors(w: nat, i: Instr, d: Done)
    requires RecordsWord(w, i, d) && NoUnusedField(w, i)
    requires i.Mload? && i.offset.Direct? ==> Op1Index(w) == NOT_USED
    ensures DoneSelectors(d) == WordSelectors(w)
  {
    hide Pow2, HighestBit, RegField, OneHot;
    IndexRange(w, 52);
    IndexRange(w, 42);
    IndexRange(w, 32);
  }

  lemma DirectLoad(words: seq<Felt>, pc: nat)
    requires pc < |words| && FetchAt(words, pc).Ok?
    ensures var f := FetchAt(words, pc).value;
            f.ins.Mload? && f.ins.offset.Direct? ==> Op1Index(f.word) == NOT_USED
  {
    hide Pow2, HighestBit, OpcodeField, RegField;
  }

  /** The bits of a word that re-encodes are the recorded selectors. */
  lemma ReencodedBits(w: nat, d: Done)
    requires Encode(DoneSelectors(d), d.opcode) == w && DoneSelectors(d).Valid() && 0 <= d.opcode < Pow2(32)
    ensures w < Pow2(63) && d.op1Imm == ImmField(w) && d.opcode == OpcodeField(w)
    ensures d.ops.sOp0 == BitsAt(w, 52, REGS) && d.ops.sOp1 == BitsAt(w, 42, REGS) && d.ops.sDst == BitsAt(w, 32, REGS)
  {
    hide Pow2, Encode, BitsAt, BitAt;
    EncodeBound(DoneSelectors(d), d.opcode);
    ExtractEncodes(w);
    ExtractedBits(w);
    assert w % Pow2(32) < Pow2(32);
    EncodeUnique(DoneSelectors(d), d.opcode, Extracted(w), w % Pow2(32));
    Pow2Values();
    BitIs(w);
  }

  lemma ReencodedFields(w: nat, i: Instr, d: Done)
    requires RecordsWord(w, i, d) && Encode(DoneSelectors(d), d.opcode) == w
    requires DoneSelectors(d).Valid() && 0 <= d.opcode < Pow2(32) && !i.Other?
    ensures WellFormed(w, i)
  {
    hide Pow2, Encode, HighestBit, RegField, OneHot, OpcodeField, ImmField, BitsAt, AtMostOneBit;
    ReencodedBits(w, d);
    IndexRange(w, 52);
    IndexRange(w, 42);
    IndexRange(w, 32);
    FieldIs(w, 52, if d.ops.sOp0 == NONE then NOT_USED else Op0Index(w));
    FieldIs(w, 42, if d.ops.sOp1 == NONE then NOT_USED else Op1Index(w));
    FieldIs(w, 32, if d.ops.sDst == NONE then NOT_USED else DstIndex(w));
    OneBit(RegField(w, 52), if d.ops.sOp0 == NONE then NOT_USED else Op0Index(w));
    OneBit(RegField(w, 42), if d.ops.sOp1 == NONE then NOT_USED else Op1Index(w));
    OneBit(RegField(w, 32), if d.ops.sDst == NONE then NOT_USED else DstIndex(w));
  }

  lemma OneBit(x: nat, i: nat)
    requires x == if i < REGS then Pow2(i) else 0
    ensures AtMostOneBit(x)
  {
  }

  /** A step's word re-encodes if and only if it is well formed. */
  lemma WellFormedReencodes(words: seq<Felt>, pc: nat, s: State, f: Fetched, d: Done)
    requires pc < |words| && FetchAt(words, pc) == Ok(f) && s.Valid() && Exec(s, f) == Ok(d)
    ensures Reencodes(f, d) <==> WellFormed(words[pc], f.ins)
  {
    hide Pow2, Encode, Exec, FetchAt, RecordsWord, OneBitFields, NoUnusedField, WellFetched;
    Records(words, pc, s, f, d);
    FetchedIs(words, pc);
    RecordsOperands(s, f, d);
    OpcodeHolds(Env(0, [], []), s, f, d);
    assert DoneSelectors(d).Valid();
    DirectLoad(words, pc);
    if WellFormed(f.word, f.ins) {
      UsedSelectors(f.word, f.ins, d);
      OneBitEncodes(f.word);
      OpcodeIs(f.word, f.ins, d);
    }
    if Reencodes(f, d) {
      ReencodedFields(f.word, f.ins, d);
    }
  }

  lemma OpcodeIs(w: nat, i: Instr, d: Done)
    requires RecordsWord(w, i, d)
    ensures d.opcode == Pow2(HighestBit(OpcodeField(w)))
  {
  }

  /** The theorem in terms of the program text: the table of a run satisfies `CpuStark` if and only if
      every executed word is well formed, every executed condition is a bit and every executed
      factored offset stays below 2^64. */
  lemma RunHolds(words: seq<Felt>, code: Code, e: Env, states: seq<State>, steps: seq<Step>)
    requires ProgramRun(words, code, e, states, steps)
    ensures |states| == |steps|
    ensures A.TableHolds(CpuTrace.CpuTable(steps)) <==>
            forall i :: 0 <= i < |steps| ==> Accepted(words, code, states[i])
  {
    hide ProgramRun, A.TableHolds, Fits, Exec, WellFormed, Sane;
    CpuTableHolds(words, code, e, states, steps);
    forall i | 0 <= i < |steps| ensures FitsAt(code, states, i) <==> Accepted(words, code, states[i]) {
      RunStep(words, code, e, states, steps, i);
      var s, f := states[i], code[states[i].pc];
      RunFetched(words, code, e, states, steps, s.pc);
      WellFormedReencodes(words, s.pc, s, f, Exec(s, f).value);
      FitsIs(s, f);
    }
  }

  ghost predicate Accepted(words: seq<Felt>, code: Code, s: State) {
    && s.Valid() && s.pc in code && s.pc < |words|
    && WellFormed(words[s.pc], code[s.pc].ins) && Sane(s, code[s.pc].ins)
  }

  lemma FitsIs(s: State, f: Fetched)
    requires s.Valid() && Exec(s, f).Ok?
    ensures Fits(s, f) <==> Reencodes(f, Exec(s, f).value) && Sane(s, f.ins)
  {
  }

  lemma RunFetched(words: seq<Felt>, code: Code, e: Env, states: seq<State>, steps: seq<Step>, pc: nat)
    requires ProgramRun(words, code, e, states, steps) && pc in code
    ensures pc < |words| && FetchAt(words, pc) == Ok(code[pc])
  {
    hide FetchAt;
  }

  // ---- the shortest programs ----

  /** END, with the given contents in the three register fields it does not use. */
  function EndWord(dst: nat, op1: nat, op0: nat): (w: Felt)
    requires dst < 0x400 && op1 < 0x400 && op0 < 0x400
  {
    0x10_0000 + 0x1_0000_0000 * dst + 0x400_0000_0000 * op1 + 0x10_0000_0000_0000 * op0
  }

  lemma FieldPowers()
    ensures Pow2(20) == 0x10_0000 && Pow2(32) == 0x1_0000_0000 && Pow2(42) == 0x400_0000_0000
    ensures Pow2(52) == 0x10_0000_0000_0000 && Pow2(62) == 0x4000_0000_0000_0000 && Pow2(63) == 0x8000_0000_0000_0000
  {
    OpcodeMasks();
    Pow2Values();
    Pow2Ten();
    Pow2Add(32, 10);
    Pow2Add(42, 10);
    Pow2Add(52, 10);
  }

  lemma Divided(low: nat, high: nat, d: nat)
    requires low < d
    ensures (low + d * high) / d == high && (low + d * high) % d == low
  {
    var w := low + d * high;
    DivMod(w, d);
    Apart(w / d, high, low, w % d, d);
    SmallMultiple(w / d - high, d);
  }

  lemma Apart(q: int, high: int, low: int, r: int, d: int)
    requires d * q + r == low + d * high && 0 <= low < d && 0 <= r < d
    ensures -d < (q - high) * d < d
  {
    assert (q - high) * d == d * q - d * high;
  }

  lemma EndFields(dst: nat, op1: nat, op0: nat)
    requires dst < 0x400 && op1 < 0x400 && op0 < 0x400
    ensures var w := EndWord(dst, op1, op0);
            && OpcodeField(w) == 0x10_0000 && HighestBit(0x10_0000) == 20 && w < Pow2(63) && ImmField(w) == 0
            && RegField(w, 32) == dst && RegField(w, 42) == op1 && RegField(w, 52) == op0
  {
    hide Pow2, HighestBit;
    FieldPowers();
    EndHighest();
    var w: int := EndWord(dst, op1, op0);
    var low42: nat := 0x10_0000 + 0x1_0000_0000 * dst;
    var low52: nat := low42 + 0x400_0000_0000 * op1;
    Divided(0x10_0000, dst + 0x400 * (op1 + 0x400 * op0), 0x1_0000_0000);
    Divided(low42, op1 + 0x400 * op0, 0x400_0000_0000);
    Divided(low52, op0, 0x10_0000_0000_0000);
    Divided(w, 0, 0x4000_0000_0000_0000);
    Divided(dst, op1 + 0x400 * op0, 0x400);
    Divided(op1, op0, 0x400);
  }

  lemma EndHighest()
    ensures HighestBit(0x10_0000) == 20
  {
    hide Pow2;
    FieldPowers();
    NextPower(20);
    HighestUnique(0x10_0000, 20);
  }

  lemma NextPower(k: nat)
    ensures Pow2(k + 1) == 2 * Pow2(k)
  {
  }

  lemma EndFetched(words: seq<Felt>, pc: nat, dst: nat, op1: nat, op0: nat)
    requires dst < 0x400 && op1 < 0x400 && op0 < 0x400 && pc < |words| && |words| > 1
    requires words[pc] == EndWord(dst, op1, op0)
    ensures FetchAt(words, pc) == Ok(Fetched(End, 0, 1, words[pc], 0))
  {
    hide Pow2, HighestBit, OpcodeField, EndWord;
    EndFields(dst, op1, op0);
  }

  /** The run of two END words of which only the first is executed. Whatever is in the register fields, the executor
      decodes and ends; the table holds if and only if all three fields are empty. */
  lemma EndRuns(dst: nat, op1: nat, op0: nat, e: Env)
    requires dst < 0x400 && op1 < 0x400 && op0 < 0x400 && e.Valid()
    ensures var words := [EndWord(dst, op1, op0), EndWord(0, 0, 0)];
            var f := Fetched(End, 0, 1, words[0], 0);
            var code := map[0 := f, 1 := Fetched(End, 0, 1, words[1], 0)];
            var steps := [MakeStep(e, Initial(), f, ExecEnd(Initial(), f))];
            && ProgramRun(words, code, e, [Initial()], steps)
            && (A.TableHolds(CpuTrace.CpuTable(steps)) <==> dst == op1 == op0 == 0)
  {
    hide Pow2, HighestBit, OpcodeField, RegField, ImmField, EndWord, FetchAt, A.TableHolds, CpuTrace.CpuTable, MakeStep;
    var words := [EndWord(dst, op1, op0), EndWord(0, 0, 0)];
    var f := Fetched(End, 0, 1, words[0], 0);
    var code := map[0 := f, 1 := Fetched(End, 0, 1, words[1], 0)];
    var steps := [MakeStep(e, Initial(), f, ExecEnd(Initial(), f))];
    EndFetched(words, 0, dst, op1, op0);
    EndFetched(words, 1, 0, 0, 0);
    EndFields(dst, op1, op0);
    FieldPowers();
    assert ProgramRun(words, code, e, [Initial()], steps);
    RunHolds(words, code, e, [Initial()], steps);
    assert Accepted(words, code, Initial()) <==> dst == op1 == op0 == 0;
    assert [Initial()][0] == Initial();
  }
}
