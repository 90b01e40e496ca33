/** From relocated assembly to binary instructions, from there to words, and back again as the
    executor reads them. */
module AsmEncode {
  import opened Common
  import opened Isa
  import opened Asm
  import G = Goldilocks
  import W = Words

  // ---- operands ----

  datatype Converted = Bad | Good(o: Option<Operand>)

  function ConvertOperand(o: Option<AsmOperand>, calls: map<string, nat>, jumps: map<string, nat>): Converted {
    if o.None? then Good(None) else
      match o.value
      case AImm(v) => Good(Some(Imm(v)))
      case AReg(r) => Good(Some(Reg(r)))
      case ALabel(l) => if l in jumps then Good(Some(Imm(jumps[l]))) else Bad
      case AIdent(l) => if l in calls then Good(Some(Imm(calls[l]))) else Bad
      case _ => Good(None)
  }

  /** Anchor, offset and value register of a memory access; any other operand form is an error. */
  function ConvertAccess(place: Option<AsmOperand>, value: Option<AsmOperand>): Option<(Operand, Operand, Operand)> {
    if place.None? || value.None? || !value.value.AReg? then None
    else match place.value
      case AOffset(r, offset) => Some((Reg(r), Imm(offset), Reg(value.value.r)))
      case AFactored(r, index, factor) => Some((Reg(r), RegFactor(index, factor), Reg(value.value.r)))
      case _ => None
  }

  function Convert(i: AsmInstr, calls: map<string, nat>, jumps: map<string, nat>,
                   prophet: Option<Prophet>): Option<Instr> {
    if i.op.Mload? || i.op.Mstore? then
      var ops := if i.op.Mload? then ConvertAccess(i.op1, i.dst) else ConvertAccess(i.op0, i.op1);
      if ops.None? then None
      else Some(Instr(i.op, Some(ops.value.0), Some(ops.value.1), Some(ops.value.2), prophet))
    else
      var a, b, c := ConvertOperand(i.op0, calls, jumps), ConvertOperand(i.op1, calls, jumps),
                     ConvertOperand(i.dst, calls, jumps);
      if a.Bad? || b.Bad? || c.Bad? then None else Some(Instr(i.op, a.o, b.o, c.o, prophet))
  }

  /** What `encode` accepts of what conversion produces. */
  predicate Assembled(i: Instr) {
    InstrOk(i) && Encodable(i) && !HasOffset(i) && if IsAccess(i.op) then AccessOk(i) else NoFactor(i)
  }

  predicate IsAccess(op: Opcode) { op.Mload? || op.Mstore? }

  predicate HasOffset(i: Instr) {
    || (i.op0.Some? && i.op0.value.RegOffset?)
    || (i.op1.Some? && i.op1.value.RegOffset?)
    || (i.dst.Some? && i.dst.value.RegOffset?)
  }

  predicate AccessOk(i: Instr) {
    i.op0.Some? && i.op1.Some? && i.dst.Some? && (i.op1.value.Imm? || i.op1.value.RegFactor?)
  }

  predicate NoFactor(i: Instr) { i.op1.Some? ==> i.op1.value.Imm? || i.op1.value.Reg? }

  /** An offset operand outside a memory access: counted as a word by the assembler, dropped by the
      conversion. */
  predicate StrayOffset(i: AsmInstr) {
    !IsAccess(i.op) && ((i.op0.Some? && (i.op0.value.AOffset? || i.op0.value.AFactored?))
                        || (i.op1.Some? && (i.op1.value.AOffset? || i.op1.value.AFactored?)))
  }

  predicate RegsOk(o: Option<AsmOperand>) {
    o.Some? ==> match o.value
                case AReg(r) => r < REGS
                case AOffset(r, _) => r < REGS
                case AFactored(r, index, _) => r < REGS && index < REGS
                case _ => true
  }

  predicate AsmOk(i: AsmInstr) { RegsOk(i.op0) && RegsOk(i.op1) && RegsOk(i.dst) }

  /** The assembler and the executor agree on the length of an instruction that encodes, if and only if
      it has no offset operand outside a memory access. */
  lemma LengthsAgree(i: AsmInstr, calls: map<string, nat>, jumps: map<string, nat>, prophet: Option<Prophet>)
    requires AsmOk(i) && Convert(i, calls, jumps, prophet).Some? && Encodable(Convert(i, calls, jumps, prophet).value)
    requires IsAccess(i.op) ==> ShapedAccess(i)
    ensures var b := Convert(i, calls, jumps, prophet).value;
            Assembled(b) && (AsmLength(i) == Length(b) <==> !StrayOffset(i))
  {
  }

  /** The operand positions of loads and stores, as the parser fills them. */
  predicate ShapedAccess(i: AsmInstr) { if i.op.Mload? then i.op0.None? else i.dst.None? }

  // ---- words ----

  function Shift(op: Opcode): (s: nat)
    ensures 5 <= s < 32
  {
    match op
    case Add => 31 case Mul => 30 case Eq => 29 case Assert => 28 case Mov => 27 case Jmp => 26 case Cjmp => 25
    case Call => 24 case Ret => 23 case Mload => 22 case Mstore => 21 case End => 20 case Rc => 19 case And => 18
    case Or => 17 case Xor => 16 case Not => 15 case Neq => 14 case Gte => 13 case Poseidon => 12 case Sload => 11
    case Sstore => 10 case Tload => 9 case Tstore => 8 case Sccall => 7 case Sigcheck => 6 case Event => 5
  }

  /** The opcode with a given bit; opcodes are listed from the highest bit down. */
  function OpOf(s: nat): Option<Opcode> {
    if s == 31 then Some(Add) else if s == 30 then Some(Mul) else if s == 29 then Some(Eq)
    else if s == 28 then Some(Assert) else if s == 27 then Some(Mov) else if s == 26 then Some(Jmp)
    else if s == 25 then Some(Cjmp) else if s == 24 then Some(Call) else if s == 23 then Some(Ret)
    else if s == 22 then Some(Mload) else if s == 21 then Some(Mstore) else if s == 20 then Some(End)
    else if s == 19 then Some(Rc) else if s == 18 then Some(And) else if s == 17 then Some(Or)
    else if s == 16 then Some(Xor) else if s == 15 then Some(Not) else if s == 14 then Some(Neq)
    else if s == 13 then Some(Gte) else if s == 12 then Some(Poseidon) else if s == 11 then Some(Sload)
    else if s == 10 then Some(Sstore) else if s == 9 then Some(Tload) else if s == 8 then Some(Tstore)
    else if s == 7 then Some(Sccall) else if s == 6 then Some(Sigcheck) else if s == 5 then Some(Event) else None
  }

  lemma OpOfShift(op: Opcode)
    ensures OpOf(Shift(op)) == Some(op)
  {
  }

  function HotOf(o: Option<Operand>): (s: seq<int>)
    ensures |s| == W.REGS && W.Bits01(s)
  {
    W.OneHot(if o.Some? && (o.value.Reg? || o.value.RegFactor?) then o.value.r else W.NOT_USED)
  }

  function ImmOf(i: Instr): Option<nat> {
    if i.op1.None? then None
    else if i.op1.value.Imm? then Some(i.op1.value.v)
    else if i.op1.value.RegFactor? then Some(i.op1.value.factor)
    else None
  }

  function SelectorsOf(i: Instr): (s: W.Selectors)
    ensures s.Valid()
  {
    W.Selectors(if i.op1.Some? && i.op1.value.Imm? then 1 else 0, HotOf(i.op0), HotOf(i.op1), HotOf(i.dst))
  }

  lemma OpcodeBound(op: Opcode)
    ensures 0 < G.Pow2(Shift(op)) < G.Pow2(32)
  {
    W.Pow2Monotone(Shift(op), 31);
    assert G.Pow2(32) == 2 * G.Pow2(31);
  }

  /** `BinaryInstruction::encode`. */
  function WordOf(i: Instr): (w: nat)
    ensures w < G.Pow2(63)
  {
    OpcodeBound(i.op);
    W.EncodeBound(SelectorsOf(i), G.Pow2(Shift(i.op)));
    W.Encode(SelectorsOf(i), G.Pow2(Shift(i.op)))
  }

  function EncodeWords(i: Instr): seq<nat> {
    [WordOf(i)] + if ImmOf(i).Some? then [ImmOf(i).value] else []
  }

  /** The first register whose bit is set in the field at base. */
  function FirstReg(w: nat, base: nat, r: nat): (o: Option<Operand>)
    requires r <= REGS
    ensures o.Some? ==> o.value.Reg?
    decreases REGS - r
  {
    if r == REGS then None
    else if W.BitAt(w, base + r) == 1 then Some(Reg(r))
    else FirstReg(w, base, r + 1)
  }

  predicate TwoWords(w: nat) { W.BitAt(w, 62) == 1 || W.BitAt(w, 21) == 1 || W.BitAt(w, 22) == 1 }

  /** What the bits of a word say. */
  datatype Fields = Fields(op: Option<Opcode>, isImm: bool, a: Option<Operand>, b: Option<Operand>, c: Option<Operand>)

  function FieldsOf(w: nat): (f: Fields)
    ensures f.b.Some? ==> f.b.value.Reg?
  {
    Fields(OpOf(W.HighestBit(w % 0x1_0000_0000)), W.BitAt(w, 62) == 1,
           FirstReg(w, 52, 0), FirstReg(w, 42, 0), FirstReg(w, 32, 0))
  }

  /** `BinaryInstruction::decode`. */
  function DecodeWords(w: nat, imm: Option<nat>, prophet: Option<Prophet>): Option<Instr> {
    var f := FieldsOf(w);
    if f.op.None? then None else
      var op := f.op.value;
      if (f.isImm || IsAccess(op)) != imm.Some? then None
      else if IsAccess(op) then
        if f.a.None? || f.c.None? then None
        else if f.isImm then Some(Instr(op, f.a, Some(Imm(imm.value)), f.c, prophet))
        else if f.b.None? then None
        else Some(Instr(op, f.a, Some(RegFactor(f.b.value.r, imm.value)), f.c, prophet))
      else if f.isImm then Some(Instr(op, f.a, Some(Imm(imm.value)), f.c, prophet))
      else Some(Instr(op, f.a, if f.b.None? && op.Mov? then Some(Psp) else f.b, f.c, prophet))
  }

  /** A move without a second operand is read back as a move of the prophet pointer. */
  function Normal(i: Instr): Instr { if i.op.Mov? && i.op1.None? then i.(op1 := Some(Psp)) else i }

  lemma {:induction false} FirstOfHot(w: nat, base: nat, i: nat, r: nat)
    requires r <= REGS && W.BitsAt(w, base, W.REGS) == W.OneHot(i) && (i < r ==> i >= REGS)
    ensures FirstReg(w, base, r) == if r <= i < REGS then Some(Reg(i)) else None
    decreases REGS - r
  {
    if r < REGS {
      assert W.BitsAt(w, base, W.REGS)[r] == W.BitAt(w, base + r);
      if r != i { FirstOfHot(w, base, i, r + 1); }
    }
  }

  /** The bits of an encoded word. */
  lemma EncodedBits(i: Instr)
    ensures var w := WordOf(i);
            && W.BitAt(w, 62) == SelectorsOf(i).imm
            && W.BitsAt(w, 52, W.REGS) == HotOf(i.op0) && W.BitsAt(w, 42, W.REGS) == HotOf(i.op1)
            && W.BitsAt(w, 32, W.REGS) == HotOf(i.dst)
            && w % 0x1_0000_0000 == G.Pow2(Shift(i.op))
  {
    hide G.Pow2, W.Encode, W.BitAt, W.BitsAt, W.OneHot;
    var w, s, op := WordOf(i), SelectorsOf(i), G.Pow2(Shift(i.op));
    OpcodeBound(i.op);
    W.EncodeBound(s, op);
    W.ExtractEncodes(w);
    W.ExtractedBits(w);
    assert w % G.Pow2(32) < G.Pow2(32);
    W.EncodeUnique(s, op, W.Extracted(w), w % G.Pow2(32));
    G.Pow2Values();
  }

  lemma {:induction false} PowHighest(k: nat)
    ensures W.HighestBit(G.Pow2(k)) == k
  {
    W.HighestUnique(G.Pow2(k), k);
  }

  /** Reading back what was encoded gives the same instruction. */
  lemma DecodeEncode(i: Instr)
    requires Assembled(i)
    ensures DecodeWords(WordOf(i), ImmOf(i), i.prophet) == Some(Normal(i))
  {
    hide W.OneHot, W.BitsAt, W.BitAt, WordOf, W.HighestBit, OpOf, Shift;
    EncodedBits(i);
    PowHighest(Shift(i.op));
    OpOfShift(i.op);
    FirstOfHot(WordOf(i), 52, if i.op0.Some? then i.op0.value.r else W.NOT_USED, 0);
    FirstOfHot(WordOf(i), 42,
               if i.op1.Some? && (i.op1.value.Reg? || i.op1.value.RegFactor?) then i.op1.value.r else W.NOT_USED, 0);
    FirstOfHot(WordOf(i), 32, if i.dst.Some? then i.dst.value.r else W.NOT_USED, 0);
  }

  /** The first word tells how many words there are. */
  lemma TwoWordsIff(i: Instr)
    requires Assembled(i)
    ensures TwoWords(WordOf(i)) <==> Length(i) == 2
    ensures |EncodeWords(i)| == Length(i) && Length(Normal(i)) == Length(i)
  {
    hide G.Pow2, W.BitAt, WordOf, W.OneHot;
    EncodedBits(i);
    var w := WordOf(i);
    G.Pow2Values();
    W.LowBit(w, 32, 21);
    W.LowBit(w, 32, 22);
    W.BitOfPow2(Shift(i.op), 21);
    W.BitOfPow2(Shift(i.op), 22);
  }

  // ---- whole programs ----

  /** Addresses as the assembler counts them. */
  function AddrOf(instrs: seq<AsmInstr>, n: nat): nat
    requires n <= |instrs|
  {
    if n == 0 then 0 else AddrOf(instrs, n - 1) + AsmLength(instrs[n - 1])
  }

  /** Addresses as the executor places them. */
  function PlacedAt(instrs: seq<Instr>, n: nat): nat
    requires n <= |instrs|
  {
    if n == 0 then 0 else PlacedAt(instrs, n - 1) + Length(instrs[n - 1])
  }

  function ProphetAt(hosts: map<nat, AsmProphet>, a: nat): Option<Prophet> {
    if a in hosts then Some(Prophet(a, hosts[a].code)) else None
  }

  function ConvertAt(rel: Relocated, n: nat): Option<Instr>
    requires n < |rel.instrs|
  {
    Convert(rel.instrs[n], rel.calls, rel.jumps, ProphetAt(rel.hosts, AddrOf(rel.instrs, n)))
  }

  /** Every instruction converted, with the prophet hosted at its address. */
  function BinaryOf(rel: Relocated): (r: Option<seq<Instr>>)
    ensures r.Some? <==> forall n :: 0 <= n < |rel.instrs| ==> ConvertAt(rel, n).Some?
    ensures r.Some? ==> |r.value| == |rel.instrs|
    ensures r.Some? ==> forall n :: 0 <= n < |rel.instrs| ==> ConvertAt(rel, n) == Some(r.value[n])
  {
    if forall n :: 0 <= n < |rel.instrs| ==> ConvertAt(rel, n).Some? then
      Some(seq(|rel.instrs|, n requires 0 <= n < |rel.instrs| && ConvertAt(rel, n).Some? => ConvertAt(rel, n).value))
    else None
  }

  /** `encode_to_binary`. */
  method EncodeToBinary(rel: Relocated) returns (r: Option<seq<Instr>>)
    ensures r == BinaryOf(rel)
  {
    hide Convert;
    var counter := 0;
    var binary: seq<Instr> := [];
    for n := 0 to |rel.instrs|
      invariant counter == AddrOf(rel.instrs, n) && |binary| == n
      invariant forall k :: 0 <= k < n ==> ConvertAt(rel, k) == Some(binary[k])
    {
      var i := Convert(rel.instrs[n], rel.calls, rel.jumps, ProphetAt(rel.hosts, counter));
      if i.None? {
        assert ConvertAt(rel, n).None?;
        return None;
      }
      binary := binary + [i.value];
      counter := counter + AsmLength(rel.instrs[n]);
    }
    assert binary == BinaryOf(rel).value;
    r := Some(binary);
  }

  /** The words of a program, and its prophets in order. */
  function Bytecode(instrs: seq<Instr>): seq<nat> {
    if instrs == [] then [] else Bytecode(instrs[..|instrs| - 1]) + EncodeWords(instrs[|instrs| - 1])
  }

  function ProphetList(instrs: seq<Instr>): seq<Prophet> {
    if instrs == [] then [] else
      var p := instrs[|instrs| - 1].prophet;
      ProphetList(instrs[..|instrs| - 1]) + if p.Some? then [p.value] else []
  }

  /** `from_instructions`: words and prophets, unless some instruction does not encode. */
  method FromInstructions(instrs: seq<Instr>) returns (r: Option<(seq<nat>, seq<Prophet>)>)
    ensures r.Some? <==> forall n :: 0 <= n < |instrs| ==> Encodable(instrs[n])
    ensures r.Some? ==> r.value == (Bytecode(instrs), ProphetList(instrs))
  {
    hide EncodeWords, Encodable;
    var words: seq<nat>, prophets: seq<Prophet> := [], [];
    for n := 0 to |instrs|
      invariant words == Bytecode(instrs[..n]) && prophets == ProphetList(instrs[..n])
      invariant forall k :: 0 <= k < n ==> Encodable(instrs[k])
    {
      assert instrs[..n + 1][..n] == instrs[..n];
      if instrs[n].prophet.Some? { prophets := prophets + [instrs[n].prophet.value]; }
      if !Encodable(instrs[n]) { return None; }
      words := words + EncodeWords(instrs[n]);
    }
    assert instrs[..|instrs|] == instrs;
    r := Some((words, prophets));
  }

  /** The prophets by host; of prophets with the same host the last one counts. */
  function HostMap(prophets: seq<Prophet>): map<nat, Prophet> {
    if prophets == [] then map[] else
      var n := |prophets| - 1;
      HostMap(prophets[..n])[prophets[n].host := prophets[n]]
  }

  /** Reading a program: words are grouped by the length their first word announces; a last word that
      announces a missing second one is dropped. */
  function DecodeFrom(words: seq<nat>, at: nat, host: nat, prophets: map<nat, Prophet>): Option<seq<Instr>>
    decreases |words| - at
  {
    if at >= |words| || (TwoWords(words[at]) && at + 1 >= |words|) then Some([]) else
      var two := TwoWords(words[at]);
      var p := if host in prophets then Some(prophets[host]) else None;
      var i := DecodeWords(words[at], if two then Some(words[at + 1]) else None, p);
      if i.None? then None else
        var rest := DecodeFrom(words, at + (if two then 2 else 1), host + Length(i.value), prophets);
        if rest.None? then None else Some([i.value] + rest.value)
  }

  /** What remains to be decoded, put behind what has been decoded. */
  function Behind(instrs: seq<Instr>, rest: Option<seq<Instr>>): Option<seq<Instr>> {
    if rest.None? then None else Some(instrs + rest.value)
  }

  lemma BehindOne(instrs: seq<Instr>, i: Instr, rest: Option<seq<Instr>>)
    ensures Behind(instrs, Behind([i], rest)) == Behind(instrs + [i], rest)
  {
    if rest.Some? { assert instrs + ([i] + rest.value) == instrs + [i] + rest.value; }
  }

  /** `decode_binary_program_to_instructions`. */
  method DecodeProgram(words: seq<nat>, listed: seq<Prophet>) returns (r: Option<seq<Instr>>)
    ensures r == DecodeFrom(words, 0, 0, HostMap(listed))
  {
    hide DecodeWords, TwoWords, Length;
    var prophets: map<nat, Prophet> := map[];
    for n := 0 to |listed|
      invariant prophets == HostMap(listed[..n])
    {
      assert listed[..n + 1][..n] == listed[..n];
      prophets := prophets[listed[n].host := listed[n]];
    }
    assert listed[..|listed|] == listed;
    var instrs: seq<Instr> := [];
    var at: nat, host: nat := 0, 0;
    ghost var all := DecodeFrom(words, 0, 0, prophets);
    assert Behind([], all) == all by { if all.Some? { assert [] + all.value == all.value; } }
    while at < |words| && !(TwoWords(words[at]) && at + 1 >= |words|)
      invariant all == Behind(instrs, DecodeFrom(words, at, host, prophets))
      decreases |words| - at
    {
      var two := TwoWords(words[at]);
      var p := if host in prophets then Some(prophets[host]) else None;
      var i := DecodeWords(words[at], if two then Some(words[at + 1]) else None, p);
      if i.None? { return None; }
      BehindOne(instrs, i.value, DecodeFrom(words, at + (if two then 2 else 1), host + Length(i.value), prophets));
      instrs := instrs + [i.value];
      at, host := at + (if two then 2 else 1), host + Length(i.value);
    }
    assert instrs + [] == instrs;
    r := Some(instrs);
  }

  /** The first n instructions, each at the sum of the lengths before it. */
  function CodeMap(instrs: seq<Instr>, n: nat): map<nat, Instr>
    requires n <= |instrs|
  {
    if n == 0 then map[] else CodeMap(instrs, n - 1)[PlacedAt(instrs, n - 1) := instrs[n - 1]]
  }

  /** Every instruction is in the code, and nothing else is. */
  lemma {:induction false} CodeMapAt(instrs: seq<Instr>, n: nat)
    requires n <= |instrs|
    ensures forall k :: 0 <= k < n ==>
              PlacedAt(instrs, k) in CodeMap(instrs, n) && CodeMap(instrs, n)[PlacedAt(instrs, k)] == instrs[k]
    ensures forall a :: a in CodeMap(instrs, n) ==> exists k :: 0 <= k < n && a == PlacedAt(instrs, k)
  {
    hide PlacedAt;
    if n > 0 {
      CodeMapAt(instrs, n - 1);
      forall k | 0 <= k < n - 1 ensures PlacedAt(instrs, k) < PlacedAt(instrs, n - 1) { PlacedGrows(instrs, k, n - 1); }
      forall a | a in CodeMap(instrs, n) ensures exists k :: 0 <= k < n && a == PlacedAt(instrs, k) {
        if a == PlacedAt(instrs, n - 1) {
          assert 0 <= n - 1 < n;
        } else {
          assert a in CodeMap(instrs, n - 1);
          var k :| 0 <= k < n - 1 && a == PlacedAt(instrs, k);
          assert 0 <= k < n;
        }
      }
    }
  }

  /** `OlaContractExecutor::new`: a program without instructions is refused. */
  method Place(instrs: seq<Instr>) returns (r: Option<map<nat, Instr>>)
    ensures r == if instrs == [] then None else Some(CodeMap(instrs, |instrs|))
  {
    hide Length;
    if instrs == [] { return None; }
    var code: map<nat, Instr> := map[];
    var index := 0;
    for n := 0 to |instrs|
      invariant index == PlacedAt(instrs, n) && code == CodeMap(instrs, n)
    {
      code := code[index := instrs[n]];
      index := index + Length(instrs[n]);
    }
    r := Some(code);
  }

  lemma {:induction false} PlacedGrows(instrs: seq<Instr>, k: nat, n: nat)
    requires k < n <= |instrs|
    ensures PlacedAt(instrs, k) < PlacedAt(instrs, n)
  {
    if k < n - 1 { PlacedGrows(instrs, k, n - 1); }
  }

  // ---- the executor reads back what the assembler wrote ----

  predicate AllAssembled(instrs: seq<Instr>) { forall n :: 0 <= n < |instrs| ==> Assembled(instrs[n]) }

  lemma {:induction false} PlacedPrefix(instrs: seq<Instr>, m: nat, n: nat)
    requires n <= m <= |instrs|
    ensures PlacedAt(instrs[..m], n) == PlacedAt(instrs, n)
  {
    if n > 0 { PlacedPrefix(instrs, m, n - 1); }
  }

  lemma {:induction false} BytecodeLength(instrs: seq<Instr>)
    requires AllAssembled(instrs)
    ensures |Bytecode(instrs)| == PlacedAt(instrs, |instrs|)
  {
    hide EncodeWords, Length, Assembled;
    if instrs != [] {
      var k := |instrs| - 1;
      BytecodeLength(instrs[..k]);
      PlacedPrefix(instrs, k, k);
      TwoWordsIff(instrs[k]);
    }
  }

  predicate WordsAt(words: seq<nat>, at: nat, part: seq<nat>) {
    at + |part| <= |words| && words[at..at + |part|] == part
  }

  lemma WordsStay(words: seq<nat>, at: nat, part: seq<nat>, more: seq<nat>)
    requires WordsAt(words, at, part)
    ensures WordsAt(words + more, at, part)
  {
    assert (words + more)[at..at + |part|] == words[at..at + |part|];
  }

  /** The words of instruction n are where it is placed. */
  lemma {:induction false} BytecodeAt(instrs: seq<Instr>, n: nat)
    requires AllAssembled(instrs) && n < |instrs|
    ensures WordsAt(Bytecode(instrs), PlacedAt(instrs, n), EncodeWords(instrs[n]))
  {
    hide EncodeWords, Length, Assembled, PlacedAt, WordsAt;
    var k := |instrs| - 1;
    var front := instrs[..k];
    PlacedPrefix(instrs, k, n);
    if n < k {
      BytecodeAt(front, n);
      WordsStay(Bytecode(front), PlacedAt(instrs, n), EncodeWords(instrs[n]), EncodeWords(instrs[k]));
    } else {
      BytecodeLength(front);
      WordsHere(Bytecode(front), EncodeWords(instrs[k]));
    }
  }

  lemma WordsHere(words: seq<nat>, part: seq<nat>)
    ensures WordsAt(words + part, |words|, part)
  {
  }

  function ListedAt(prophets: map<nat, Prophet>, a: nat): Option<Prophet> {
    if a in prophets then Some(prophets[a]) else None
  }

  /** Prophets are listed under the address of their host. */
  predicate HostsMatch(instrs: seq<Instr>, prophets: map<nat, Prophet>) {
    forall n :: 0 <= n < |instrs| ==> instrs[n].prophet == ListedAt(prophets, PlacedAt(instrs, n))
  }

  /** The host of a prophet is the address its instruction is placed at. */
  predicate OwnHosts(instrs: seq<Instr>) {
    forall n :: 0 <= n < |instrs| && instrs[n].prophet.Some? ==> instrs[n].prophet.value.host == PlacedAt(instrs, n)
  }

  predicate ListsOwn(instrs: seq<Instr>, n: nat, m: map<nat, Prophet>)
    requires n <= |instrs|
  {
    && (forall k :: 0 <= k < n ==> instrs[k].prophet == ListedAt(m, PlacedAt(instrs, k)))
    && (forall a :: a in m ==> a < PlacedAt(instrs, n))
  }

  lemma ListOne(instrs: seq<Instr>, n: nat, m: map<nat, Prophet>)
    requires OwnHosts(instrs) && n < |instrs| && ListsOwn(instrs, n, m)
    ensures var p := instrs[n].prophet;
            ListsOwn(instrs, n + 1, if p.Some? then m[p.value.host := p.value] else m)
  {
    hide PlacedAt;
    PlacedGrows(instrs, n, n + 1);
    forall k | 0 <= k < n ensures PlacedAt(instrs, k) < PlacedAt(instrs, n) { PlacedGrows(instrs, k, n); }
  }

  /** Then every instruction finds its own prophet in the list, and no other one. */
  lemma {:induction false} OwnHostsMatch(instrs: seq<Instr>, n: nat)
    requires OwnHosts(instrs) && n <= |instrs|
    ensures ListsOwn(instrs, n, HostMap(ProphetList(instrs[..n])))
  {
    hide OwnHosts, ListsOwn;
    if n == 0 {
      NoneListed(instrs);
    } else {
      OwnHostsMatch(instrs, n - 1);
      ListOne(instrs, n - 1, HostMap(ProphetList(instrs[..n - 1])));
      ListGrows(instrs, n - 1);
    }
  }

  lemma NoneListed(instrs: seq<Instr>)
    ensures ListsOwn(instrs, 0, HostMap(ProphetList(instrs[..0])))
  {
  }

  lemma ListGrows(instrs: seq<Instr>, n: nat)
    requires n < |instrs|
    ensures var p, m := instrs[n].prophet, HostMap(ProphetList(instrs[..n]));
            HostMap(ProphetList(instrs[..n + 1])) == if p.Some? then m[p.value.host := p.value] else m
  {
    assert instrs[..n + 1][..n] == instrs[..n];
    var list, p := ProphetList(instrs[..n]), instrs[n].prophet;
    if p.Some? { assert (list + [p.value])[..|list|] == list; } else { assert list + [] == list; }
  }

  function NormalAll(instrs: seq<Instr>): (r: seq<Instr>)
    ensures |r| == |instrs| && forall n :: 0 <= n < |instrs| ==> r[n] == Normal(instrs[n])
  {
    seq(|instrs|, n requires 0 <= n < |instrs| => Normal(instrs[n]))
  }

  /** Decoding the bytecode from the start of instruction n gives the instructions from n on. */
  lemma {:induction false} ReadsBack(instrs: seq<Instr>, prophets: map<nat, Prophet>, n: nat)
    requires AllAssembled(instrs) && HostsMatch(instrs, prophets) && n <= |instrs|
    ensures var at := PlacedAt(instrs, n);
            DecodeFrom(Bytecode(instrs), at, at, prophets) == Some(NormalAll(instrs)[n..])
    decreases |instrs| - n
  {
    hide Assembled, Bytecode, DecodeWords, WordOf, Length, TwoWords, Normal, PlacedAt;
    BytecodeLength(instrs);
    if n == |instrs| {
      assert NormalAll(instrs)[n..] == [];
    } else {
      BytecodeAt(instrs, n);
      var i, at, w := instrs[n], PlacedAt(instrs, n), Bytecode(instrs);
      TwoWordsIff(i);
      DecodeEncode(i);
      ReadsBack(instrs, prophets, n + 1);
      assert PlacedAt(instrs, n + 1) == at + Length(i) by { PlacedStep(instrs, n); }
      assert w[at] == w[at..at + Length(i)][0];
      if Length(i) == 2 {
        assert w[at + 1] == w[at..at + Length(i)][1];
      } else {
        assert ImmOf(i).None?;
      }
      assert NormalAll(instrs)[n..] == [Normal(i)] + NormalAll(instrs)[n + 1..];
    }
  }

  lemma PlacedStep(instrs: seq<Instr>, n: nat)
    requires n < |instrs|
    ensures PlacedAt(instrs, n + 1) == PlacedAt(instrs, n) + Length(instrs[n])
  {
  }

  lemma {:induction false} NormalPlaced(instrs: seq<Instr>, n: nat)
    requires AllAssembled(instrs) && n <= |instrs|
    ensures PlacedAt(NormalAll(instrs), n) == PlacedAt(instrs, n)
  {
    if n > 0 {
      NormalPlaced(instrs, n - 1);
    }
  }

  // ---- both sides count the same addresses ----

  predicate Converts(asm: seq<AsmInstr>, binary: seq<Instr>) {
    && |binary| == |asm|
    && forall n :: 0 <= n < |asm| ==> ConvertsTo(asm[n], binary[n])
  }

  /** A well-parsed instruction, what it is converted to, and that it encodes. */
  predicate ConvertsTo(i: AsmInstr, b: Instr) {
    AsmOk(i) && (IsAccess(i.op) ==> ShapedAccess(i)) && Assembled(b) && (AsmLength(i) == Length(b) <==> !StrayOffset(i))
    && Length(b) <= AsmLength(i)
  }

  /** The executor places every instruction at the address the assembler counted, if and only if no
      instruction before the last has an offset operand outside a memory access. */
  lemma {:induction false} AddressesAgree(asm: seq<AsmInstr>, binary: seq<Instr>, n: nat)
    requires Converts(asm, binary) && n <= |asm|
    ensures PlacedAt(binary, n) <= AddrOf(asm, n)
    ensures PlacedAt(binary, n) == AddrOf(asm, n) <==> forall k :: 0 <= k < n ==> !StrayOffset(asm[k])
  {
    hide StrayOffset, Length, AsmLength, Assembled;
    if n > 0 {
      AddressesAgree(asm, binary, n - 1);
      assert ConvertsTo(asm[n - 1], binary[n - 1]);
    }
  }

  /** A load's operand in an addition is enough to shift everything after it. */
  lemma StrayOffsetShifts()
    ensures var i := AsmInstr(Add, Some(AReg(0)), Some(AOffset(1, 5)), Some(AReg(2)));
            var b := Convert(i, map[], map[], None);
            b.Some? && ConvertsTo(i, b.value) && AsmLength(i) == 2 && Length(b.value) == 1
  {
  }
}
