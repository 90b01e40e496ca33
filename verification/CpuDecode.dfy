/** Instruction words decode uniquely: what the selector and encoding constraints of a main row pin
    down once the word is known. */
module CpuDecode {
  import opened Goldilocks
  import opened Air
  import opened Words
  import opened CpuAir

  predicate Canonical(s: seq<int>) { forall i :: 0 <= i < |s| ==> 0 <= s[i] < P }

  /** A main row whose columns hold canonical field elements. */
  predicate MainRow(r: Row) {
    && r.Shaped() && r.isExt == 0
    && Canonical(r.sOp0) && Canonical(r.sOp1) && Canonical(r.sDst)
    && 0 <= r.op1Imm < P && 0 <= r.opcode < P
    && 0 <= r.sArith < P && 0 <= r.sMov < P && 0 <= r.sJmp < P && 0 <= r.sCjmp < P && 0 <= r.sCall < P
    && 0 <= r.sRet < P && 0 <= r.sMload < P && 0 <= r.sMstore < P && 0 <= r.sEnd < P && 0 <= r.sRc < P
    && 0 <= r.sBitwise < P && 0 <= r.sNot < P && 0 <= r.sGte < P && 0 <= r.sPsdn < P && 0 <= r.sSload < P
    && 0 <= r.sSstore < P && 0 <= r.sTload < P && 0 <= r.sTstore < P && 0 <= r.sCallSc < P
  }

  lemma BitOf(x: int)
    requires 0 <= x < P && Binary(x)
    ensures 0 <= x <= 1
  {
    hide Zero2;
  }

  lemma FieldBits(s: seq<int>)
    requires Canonical(s) && FieldSelectors(0, s)
    ensures Bits01(s)
  {
    hide Zero3, Sum;
    forall i | 0 <= i < |s| ensures Bit01(s[i]) {
      assert Zero3(1 - 0, s[i], 1 - s[i]);
    }
  }

  /** The opcode is one of the masks, all of which lie below the register fields. */
  lemma OpcodeRange(r: Row)
    requires MainRow(r) && OpcodeSelector(r)
    ensures 0 <= r.opcode < Pow2(32)
  {
    hide OpcodeSelector, SelectedOpcode;
    Pow2Values();
    SelectorBits(r);
    OneSelected(r);
    if r.sArith == 1 || r.sBitwise == 1 {
      ListedOpcode(r);
    } else {
      SelectedRange(r);
      SelectedIs(r);
    }
  }

  lemma SelectedIs(r: Row)
    requires OpcodeSelector(r) && r.sArith == r.sBitwise == 0
    requires 0 <= r.opcode < P && 0 <= SelectedOpcode(r) < P
    ensures r.opcode == SelectedOpcode(r)
  {
    hide Zero2, Zero4, Zero6, Binary, SelectedOpcode;
    SameFelt(r.opcode, SelectedOpcode(r));
  }

  predicate UnitSelectors(r: Row) {
    && 0 <= r.sArith <= 1 && 0 <= r.sMov <= 1 && 0 <= r.sJmp <= 1 && 0 <= r.sCjmp <= 1 && 0 <= r.sCall <= 1
    && 0 <= r.sRet <= 1
    && 0 <= r.sMload <= 1 && 0 <= r.sMstore <= 1 && 0 <= r.sEnd <= 1 && 0 <= r.sRc <= 1 && 0 <= r.sBitwise <= 1
    && 0 <= r.sNot <= 1
    && 0 <= r.sGte <= 1 && 0 <= r.sPsdn <= 1 && 0 <= r.sSload <= 1 && 0 <= r.sSstore <= 1 && 0 <= r.sTload <= 1
    && 0 <= r.sTstore <= 1 && 0 <= r.sCallSc <= 1
  }

  lemma SelectorBits(r: Row)
    requires MainRow(r) && OpcodeSelector(r)
    ensures UnitSelectors(r)
  {
    hide Zero2, Zero4, Zero6, Binary, SelectedOpcode;
    BitOf(r.sArith); BitOf(r.sMov); BitOf(r.sJmp); BitOf(r.sCjmp); BitOf(r.sCall); BitOf(r.sRet); BitOf(r.sMload);
    BitOf(r.sMstore); BitOf(r.sEnd); BitOf(r.sRc); BitOf(r.sBitwise); BitOf(r.sNot); BitOf(r.sGte); BitOf(r.sPsdn);
    BitOf(r.sSload); BitOf(r.sSstore); BitOf(r.sTload); BitOf(r.sTstore); BitOf(r.sCallSc);
  }

  lemma OneSelected(r: Row)
    requires UnitSelectors(r) && OpcodeSelector(r)
    ensures r.sArith + r.sMov + r.sJmp + r.sCjmp + r.sCall + r.sRet + r.sMload + r.sMstore + r.sEnd + r.sRc
            + r.sBitwise + r.sNot + r.sGte + r.sPsdn + r.sSload + r.sSstore + r.sTload + r.sTstore + r.sCallSc == 1
  {
    hide Zero2, Zero4, Zero6, Binary, SelectedOpcode;
  }

  lemma SelectedRange(r: Row)
    requires UnitSelectors(r) && r.sArith == r.sBitwise == 0
    requires r.sMov + r.sJmp + r.sCjmp + r.sCall + r.sRet + r.sMload + r.sMstore + r.sEnd + r.sRc + r.sNot + r.sGte
             + r.sPsdn + r.sSload + r.sSstore + r.sTload + r.sTstore + r.sCallSc == 1
    ensures 0 <= SelectedOpcode(r) < 0x1_0000_0000
  {
  }

  lemma ListedOpcode(r: Row)
    requires MainRow(r) && OpcodeSelector(r) && (r.sArith == 1 || r.sBitwise == 1)
    ensures r.opcode in {ADD, MUL, EQ, NEQ, ASSERT, AND, OR, XOR}
  {
    hide Zero2, Zero4, Zero6, Binary, SelectedOpcode;
  }

  /** Two main rows with the same word agree on the immediate flag, the opcode and every register
      selector. */
  lemma WordsDecodeUniquely(r: Row, s: Row)
    requires MainRow(r) && OpcodeSelector(r) && InstructionEncode(r)
    requires FieldSelectors(r.isExt, r.sOp0) && FieldSelectors(r.isExt, r.sOp1) && FieldSelectors(r.isExt, r.sDst)
    requires MainRow(s) && OpcodeSelector(s) && InstructionEncode(s)
    requires FieldSelectors(s.isExt, s.sOp0) && FieldSelectors(s.isExt, s.sOp1) && FieldSelectors(s.isExt, s.sDst)
    requires Same(r.inst, s.inst)
    ensures r.op1Imm == s.op1Imm && r.opcode == s.opcode
    ensures r.sOp0 == s.sOp0 && r.sOp1 == s.sOp1 && r.sDst == s.sDst
  {
    hide Zero2, Zero3, OpcodeSelector, FieldSelectors, Encode, Pow2, Vanishes;
    RowEncodes(r);
    RowEncodes(s);
    var a, b := Encode(RowSelectors(r), r.opcode), Encode(RowSelectors(s), s.opcode);
    SameTransitive(r.inst, s.inst, b);
    SameTransitive(r.inst, a, b);
    EncodeUnique(RowSelectors(r), r.opcode, RowSelectors(s), s.opcode);
  }

  lemma RowEncodes(r: Row)
    requires MainRow(r) && OpcodeSelector(r) && InstructionEncode(r)
    requires FieldSelectors(r.isExt, r.sOp0) && FieldSelectors(r.isExt, r.sOp1) && FieldSelectors(r.isExt, r.sDst)
    ensures RowSelectors(r).Valid() && 0 <= r.opcode < Pow2(32)
    ensures Same(r.inst, Encode(RowSelectors(r), r.opcode))
  {
    hide Zero2, OpcodeSelector, FieldSelectors, Encode, Pow2;
    FieldBits(r.sOp0);
    FieldBits(r.sOp1);
    FieldBits(r.sDst);
    OpcodeRange(r);
    BitOf(r.op1Imm);
  }
}
