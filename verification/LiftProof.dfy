/** Round trips between instruction fields and words, and well-formedness of
    everything that is lifted. */
module LiftProof {
  import opened Words
  import opened Ir
  import opened Arm
  import opened Fields
  import opened Lift
  import opened OptimizerProof

  /** Two's-complement value of a 19-bit field. */
  function Signed19(field: nat): int
    requires field < 0x8_0000
  {
    if field < 0x4_0000 then field else field - 0x8_0000
  }

  lemma SignExtend19IsSigned(field: nat)
    requires field < 0x8_0000
    ensures SignExtend19(field) == 4 * Signed19(field)
  {
  }

  /** The instruction that a B.cond at `pc` with these fields stands for. */
  function BCondInst(imm19: nat, cond: u8, pc: u64): IRInst
    requires imm19 < 0x8_0000
  {
    IRInst(BranchCond, 0, GuestPc(AddPc(pc, 4 * Signed19(imm19))), Imm(cond), NoOperand)
  }

  function CompareBranchInst(x: bool, nonzero: bool, imm19: nat, rt: u8, pc: u64): IRInst
    requires imm19 < 0x8_0000
  {
    IRInst(BranchCond, 0, GuestPc(AddPc(pc, 4 * Signed19(imm19))), Reg(RegOfWidth(rt, x)), Imm(if nonzero then 1 else 0))
  }

  lemma TargetIsSigned(word: bv32, pc: u64)
    ensures BranchTarget(word, pc) == AddPc(pc, 4 * Signed19(N19(Imm19(word))))
  {
    hide Imm19, SignExtend19;
    SignExtend19IsSigned(N19(Imm19(word)));
  }

  /** B.cond: both fields come back, at any address and whatever the decoder says. */
  lemma BCondRoundTrip(imm19: bv19, cond: bv4, pc: u64, decode: Decoder)
    ensures LiftInst(EncodeBCond(imm19, cond), pc, decode) == BCondInst(N19(imm19), N4(cond), pc)
  {
    hide N19, N4, EncodeBCond, IsBCond, Imm19, Cond, BranchTarget, MoveWide, UnsignedMem, DecodedInst, Signed19;
    BCondFields(imm19, cond);
    TargetIsSigned(EncodeBCond(imm19, cond), pc);
  }

  lemma CompareBranchRoundTrip(sf: bv1, op: bv1, imm19: bv19, rt: bv5, pc: u64, decode: Decoder)
    ensures LiftInst(EncodeCompareBranch(sf, op, imm19, rt), pc, decode) ==
            CompareBranchInst(sf == 1, op == 1, N19(imm19), N5(rt), pc)
  {
    hide EncodeCompareBranch, IsBCond, IsCbz, IsCbnz, Bit31, Imm19, Rt, BranchTarget, MoveWide, UnsignedMem, DecodedInst, Signed19, RegOfWidth;
    hide N19, N5;
    CompareBranchFields(sf, op, imm19, rt);
    TargetIsSigned(EncodeCompareBranch(sf, op, imm19, rt), pc);
  }

  /** The architectural result of MOVZ/MOVN: the shifted immediate, or its complement, at the width. */
  function MoveWideResult(x: bool, negate: bool, hw: nat, imm16: u16): u64
    requires hw < 4
  {
    var w := if x then X64 else W32;
    var shifted := Mask(Scale(imm16, 16 * hw), w);
    if negate then Modulus(w) - 1 - shifted else shifted
  }

  lemma WideValueIsScale(imm16: u16, hw: nat)
    requires hw < 4
    ensures WideValue(imm16, hw) == Scale(imm16, 16 * hw)
  {
    hide Pow2;
    Pow2Zero();
    Pow2Values();
    Pow2Add(32, 16);
    assert 16 * hw == 0 || 16 * hw == 16 || 16 * hw == 32 || 16 * hw == 48;
  }

  /** Complementing 64 bits and truncating is complementing 32 bits. */
  lemma ComplementTruncates(v: u64)
    ensures (P64 - 1 - v) % P32 == P32 - 1 - v % P32
  {
    DivModUnique(P64 - 1 - v, P32, P32 - 1 - v / P32, P32 - 1 - v % P32);
  }

  lemma WideConstantIsResult(x: bool, negate: bool, hw: nat, imm16: u16)
    requires hw < 4
    ensures WideConstant(x, negate, hw, imm16) == MoveWideResult(x, negate, hw, imm16)
  {
    hide Scale, WideValue, Pow2;
    var v := WideValue(imm16, hw);
    WideValueIsScale(imm16, hw);
    ComplementTruncates(v);
    assert x ==> Mask(v, X64) == v;
  }

  function MoveWideInst(x: bool, negate: bool, hw: nat, imm16: u16, rd: u8): IRInst
    requires hw < 4
  {
    IRInst(Mov, 0, Reg(RegOfWidth(rd, x)), Imm(MoveWideResult(x, negate, hw, imm16)), NoOperand)
  }

  /** MOVZ/MOVN: destination and constant come back; a W move of a high halfword is unsupported. */
  lemma MoveWideRoundTrip(sf: bv1, z: bv1, hw: bv2, imm16: bv16, rd: bv5, pc: u64, decode: Decoder)
    ensures LiftInst(EncodeMoveWide(sf, z, hw, imm16, rd), pc, decode) ==
            if sf == 0 && N2(hw) > 1 then UnsupportedInst(EncodeMoveWide(sf, z, hw, imm16, rd))
            else MoveWideInst(sf == 1, z == 0, N2(hw), N16(imm16), N5(rd))
  {
    hide EncodeMoveWide, IsBCond, IsCbz, IsCbnz, IsMovz, IsMovn, Bit31, Hw, Imm16, Rt;
    hide UnsignedMem, DecodedInst, MoveWideResult, WideConstant, RegOfWidth, BranchTarget;
    hide N2, N5, N16, UnsupportedInst;
    MoveWideFields(sf, z, hw, imm16, rd);
    WideConstantIsResult(sf == 1, z == 0, N2(hw), N16(imm16));
  }

  function UnsignedMemInst(x: bool, load: bool, imm12: nat, rn: u8, rt: u8): IRInst
    requires rn < 32 && imm12 < 0x1000
  {
    var mem, reg := Mem(MemOf(rn, imm12, x)), Reg(RegOfWidth(rt, x));
    if load then IRInst(Load, 0, reg, mem, NoOperand) else IRInst(Store, 0, mem, reg, NoOperand)
  }

  /** LDR/STR with a scaled offset: base (SP for 31), byte offset, width and register come back. */
  lemma UnsignedMemRoundTrip(x: bv1, load: bv1, imm12: bv12, rn: bv5, rt: bv5, pc: u64, decode: Decoder)
    ensures LiftInst(EncodeUnsignedMem(x, load, imm12, rn, rt), pc, decode) ==
            UnsignedMemInst(x == 1, load == 1, N12(imm12), N5(rn), N5(rt))
  {
    hide EncodeUnsignedMem, IsBCond, IsCbz, IsCbnz, IsMovz, IsMovn, IsLdr, IsStr, Size, Imm12, Rn, Rt;
    hide Bit31, DecodedInst, RegOfWidth, MemOf, BranchTarget, N12, N5;
    UnsignedMemFields(x, load, imm12, rn, rt);
  }

  lemma TargetIsNext(field: nat, pc: u64)
    requires field < 0x8_0000
    ensures AddPc(pc, 4 * Signed19(field)) == AddPc(pc, 4) <==> field == 1
  {
  }

  /** Classes that are decoded from bits alone. */
  predicate HandDecoded(word: bv32) {
    IsBCond(word) || IsCbz(word) || IsCbnz(word) || IsMovz(word) || IsMovn(word) || IsLdr(word) || IsStr(word)
  }

  // ----- well-formedness of lifted code ----------------------------------------------

  /** A register operand exists, has the given size, and is shifted in range.  Nothing is
      asked of an operand that lifting does not translate. */
  predicate OperandSane(op: A64Operand, size: SizeCode) {
    match op
    case Register(s, n) => s == size && n <= 31
    case RegisterOrSP(s, n) => s == size && n <= 31
    case RegShift(style, amount, s, n) =>
      style != OtherStyle ==> s == size && n <= 31 && amount < (if size == SizeX then 64 else 32)
    case ImmShift(_, lsl) => lsl < 64
    case _ => true
  }

  predicate OperandsSane(d: A64Inst, size: SizeCode) {
    OperandSane(d.op0, size) && OperandSane(d.op1, size) && OperandSane(d.op2, size)
  }

  /** Opcodes that lifting translates; the others become unsupported instructions. */
  predicate Translated(op: A64Opcode, word: bv32) {
    VariableShift(op).Some? || IrOpcode(op, word).Some?
  }

  /** The translated operands of a translated instruction have one size and real register numbers. */
  predicate InstSane(word: bv32, d: A64Inst) {
    Translated(d.opcode, word) ==> exists size :: OperandsSane(d, size)
  }

  predicate WordSane(word: bv32, decode: Decoder) {
    decode(word).Some? ==> InstSane(word, decode(word).value)
  }

  /** What is assumed of the decoder. */
  ghost predicate DecoderSane(decode: Decoder) {
    forall word :: WordSane(word, decode)
  }

  /** Mixed sizes are no obstacle where A64 has them: neither the extended register of
      `add x0, x1, w2, uxtw` nor the operands of `smaddl x0, w1, w2, x3` are translated. */
  lemma MixedSizesSane(word: bv32)
    ensures InstSane(word, A64Inst(A64_ADD, Register(SizeX, 0), Register(SizeX, 1), RegShift(OtherStyle, 0, SizeW, 2)))
    ensures InstSane(word, A64Inst(A64_Other, Register(SizeX, 0), Register(SizeW, 1), Register(SizeW, 2)))
  {
    assert OperandsSane(A64Inst(A64_ADD, Register(SizeX, 0), Register(SizeX, 1), RegShift(OtherStyle, 0, SizeW, 2)), SizeX);
  }

  /** An unsupported instruction still tells which word it was. */
  lemma UnsupportedKeepsWord(word: bv32)
    ensures UnsupportedInst(word).a.RawInst? && UnsupportedInst(word).a.word as bv32 == word
  {
  }

  lemma UntranslatedIsUnsupported(word: bv32, pc: u64, d: A64Inst)
    requires !Translated(d.opcode, word)
    ensures DecodedInst(word, pc, d) == UnsupportedInst(word)
  {
    hide LowerOperand, VariableShiftInst;
  }

  lemma LowerOperandSane(op: A64Operand, size: SizeCode)
    requires OperandSane(op, size)
    ensures OperandInRange(LowerOperand(op)) && OperandFits(LowerOperand(op), if size == SizeX then X64 else W32)
    ensures LowerOperand(op).Reg? ==> LowerOperand(op).reg.width == if size == SizeX then X64 else W32
  {
  }

  lemma ShiftWellFormed(d: A64Inst, kind: ShiftKind, size: SizeCode)
    requires OperandsSane(d, size)
    ensures var i := VariableShiftInst(d, kind); i.Some? ==> WellFormed(i.value) && ShiftConsistent(i.value)
  {
    hide LowerOperand, OperandSane;
    LowerOperandSane(d.op0, size);
    LowerOperandSane(d.op1, size);
    LowerOperandSane(d.op2, size);
  }

  lemma OpcodeWellFormed(op: A64Opcode, word: bv32, a: Operand, b: Operand, c: Operand, w: RegWidth)
    requires OperandInRange(a) && OperandInRange(b) && OperandInRange(c) && OperandFits(b, w) && OperandFits(c, w)
    requires a.Reg? ==> a.reg.width == w
    requires IrOpcode(op, word).Some?
    ensures var i := IRInst(IrOpcode(op, word).value.0, IrOpcode(op, word).value.1, a, b, c);
            WellFormed(i) && ShiftConsistent(i)
  {
    hide OperandInRange, OperandFits;
  }

  lemma PlainOperands(word: bv32)
    ensures WellFormed(UnsupportedInst(word)) && ShiftConsistent(UnsupportedInst(word))
    ensures forall t: u64 :: OperandInRange(GuestPc(t))
  {
  }

  lemma TranslatedWellFormed(word: bv32, pc: u64, d: A64Inst, size: SizeCode)
    requires Translated(d.opcode, word) && OperandsSane(d, size)
    ensures WellFormed(DecodedInst(word, pc, d)) && ShiftConsistent(DecodedInst(word, pc, d))
  {
    hide LowerOperand, OperandSane, VariableShiftInst, WellFormed, ShiftConsistent, UnsupportedInst, IrOpcode, OperandInRange, OperandFits;
    PlainOperands(word);
    if VariableShift(d.opcode).Some? {
      ShiftWellFormed(d, VariableShift(d.opcode).value, size);
    } else {
      LowerOperandSane(d.op0, size);
      LowerOperandSane(d.op1, size);
      LowerOperandSane(d.op2, size);
      var w := if size == SizeX then X64 else W32;
      var a, b, c := LowerOperand(d.op0), LowerOperand(d.op1), LowerOperand(d.op2);
      OpcodeWellFormed(d.opcode, word, a, b, c, w);
      if a.PCRelative? {
        OpcodeWellFormed(d.opcode, word, GuestPc(AddPc(pc, a.displacement)), b, c, w);
      }
    }
  }

  lemma DecodedWellFormed(word: bv32, pc: u64, d: A64Inst)
    requires InstSane(word, d)
    ensures WellFormed(DecodedInst(word, pc, d)) && ShiftConsistent(DecodedInst(word, pc, d))
  {
    hide OperandsSane, DecodedInst, WellFormed, ShiftConsistent, UnsupportedInst, Translated;
    if Translated(d.opcode, word) {
      var size :| OperandsSane(d, size);
      TranslatedWellFormed(word, pc, d, size);
    } else {
      UntranslatedIsUnsupported(word, pc, d);
      PlainOperands(word);
    }
  }

  /** Everything lifted satisfies the assumptions of the optimizer and the backend. */
  lemma LiftWellFormed(word: bv32, pc: u64, decode: Decoder)
    requires WordSane(word, decode)
    ensures WellFormed(LiftInst(word, pc, decode)) && ShiftConsistent(LiftInst(word, pc, decode))
  {
    hide ConditionalBranch, MoveWide, UnsignedMem, DecodedInst, WellFormed, ShiftConsistent, InstSane, UnsupportedInst;
    HandDecodedWellFormed(word, pc);
    if decode(word).Some? {
      DecodedWellFormed(word, pc, decode(word).value);
    }
  }

  lemma HandDecodedWellFormed(word: bv32, pc: u64)
    ensures WellFormed(UnsupportedInst(word)) && ShiftConsistent(UnsupportedInst(word))
    ensures var b := ConditionalBranch(word, pc); b.Some? ==> WellFormed(b.value) && ShiftConsistent(b.value)
    ensures var w := MoveWide(word); w.Some? ==> WellFormed(w.value) && ShiftConsistent(w.value)
    ensures var l := UnsignedMem(word, true);
            l.Some? ==> var i := IRInst(Load, 0, l.value.0, l.value.1, NoOperand); WellFormed(i) && ShiftConsistent(i)
    ensures var t := UnsignedMem(word, false);
            t.Some? ==> var i := IRInst(Store, 0, t.value.1, t.value.0, NoOperand); WellFormed(i) && ShiftConsistent(i)
  {
    hide IsBCond, IsCbz, IsCbnz, IsMovz, IsMovn, IsLdr, IsStr, Bit31, Size, Rt, Rn, Hw, Imm12, Imm16, Cond, BranchTarget, WideConstant;
  }

  lemma {:induction false} LiftAllWellFormed(words: seq<bv32>, pc: u64, decode: Decoder)
    requires DecoderSane(decode)
    ensures AllWellFormed(LiftAll(words, pc, decode)) && AllShiftsConsistent(LiftAll(words, pc, decode))
    decreases |words|
  {
    hide LiftInst, WellFormed, ShiftConsistent, WordSane;
    if words != [] {
      LiftWellFormed(words[0], pc, decode);
      LiftAllWellFormed(words[1..], AddPc(pc, 4), decode);
    }
  }
}
