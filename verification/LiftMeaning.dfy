/** Lifting is faithful to the architecture: the IR instruction made from a word does
    what the word does, on every machine, exactly when the word is neither a B.cond
    with condition 15 nor a return through another register than X30. */
module LiftMeaning {
  import opened Words
  import opened Ir
  import opened Arm
  import opened Fields
  import opened Lift
  import opened LiftProof
  import OptimizerProof
  import opened Reference

  // ----- operands --------------------------------------------------------------------

  lemma ReadIsX(size: SizeCode, n: u16, sp: bool, m: Machine)
    requires n <= 31
    ensures InRange(LowerReg(size, n, sp)) && LowerReg(size, n, sp).width == WidthOf(size)
    ensures Read(m.regs, LowerReg(size, n, sp)) == if sp then XOrSP(m, n, WidthOf(size)) else X(m, n, WidthOf(size))
  {
  }

  lemma WriteIsSetX(size: SizeCode, n: u16, sp: bool, v: u64, m: Machine)
    requires n <= 31 && v < Modulus(WidthOf(size))
    ensures InRange(LowerReg(size, n, sp))
    ensures WriteBack(m, LowerReg(size, n, sp), v) == if sp then SetXOrSP(m, n, v) else SetX(m, n, v)
  {
    assert Mask(v, WidthOf(size)) == v;
  }

  lemma XBound(m: Machine, n: nat, w: RegWidth)
    ensures X(m, n, w) < Modulus(w) && XOrSP(m, n, w) < Modulus(w)
    ensures Mask(X(m, n, w), w) == X(m, n, w) && Mask(XOrSP(m, n, w), w) == XOrSP(m, n, w)
  {
  }

  lemma ShiftedIsShiftValue(style: ShiftStyle, w: RegWidth, v: u64, n: nat)
    requires n < Bits(w) && v < Modulus(w)
    ensures Shifted(style, w, v, n) ==
            match LowerShift(style) case Some(kind) => Some(ShiftValue(kind, w, v, n)) case None => None
    ensures Shifted(style, w, v, n).Some? ==> Shifted(style, w, v, n).value < Modulus(w)
  {
    hide ShiftValue;
    OptimizerProof.ShiftBound(Lsl, w, v, n);
    OptimizerProof.ShiftBound(Lsr, w, v, n);
    OptimizerProof.ShiftBound(Asr, w, v, n);
    OptimizerProof.ShiftBound(Ror, w, v, n);
  }

  /** A lowered operand evaluates to the operand's architectural value. */
  lemma SourceIsEval(op: A64Operand, size: SizeCode, m: Machine)
    requires OperandSane(op, size)
    ensures OperandInRange(LowerOperand(op))
    ensures Eval(LowerOperand(op), WidthOf(size), m.regs) == Source(op, WidthOf(size), m)
    ensures Source(op, WidthOf(size), m).Some? ==> Source(op, WidthOf(size), m).value < Modulus(WidthOf(size))
  {
    hide ShiftValue, Read, X, XOrSP, LowerReg, Shifted;
    var w := WidthOf(size);
    match op
    case Register(_, n) => ReadIsX(size, n, false, m); XBound(m, n, w);
    case RegisterOrSP(_, n) => ReadIsX(size, n, true, m); XBound(m, n, w);
    case RegShift(style, amount, _, n) =>
      XBound(m, n, w);
      if style != OtherStyle {
        ReadIsX(size, n, false, m);
      }
      if amount < Bits(w) {
        ShiftedIsShiftValue(style, w, X(m, n, w), amount);
      }
    case _ =>
  }

  lemma DestIsWrite(op: A64Operand, size: SizeCode, v: u64, m: Machine)
    requires IsRegister(op) && OperandSane(op, size) && v < Modulus(WidthOf(size))
    ensures LowerOperand(op).Reg? && InRange(LowerOperand(op).reg) && LowerOperand(op).reg.width == WidthOf(size) == WidthOf(op.size)
    ensures WriteBack(m, LowerOperand(op).reg, v) == SetDest(op, v, m)
  {
    hide WriteBack, SetX, SetXOrSP;
    WriteIsSetX(size, op.num, op.RegisterOrSP?, v, m);
  }

  // ----- decoded instructions ----------------------------------------------------------

  /** Opcodes lowered to a two-operand IR operation. */
  predicate IsData(op: A64Opcode, word: bv32) {
    IrOpcode(op, word).Some? && IsBinop(IrOpcode(op, word).value.0)
  }

  /** The IR operation and flag request of an opcode compute what the opcode computes. */
  lemma ComputeIsArith(word: bv32, op: A64Opcode, w: RegWidth, x: u64, y: u64)
    requires x < Modulus(w) && y < Modulus(w)
    ensures Compute(op, w, x, y).Some? ==>
              IsData(op, word)
              && var (ir, flags) := IrOpcode(op, word).value;
                 Compute(op, w, x, y).value.0 == Arith(ir, w, x, y).0
                 && Compute(op, w, x, y).value.1 == if flags % 2 == 1 then Some(Arith(ir, w, x, y).1) else None
    ensures Compute(op, w, x, y).None? ==> !IsData(op, word)
  {
    hide Bitwise, AddWithCarry, Signed;
  }

  lemma DataFlow(word: bv32, pc: u64, d: A64Inst, m: Machine)
    requires IsData(d.opcode, word)
    ensures VariableShift(d.opcode).None? && DecodedFlow(word, pc, d, m) == DataProcessing(d, m)
  {
    hide DataProcessing;
  }

  lemma DataIsArm(word: bv32, pc: u64, d: A64Inst, size: SizeCode, m: Machine)
    requires OperandsSane(d, size) && VariableShift(d.opcode).None?
    requires IsData(d.opcode, word)
    ensures InstInRange(DecodedInst(word, pc, d))
    ensures ExecInst(DecodedInst(word, pc, d), pc, m) == DataProcessing(d, m)
  {
    hide Arith, Compute, WriteBack, Eval, Source, OperandSane, LowerOperand, SetDest, Pack;
    SourceIsEval(d.op0, size, m);
    SourceIsEval(d.op1, size, m);
    SourceIsEval(d.op2, size, m);
    LoweredRegister(d.op0);
    var inst := DecodedInst(word, pc, d);
    assert ExecInst(inst, pc, m) == ExecBinop(inst, m);
    if IsRegister(d.op0) {
      DestIsWrite(d.op0, size, 0, m);
      var w := WidthOf(size);
      var x, y := Source(d.op1, w, m), Source(d.op2, w, m);
      if x.Some? && y.Some? {
        ComputeIsArith(word, d.opcode, w, x.value, y.value);
        DestIsWrite(d.op0, size, Arith(inst.opcode, w, x.value, y.value).0, m);
      }
    }
  }

  lemma LoweredRegister(op: A64Operand)
    ensures LowerOperand(op).Reg? <==> IsRegister(op)
    ensures LowerOperand(op).PCRelative? <==> op.PCOffset?
    ensures op.PCOffset? ==> LowerOperand(op).displacement == op.offset
  {
  }

  lemma ShiftIsArm(word: bv32, pc: u64, d: A64Inst, size: SizeCode, style: ShiftStyle, m: Machine)
    requires OperandsSane(d, size) && style != OtherStyle
    requires VariableShift(d.opcode) == LowerShift(style)
    ensures InstInRange(DecodedInst(word, pc, d))
    ensures ExecInst(DecodedInst(word, pc, d), pc, m) == ShiftByRegister(d, style, m)
  {
    hide ShiftValue, WriteBack, Eval, Source, OperandSane, LowerOperand, SetDest, Shifted;
    SourceIsEval(d.op0, size, m);
    SourceIsEval(d.op1, size, m);
    SourceIsEval(d.op2, size, m);
    LoweredRegister(d.op0);
    LoweredRegister(d.op1);
    LoweredRegister(d.op2);
    if IsRegister(d.op0) && IsRegister(d.op1) && IsRegister(d.op2) {
      var w := WidthOf(size);
      var x, y := Source(d.op1, w, m), Source(d.op2, w, m);
      AmountIsRead(d.op1, size, m);
      AmountIsRead(d.op2, size, m);
      DestIsWrite(d.op0, size, 0, m);
      var n := y.value % Bits(w);
      ShiftedIsShiftValue(style, w, x.value, n);
      DestIsWrite(d.op0, size, Shifted(style, w, x.value, n).value, m);
    }
  }

  lemma AmountIsRead(op: A64Operand, size: SizeCode, m: Machine)
    requires OperandSane(op, size) && IsRegister(op)
    ensures LowerOperand(op).Reg? && InRange(LowerOperand(op).reg)
    ensures Source(op, WidthOf(size), m) == Some(Read(m.regs, LowerOperand(op).reg))
  {
    hide Read, X, XOrSP, LowerReg;
    ReadIsX(size, op.num, op.RegisterOrSP?, m);
  }

  lemma OtherIsArm(word: bv32, pc: u64, d: A64Inst, size: SizeCode, m: Machine)
    requires OperandsSane(d, size) && d.opcode in {A64_HINT, A64_B, A64_RET} && IrOpcode(d.opcode, word).Some?
    requires d.opcode == A64_RET ==> d.op0.Register? && d.op0.num == 30
    ensures InstInRange(DecodedInst(word, pc, d))
    ensures ExecInst(DecodedInst(word, pc, d), pc, m) == DecodedFlow(word, pc, d, m)
  {
    hide Eval, OperandSane, LowerOperand, Source, Compute, SetDest, ExecBinop, Taken, LoadWord, StoreWord, Write, Read, ShiftValue, DataProcessing, ShiftByRegister;
    SourceIsEval(d.op0, size, m);
    SourceIsEval(d.op1, size, m);
    SourceIsEval(d.op2, size, m);
    LoweredRegister(d.op0);
    assert X(m, 30, X64) == m.regs.gpr[30];
  }

  /** An opcode that is not translated lifts to an unsupported instruction, and has no
      meaning in the reference either. */
  lemma UntranslatedIsStuck(word: bv32, pc: u64, d: A64Inst, m: Machine)
    requires !Translated(d.opcode, word)
    ensures DecodedInst(word, pc, d) == UnsupportedInst(word) && InstInRange(UnsupportedInst(word))
    ensures ExecInst(UnsupportedInst(word), pc, m) == Stuck == DecodedFlow(word, pc, d, m)
  {
    hide Source, SetDest, AddWithCarry, Bitwise, ShiftByRegister, DecodedInst;
    UntranslatedIsUnsupported(word, pc, d);
    UnsupportedHasNoMeaning(word, pc, m);
  }

  lemma DecodedIsArm(word: bv32, pc: u64, d: A64Inst, m: Machine)
    requires InstSane(word, d)
    requires d.opcode == A64_RET ==> d.op0.Register? && d.op0.num == 30
    ensures InstInRange(DecodedInst(word, pc, d))
    ensures ExecInst(DecodedInst(word, pc, d), pc, m) == DecodedFlow(word, pc, d, m)
  {
    hide DecodedInst, ExecInst, DecodedFlow, OperandsSane, Translated;
    if Translated(d.opcode, word) {
      var size :| OperandsSane(d, size);
      TranslatedIsArm(word, pc, d, size, m);
    } else {
      UntranslatedIsStuck(word, pc, d, m);
    }
  }

  lemma TranslatedIsArm(word: bv32, pc: u64, d: A64Inst, size: SizeCode, m: Machine)
    requires Translated(d.opcode, word) && OperandsSane(d, size)
    requires d.opcode == A64_RET ==> d.op0.Register? && d.op0.num == 30
    ensures InstInRange(DecodedInst(word, pc, d))
    ensures ExecInst(DecodedInst(word, pc, d), pc, m) == DecodedFlow(word, pc, d, m)
  {
    hide DecodedInst, ExecInst, DataProcessing, ShiftByRegister, OperandsSane, IsData;
    if VariableShift(d.opcode).None? && !IsData(d.opcode, word) {
      TranslatedKinds(word, d);
    }
    match d.opcode
    case A64_LSLV => ShiftIsArm(word, pc, d, size, LSL, m);
    case A64_LSRV => ShiftIsArm(word, pc, d, size, LSR, m);
    case A64_ASRV => ShiftIsArm(word, pc, d, size, ASR, m);
    case A64_RORV => ShiftIsArm(word, pc, d, size, ROR, m);
    case _ =>
      if IsData(d.opcode, word) {
        DataFlow(word, pc, d, m);
        DataIsArm(word, pc, d, size, m);
      } else {
        OtherIsArm(word, pc, d, size, m);
      }
  }

  lemma TranslatedKinds(word: bv32, d: A64Inst)
    requires Translated(d.opcode, word) && VariableShift(d.opcode).None? && !IsData(d.opcode, word)
    ensures d.opcode in {A64_HINT, A64_B, A64_RET} && IrOpcode(d.opcode, word).Some?
  {
  }

  // ----- words decoded from their bits -------------------------------------------------

  lemma RegisterOfField(n: nat, x: bool, m: Machine)
    requires n < 32
    ensures InRange(RegOfWidth(n, x)) && RegOfWidth(n, x).width == if x then X64 else W32
    ensures Read(m.regs, RegOfWidth(n, x)) == X(m, n, if x then X64 else W32)
    ensures forall v: u64 :: v < Modulus(if x then X64 else W32) ==> WriteBack(m, RegOfWidth(n, x), v) == SetX(m, n, v)
  {
  }

  lemma BCondIsArm(word: bv32, pc: u64, decode: Decoder, m: Machine)
    requires IsBCond(word)
    ensures InstInRange(LiftInst(word, pc, decode))
    ensures N4(Cond(word)) != 15 || N19(Imm19(word)) == 1 ==> ExecInst(LiftInst(word, pc, decode), pc, m) == BranchOnCondition(word, pc, m)
  {
    hide IsBCond, EncodeBCond, LiftInst, ConditionHolds, Unpack, Imm19, Cond, Signed19, N19, N4;
    BCondIsEncoding(word);
    BCondRoundTrip(Imm19(word), Cond(word), pc, decode);
    TargetIsNext(N19(Imm19(word)), pc);
    assert N4(Cond(word)) == 15 ==> ConditionHolds(15, Unpack(m.regs.nzcv)) by { AlwaysHolds(Unpack(m.regs.nzcv)); }
  }

  lemma AlwaysHolds(f: Nzcv)
    ensures ConditionHolds(15, f)
  {
  }

  /** The one-bit fields of a compare-and-branch word. */
  lemma CompareBranchBits(word: bv32)
    requires IsCbz(word) || IsCbnz(word)
    ensures ((word >> 31) & 1) as bv1 == 1 <==> Bit31(word)
    ensures ((word >> 24) & 1) as bv1 == 1 <==> IsCbnz(word)
  {
  }

  lemma CompareBranchIsArm(word: bv32, pc: u64, decode: Decoder, m: Machine)
    requires IsCbz(word) || IsCbnz(word)
    ensures InstInRange(LiftInst(word, pc, decode))
    ensures ExecInst(LiftInst(word, pc, decode), pc, m) == CompareAndBranchOn(word, pc, m)
  {
    hide IsCbz, IsCbnz, Bit31, EncodeCompareBranch, LiftInst, ConditionHolds, Imm19, Rt, Signed19, N19, N5, X, Read, RegOfWidth;
    var sf, op := ((word >> 31) & 1) as bv1, ((word >> 24) & 1) as bv1;
    CompareBranchBits(word);
    CompareBranchIsEncoding(word);
    CompareBranchRoundTrip(sf, op, Imm19(word), Rt(word), pc, decode);
    RegisterOfField(N5(Rt(word)), Bit31(word), m);
  }

  lemma MoveWideBits(word: bv32)
    requires IsMovz(word) || IsMovn(word)
    ensures ((word >> 31) & 1) as bv1 == 1 <==> Bit31(word)
    ensures ((word >> 31) & 1) as bv1 == 0 <==> !Bit31(word)
    ensures ((word >> 30) & 1) as bv1 == 0 <==> IsMovn(word)
  {
  }

  lemma MoveWideIsArm(word: bv32, pc: u64, decode: Decoder, m: Machine)
    requires IsMovz(word) || IsMovn(word)
    ensures InstInRange(LiftInst(word, pc, decode))
    ensures ExecInst(LiftInst(word, pc, decode), pc, m) == MoveWideImmediate(word, m)
  {
    hide IsMovz, IsMovn, Bit31, EncodeMoveWide, LiftInst, Hw, Imm16, Rt, N2, N5, N16, MoveWideResult, RegOfWidth, SetX, WriteBack;
    var sf, z := ((word >> 31) & 1) as bv1, ((word >> 30) & 1) as bv1;
    var x, hw, imm16 := Bit31(word), N2(Hw(word)), N16(Imm16(word));
    MoveWideBits(word);
    MoveWideIsEncoding(word);
    MoveWideRoundTrip(sf, z, Hw(word), Imm16(word), Rt(word), pc, decode);
    RegisterOfField(N5(Rt(word)), x, m);
    MoveWideBound(x, IsMovn(word), hw, imm16);
  }

  lemma MoveWideBound(x: bool, negate: bool, hw: nat, imm16: u16)
    requires hw < 4
    ensures MoveWideResult(x, negate, hw, imm16) < Modulus(if x then X64 else W32)
    ensures Mask(MoveWideResult(x, negate, hw, imm16), if x then X64 else W32) == MoveWideResult(x, negate, hw, imm16)
  {
    hide Scale;
  }

  lemma UnsignedMemBits(word: bv32)
    requires IsLdr(word) || IsStr(word)
    ensures ((word >> 30) & 1) as bv1 == 1 <==> Size(word) == 3
    ensures ((word >> 22) & 1) as bv1 == 1 <==> IsLdr(word)
  {
  }

  lemma UnsignedMemIsArm(word: bv32, pc: u64, decode: Decoder, m: Machine)
    requires IsLdr(word) || IsStr(word)
    ensures InstInRange(LiftInst(word, pc, decode))
    ensures ExecInst(LiftInst(word, pc, decode), pc, m) == LoadOrStore(word, m)
  {
    hide IsLdr, IsStr, Size, EncodeUnsignedMem, LiftInst, Imm12, Rn, Rt, N5, N12, LoadWord, StoreWord, RegOfWidth, SetX, WriteBack, X, XOrSP, Read;
    var x, load := ((word >> 30) & 1) as bv1, ((word >> 22) & 1) as bv1;
    UnsignedMemBits(word);
    UnsignedMemIsEncoding(word);
    UnsignedMemRoundTrip(x, load, Imm12(word), Rn(word), Rt(word), pc, decode);
    var w := if Size(word) == 3 then X64 else W32;
    RegisterOfField(N5(Rt(word)), Size(word) == 3, m);
    BaseOfField(N5(Rn(word)), m);
    XBound(m, N5(Rt(word)), w);
    LoadedBound(m.mem, w);
  }

  lemma BaseOfField(n: nat, m: Machine)
    requires n < 32
    ensures InRange(if n == 31 then XSP else XReg(n)) && Read(m.regs, if n == 31 then XSP else XReg(n)) == XOrSP(m, n, X64)
  {
  }

  lemma LoadedBound(mem: Memory, w: RegWidth)
    ensures forall a: u64 :: LoadWord(mem, a, w).Some? ==> LoadWord(mem, a, w).value < Modulus(w)
  {
  }

  // ----- every word --------------------------------------------------------------------

  /** Condition 15 of a B.cond not to the next instruction, and returns through a register other than X30. */
  predicate Plain(word: bv32, decode: Decoder) {
    && (IsBCond(word) ==> N4(Cond(word)) != 15 || N19(Imm19(word)) == 1)
    && (!HandDecoded(word) && decode(word).Some? && decode(word).value.opcode == A64_RET ==>
          decode(word).value.op0.Register? && decode(word).value.op0.num == 30)
  }

  /** The lifted instruction does what the word does, on every machine. */
  ghost predicate MeansTheSame(word: bv32, pc: u64, decode: Decoder) {
    InstInRange(LiftInst(word, pc, decode))
    && forall m: Machine :: ExecInst(LiftInst(word, pc, decode), pc, m) == ArmInst(word, pc, decode, m)
  }

  lemma PlainIsArm(word: bv32, pc: u64, decode: Decoder, m: Machine)
    requires WordSane(word, decode) && Plain(word, decode)
    ensures InstInRange(LiftInst(word, pc, decode))
    ensures ExecInst(LiftInst(word, pc, decode), pc, m) == ArmInst(word, pc, decode, m)
  {
    hide IsBCond, IsCbz, IsCbnz, IsMovz, IsMovn, IsLdr, IsStr, ExecInst, DecodedInst, DecodedFlow, InstSane, LiftInst;
    if IsBCond(word) {
      BCondIsArm(word, pc, decode, m);
    } else if IsCbz(word) || IsCbnz(word) {
      CompareBranchIsArm(word, pc, decode, m);
    } else if IsMovz(word) || IsMovn(word) {
      MoveWideIsArm(word, pc, decode, m);
    } else if IsLdr(word) || IsStr(word) {
      UnsignedMemIsArm(word, pc, decode, m);
    } else {
      LiftsDecoded(word, pc, decode);
      if decode(word).Some? {
        DecodedIsArm(word, pc, decode(word).value, m);
      } else {
        UnsupportedHasNoMeaning(word, pc, m);
      }
    }
  }

  lemma LiftsDecoded(word: bv32, pc: u64, decode: Decoder)
    requires !HandDecoded(word)
    ensures LiftInst(word, pc, decode) ==
            match decode(word) case Some(d) => DecodedInst(word, pc, d) case None => UnsupportedInst(word)
  {
    hide IsBCond, IsCbz, IsCbnz, IsMovz, IsMovn, IsLdr, IsStr, DecodedInst, UnsupportedInst;
  }

  lemma UnsupportedHasNoMeaning(word: bv32, pc: u64, m: Machine)
    ensures InstInRange(UnsupportedInst(word)) && ExecInst(UnsupportedInst(word), pc, m) == Stuck
  {
  }

  lemma NeverIsNotAlways(word: bv32, pc: u64, decode: Decoder)
    requires IsBCond(word) && N4(Cond(word)) == 15 && N19(Imm19(word)) != 1
    ensures !MeansTheSame(word, pc, decode)
  {
    hide IsBCond, EncodeBCond, LiftInst, Imm19, Cond, Signed19, N19, N4, ConditionHolds, Unpack;
    BCondIsEncoding(word);
    BCondRoundTrip(Imm19(word), Cond(word), pc, decode);
    TargetIsNext(N19(Imm19(word)), pc);
    var m := Machine(ZERO_REGS, map[]);
    AlwaysHolds(Unpack(m.regs.nzcv));
    assert ExecInst(LiftInst(word, pc, decode), pc, m).jump.regs.pc == AddPc(pc, 4);
    assert ArmInst(word, pc, decode, m).jump.regs.pc == Target(word, pc);
  }

  lemma ReturnsElsewhere(word: bv32, pc: u64, decode: Decoder)
    requires !HandDecoded(word) && decode(word).Some? && decode(word).value.opcode == A64_RET
    requires !(decode(word).value.op0.Register? && decode(word).value.op0.num == 30)
    ensures !MeansTheSame(word, pc, decode)
  {
    hide IsBCond, IsCbz, IsCbnz, IsMovz, IsMovn, IsLdr, IsStr, LiftInst;
    LiftsDecoded(word, pc, decode);
    var inst, d := LiftInst(word, pc, decode), decode(word).value;
    var m := Machine(ZERO_REGS.(gpr := ZERO_REGS.gpr[30 := 1]), map[]);
    assert inst.opcode == Ret;
    if InstInRange(inst) {
      assert ExecInst(inst, pc, m).jump.regs.pc == 1;
      assert ArmInst(word, pc, decode, m) == DecodedFlow(word, pc, d, m);
      if d.op0.Register? {
        assert X(m, d.op0.num, X64) == 0;
      }
    }
  }

  /** Lifting agrees with the architecture exactly on the plain words. */
  lemma LiftMeansTheSame(word: bv32, pc: u64, decode: Decoder)
    requires WordSane(word, decode)
    ensures MeansTheSame(word, pc, decode) <==> Plain(word, decode)
  {
    hide IsBCond, IsCbz, IsCbnz, IsMovz, IsMovn, IsLdr, IsStr, ExecInst, ArmInst, LiftInst, WordSane;
    if Plain(word, decode) {
      var zero := Machine(ZERO_REGS, map[]);
      PlainIsArm(word, pc, decode, zero);
      forall m: Machine
        ensures ExecInst(LiftInst(word, pc, decode), pc, m) == ArmInst(word, pc, decode, m)
      {
        PlainIsArm(word, pc, decode, m);
      }
    } else if IsBCond(word) && N4(Cond(word)) == 15 && N19(Imm19(word)) != 1 {
      NeverIsNotAlways(word, pc, decode);
    } else {
      ReturnsElsewhere(word, pc, decode);
    }
  }
}
