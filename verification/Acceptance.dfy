/** Exactly which blocks, and which guest words, the translator accepts. */
module Acceptance {
  import opened Words
  import opened Ir
  import opened Arm
  import opened Codegen
  import opened Fields
  import Isel
  import opened Lift
  import opened LiftProof
  import opened Optimizer
  import opened Pipeline
  import opened Dispatch
  import X86

  // ----- instructions ------------------------------------------------------------------

  predicate IsData(op: Operand) {
    op.Reg? || op.Imm? || op.ShiftedImm? || op.ShiftedReg?
  }

  /** What the backend implements, by opcode and operand shapes alone. */
  predicate Supported(inst: IRInst) {
    match inst.opcode
    case Nop => true
    case Mov => inst.a.Reg? && IsData(inst.b)
    case Add => inst.a.Reg? && IsData(inst.b) && IsData(inst.c)
    case Sub => inst.a.Reg? && IsData(inst.b) && IsData(inst.c)
    case And => inst.a.Reg? && IsData(inst.b) && IsData(inst.c)
    case Orr => inst.a.Reg? && IsData(inst.b) && IsData(inst.c)
    case Eor => inst.a.Reg? && IsData(inst.b) && IsData(inst.c)
    case Shift => inst.a.Reg? && IsData(inst.b) && inst.c.ShiftReg?
    case Load => inst.a.Reg? && inst.b.Mem?
    case Store => inst.a.Mem? && inst.b.Reg?
    case Branch => inst.a.GuestPc?
    case BranchCond =>
      inst.a.GuestPc? &&
      ((inst.b.Imm? && inst.b.imm < 16 && inst.c.NoOperand?) || (inst.b.Reg? && inst.c.Imm? && inst.c.imm < 2))
    case Ret => true
    case Unsupported => false
    case Extend => false
    case Compare => false
    case Call => false
  }

  /** No exit comes before slot `i`. */
  predicate Reached(insts: seq<IRInst>, i: nat)
    requires i < |insts|
  {
    forall j :: 0 <= j < i ==> !EndsBlock(insts[j].opcode)
  }

  /** Every slot up to and including the first exit is supported. */
  predicate AllSupported(insts: seq<IRInst>) {
    forall i :: 0 <= i < |insts| && Reached(insts, i) ==> Supported(insts[i])
  }

  lemma StraightSupported(inst: IRInst)
    requires !EndsBlock(inst.opcode)
    ensures LowerStraight(inst).Ok? <==> Supported(inst)
  {
    hide LoadReg, StoreReg, ShiftBy, Materialize, Isel.IsImmediateCandidate;
    if IsBinop(inst.opcode) {
      CandidateHasImmediate(inst);
    }
  }

  lemma ExitSupported(inst: IRInst, next: u64)
    requires EndsBlock(inst.opcode)
    ensures LowerExit(inst, next).Ok? <==> Supported(inst)
  {
    hide LoadReg, SetPcRet, ConditionTable, ReturnCode;
  }

  lemma AllSupportedUnfold(insts: seq<IRInst>)
    requires insts != []
    ensures AllSupported(insts) <==>
            Supported(insts[0]) && (EndsBlock(insts[0].opcode) || AllSupported(insts[1..]))
  {
    hide Supported, EndsBlock;
    assert Reached(insts, 0);
    if AllSupported(insts) && !EndsBlock(insts[0].opcode) {
      forall i | 0 <= i < |insts[1..]| && Reached(insts[1..], i)
        ensures Supported(insts[1..][i])
      {
        assert forall j :: 0 < j < i + 1 ==> insts[j] == insts[1..][j - 1];
        assert Reached(insts, i + 1);
      }
    }
    if Supported(insts[0]) && (EndsBlock(insts[0].opcode) || AllSupported(insts[1..])) {
      forall i | 0 <= i < |insts| && Reached(insts, i)
        ensures Supported(insts[i])
      {
        if i > 0 {
          assert forall j :: 0 <= j < i - 1 ==> insts[1..][j] == insts[j + 1];
          assert Reached(insts[1..], i - 1);
        }
      }
    }
  }

  /** A block is accepted if and only if every slot up to its first exit is supported. */
  lemma {:induction false} LowerAccepts(insts: seq<IRInst>, pc: u64, endPc: u64)
    ensures Lower(insts, pc, endPc).Ok? <==> AllSupported(insts)
    decreases |insts|
  {
    hide LowerStraight, LowerExit, SetPcRet, Supported, AllSupported, AddPc;
    if insts == [] {
      assert AllSupported(insts) by { NothingToSupport(); }
    } else {
      AllSupportedUnfold(insts);
      if EndsBlock(insts[0].opcode) {
        ExitSupported(insts[0], AddPc(pc, 4));
      } else {
        StraightSupported(insts[0]);
        LowerAccepts(insts[1..], AddPc(pc, 4), endPc);
      }
    }
  }

  lemma NothingToSupport()
    ensures AllSupported([])
  {
  }

  lemma BlockAccepted(guestPc: u64, insts: seq<IRInst>, byteLen: u64)
    ensures LowerBlock(guestPc, insts, byteLen).Ok? <==> AllSupported(insts)
  {
    hide Lower, AllSupported;
    LowerAccepts(insts, guestPc, if insts == [] then guestPc else AddPc(guestPc, byteLen));
  }

  /** Opcodes with no code are reported as such, everything else refused as an operand. */
  lemma RefusalReason(inst: IRInst)
    requires !EndsBlock(inst.opcode) && LowerStraight(inst).Err?
    ensures LowerStraight(inst).error ==
            if inst.opcode in {Unsupported, Extend, Compare, Call} then UnsupportedOpcode(inst.opcode)
            else UnsupportedOperand
  {
    hide LoadReg, StoreReg, ShiftBy, Materialize, Isel.IsImmediateCandidate;
  }

  // ----- words -------------------------------------------------------------------------

  predicate IsDataOperand(op: A64Operand) {
    match op
    case Register(_, _) => true
    case RegisterOrSP(_, _) => true
    case Immediate(_) => true
    case Imm64(_) => true
    case HalfImm(_) => true
    case ImmShift(_, _) => true
    case RegShift(style, _, _, _) => style != OtherStyle
    case _ => false
  }

  predicate IsAnyRegister(op: A64Operand) {
    op.Register? || op.RegisterOrSP?
  }

  /** The decoded instructions that are translated. */
  predicate DecodedSupported(word: bv32, d: A64Inst) {
    match d.opcode
    case A64_HINT => word == 0xd503_201f
    case A64_B => d.op0.PCOffset?
    case A64_RET => true
    case A64_LSLV => IsAnyRegister(d.op0) && IsAnyRegister(d.op1) && IsAnyRegister(d.op2)
    case A64_LSRV => IsAnyRegister(d.op0) && IsAnyRegister(d.op1) && IsAnyRegister(d.op2)
    case A64_ASRV => IsAnyRegister(d.op0) && IsAnyRegister(d.op1) && IsAnyRegister(d.op2)
    case A64_RORV => IsAnyRegister(d.op0) && IsAnyRegister(d.op1) && IsAnyRegister(d.op2)
    case A64_ADD => IsAnyRegister(d.op0) && IsDataOperand(d.op1) && IsDataOperand(d.op2)
    case A64_ADDS => IsAnyRegister(d.op0) && IsDataOperand(d.op1) && IsDataOperand(d.op2)
    case A64_SUB => IsAnyRegister(d.op0) && IsDataOperand(d.op1) && IsDataOperand(d.op2)
    case A64_SUBS => IsAnyRegister(d.op0) && IsDataOperand(d.op1) && IsDataOperand(d.op2)
    case A64_AND => IsAnyRegister(d.op0) && IsDataOperand(d.op1) && IsDataOperand(d.op2)
    case A64_ANDS => IsAnyRegister(d.op0) && IsDataOperand(d.op1) && IsDataOperand(d.op2)
    case A64_ORR => IsAnyRegister(d.op0) && IsDataOperand(d.op1) && IsDataOperand(d.op2)
    case A64_EOR => IsAnyRegister(d.op0) && IsDataOperand(d.op1) && IsDataOperand(d.op2)
    case _ => false
  }

  /** The guest words that are translated: every conditional branch, wide move and scaled load
      or store, except a W move of a high halfword, and the decoded instructions above. */
  predicate WordSupported(word: bv32, decode: Decoder) {
    if IsMovz(word) || IsMovn(word) then Bit31(word) || N2(Hw(word)) <= 1
    else if HandDecoded(word) then true
    else decode(word).Some? && DecodedSupported(word, decode(word).value)
  }

  lemma LoweredShape(op: A64Operand)
    ensures IsData(LowerOperand(op)) <==> IsDataOperand(op)
    ensures LowerOperand(op).Reg? <==> IsAnyRegister(op)
    ensures LowerOperand(op).PCRelative? <==> op.PCOffset?
  {
  }

  lemma DecodedIsSupported(word: bv32, pc: u64, d: A64Inst)
    ensures Supported(DecodedInst(word, pc, d)) <==> DecodedSupported(word, d)
  {
    hide LowerOperand, IsData, IsDataOperand, IsAnyRegister;
    LoweredShape(d.op0);
    LoweredShape(d.op1);
    LoweredShape(d.op2);
    RegistersAreData(LowerOperand(d.op1));
  }

  lemma RegistersAreData(op: Operand)
    ensures op.Reg? ==> IsData(op)
  {
  }

  lemma HandDecodedIsSupported(word: bv32, pc: u64)
    ensures var b := ConditionalBranch(word, pc); b.Some? ==> Supported(b.value)
    ensures var w := MoveWide(word); w.Some? ==> (Supported(w.value) <==> Bit31(word) || N2(Hw(word)) <= 1)
    ensures var l := UnsignedMem(word, true);
            l.Some? ==> Supported(IRInst(Load, 0, l.value.0, l.value.1, NoOperand))
    ensures var t := UnsignedMem(word, false);
            t.Some? ==> Supported(IRInst(Store, 0, t.value.1, t.value.0, NoOperand))
    ensures !Supported(UnsupportedInst(word))
  {
    hide IsBCond, IsCbz, IsCbnz, IsMovz, IsMovn, IsLdr, IsStr, Bit31, Size, Rt, Rn, Hw, Imm12, Imm16, Cond, BranchTarget, WideConstant;
  }

  lemma HandDecodedForms(word: bv32, pc: u64)
    ensures ConditionalBranch(word, pc).Some? <==> IsBCond(word) || IsCbz(word) || IsCbnz(word)
    ensures MoveWide(word).Some? <==> IsMovz(word) || IsMovn(word)
    ensures UnsignedMem(word, true).Some? <==> IsLdr(word)
    ensures UnsignedMem(word, false).Some? <==> IsStr(word)
  {
    hide IsBCond, IsCbz, IsCbnz, IsMovz, IsMovn, IsLdr, IsStr, Bit31, Size, Rt, Rn, Hw, Imm12, Imm16, Cond, BranchTarget, WideConstant;
  }

  /** The instruction of a word is supported if and only if the word is. */
  lemma LiftedIsSupported(word: bv32, pc: u64, decode: Decoder)
    ensures Supported(LiftInst(word, pc, decode)) <==> WordSupported(word, decode)
  {
    hide ConditionalBranch, MoveWide, UnsignedMem, DecodedInst, Supported, UnsupportedInst, DecodedSupported;
    hide IsBCond, IsCbz, IsCbnz, IsMovz, IsMovn, IsLdr, IsStr, Bit31, Hw, N2;
    HandDecodedIsSupported(word, pc);
    HandDecodedForms(word, pc);
    ClassesDisjoint(word);
    if decode(word).Some? {
      DecodedIsSupported(word, pc, decode(word).value);
    }
  }

  // ----- windows -----------------------------------------------------------------------

  predicate WindowSupported(words: seq<bv32>, decode: Decoder) {
    forall i :: 0 <= i < Consumed(words, decode) ==> WordSupported(words[i], decode)
  }

  lemma SupportedWindowSlots(words: seq<bv32>, guestPc: u64, decode: Decoder)
    ensures WindowSupported(words, decode) <==>
            forall i :: 0 <= i < |Window(words, guestPc, decode)| ==> Supported(Window(words, guestPc, decode)[i])
  {
    hide WordSupported, Supported, Consumed, LiftInst, AddPc;
    var n := Consumed(words, decode);
    var insts := Window(words, guestPc, decode);
    forall i | 0 <= i < n
      ensures Supported(insts[i]) <==> WordSupported(words[i], decode)
    {
      LiftAllAt(words[..n], guestPc, decode, i);
      LiftedIsSupported(words[i], AddPc(guestPc, 4 * i), decode);
    }
    if WindowSupported(words, decode) {
      assert forall i :: 0 <= i < |insts| ==> WordSupported(words[i], decode);
    }
  }

  /** Slot `i` of a lifted window is the instruction of word `i` at its own address. */
  lemma {:induction false} LiftAllAt(words: seq<bv32>, pc: u64, decode: Decoder, i: nat)
    requires i < |words|
    ensures LiftAll(words, pc, decode)[i] == LiftInst(words[i], AddPc(pc, 4 * i), decode)
    decreases i
  {
    hide LiftInst, AddPc;
    NextWord(pc, i);
    if i > 0 {
      LiftAllAt(words[1..], AddPc(pc, 4), decode, i - 1);
    }
  }

  /** A window is translated if and only if it has no unsupported slot and every slot that is
      reached is supported once optimized. */
  lemma TranslationAccepted(words: seq<bv32>, guestPc: u64, decode: Decoder)
    requires AllInRange(Window(words, guestPc, decode))
    ensures var insts := Window(words, guestPc, decode);
            Translate(guestPc, words, decode).Ok?
            <==> !AnyUnsupported(insts) && AllSupported(Optimized(insts, NoConsts()))
  {
    hide Window, Lower, AllInRange, Optimized, X86.EncAll, AllSupported, AnyUnsupported;
    var insts := Window(words, guestPc, decode);
    BlockAccepted(guestPc, Optimized(insts, NoConsts()), ByteSpan(|insts|));
  }

  /** A window of supported words is lifted to a block that the backend accepts, and it is
      translated if and only if no store source and no CBZ/CBNZ register is known constant. */
  lemma SupportedWindowAccepted(words: seq<bv32>, guestPc: u64, decode: Decoder)
    requires DecoderSane(decode) && WindowSupported(words, decode)
    ensures var insts := Window(words, guestPc, decode);
            && AllInRange(insts) && !AnyUnsupported(insts)
            && LowerBlock(guestPc, insts, ByteSpan(|insts|)).Ok?
            && (Translate(guestPc, words, decode).Ok? <==> !AnyBlocked(insts, NoConsts()))
  {
    hide DecoderSane, WindowSupported, Window, Supported, Lower, AnyBlocked, AllInRange, Optimized, X86.EncAll;
    var insts := Window(words, guestPc, decode);
    WindowWellFormed(words, guestPc, decode);
    SupportedWindowSlots(words, guestPc, decode);
    SlotsSupported(insts);
    BlockAccepted(guestPc, insts, ByteSpan(|insts|));
    var endPc := if insts == [] then guestPc else AddPc(guestPc, ByteSpan(|insts|));
    AcceptanceExact(insts, NoConsts(), guestPc, endPc);
    assert Optimized(insts, NoConsts()) == [] <==> insts == [];
  }

  lemma SlotsSupported(insts: seq<IRInst>)
    requires forall i :: 0 <= i < |insts| ==> Supported(insts[i])
    ensures AllSupported(insts) && !AnyUnsupported(insts)
  {
    forall i | 0 <= i < |insts|
      ensures insts[i].opcode != Unsupported
    {
      assert Supported(insts[i]);
    }
  }
}
