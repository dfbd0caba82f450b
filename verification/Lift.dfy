/** Lifting AArch64 words (src/lift/mod.rs, src/lift/block.rs).  Branches on
    conditions, wide moves and scaled loads/stores are decoded here from the bits;
    the rest goes through an instruction decoder that is a parameter. */
module Lift {
  import opened Words
  import opened Ir
  import opened Fields

  datatype SizeCode = SizeX | SizeW

  datatype ShiftStyle = LSL | LSR | ASR | ROR | OtherStyle

  datatype A64Operand =
    | Nothing
    | Register(size: SizeCode, num: u16)
    | RegisterOrSP(size: SizeCode, num: u16)
    | Immediate(value32: u32)
    | Imm64(value64: u64)
    | HalfImm(value16: u16)
    | PCOffset(offset: i64)
    | ImmShift(imm: u16, lsl: u8)
    | RegShift(style: ShiftStyle, amount: u8, size: SizeCode, num: u16)
    | OtherOperand

  datatype A64Opcode =
    | A64_B | A64_BR | A64_Bcc(cc: u8) | A64_BL | A64_BLR | A64_CBZ | A64_CBNZ | A64_RET | A64_HINT
    | A64_ADD | A64_ADDS | A64_SUB | A64_SUBS | A64_AND | A64_ANDS | A64_ORR | A64_EOR
    | A64_LSLV | A64_LSRV | A64_ASRV | A64_RORV | A64_Other

  datatype A64Inst = A64Inst(opcode: A64Opcode, op0: A64Operand, op1: A64Operand, op2: A64Operand)

  /** A decoder of instruction words; `None` is a decoding error. */
  type Decoder = bv32 -> Option<A64Inst>

  // ----- bit fields ------------------------------------------------------------------

  function ToSigned(v: int): i64 {
    var u := v % P64;
    if u < P63 then u else u - P64
  }

  /** Shift left to the sign bit of an `i64`, then arithmetically back. */
  function SignExtend19(field: nat): int
    requires field < 0x8_0000
  {
    var value := field * 4;
    ToSigned(value * 0x800_0000_0000) / 0x800_0000_0000
  }

  // ----- operands --------------------------------------------------------------------

  function LowerReg(size: SizeCode, num: u16, sp: bool): GuestReg {
    var n: u8 := num % 256;
    GuestReg(n, if size == SizeX then X64 else W32,
             if sp && n == 31 then StackPointer else if n == 31 then Zero else General)
  }

  function LowerShift(style: ShiftStyle): Option<ShiftKind> {
    match style
    case LSL => Some(Lsl) case LSR => Some(Lsr) case ASR => Some(Asr) case ROR => Some(Ror)
    case OtherStyle => None
  }

  function LowerOperand(op: A64Operand): Operand {
    match op
    case Nothing => NoOperand
    case Register(size, num) => Reg(LowerReg(size, num, false))
    case RegisterOrSP(size, num) => Reg(LowerReg(size, num, true))
    case Immediate(v) => Imm(v)
    case Imm64(v) => Imm(v)
    case HalfImm(v) => Imm(v)
    case PCOffset(offset) => PCRelative(offset)
    case ImmShift(v, amount) => ShiftedImm(v, amount)
    case RegShift(style, amount, size, num) =>
      (match LowerShift(style)
       case Some(kind) => ShiftedReg(LowerReg(size, num, false), kind, amount)
       case None => NoOperand)
    case OtherOperand => NoOperand
  }

  // ----- instructions ----------------------------------------------------------------

  function UnsupportedInst(word: bv32): IRInst {
    IRInst(Unsupported, 0, RawInst(word as int), NoOperand, NoOperand)
  }

  function RegOfWidth(num: u8, x: bool): GuestReg {
    if x then XReg(num) else WReg(num)
  }

  function BranchTarget(word: bv32, pc: u64): u64 {
    AddPc(pc, SignExtend19(N19(Imm19(word))))
  }

  function ConditionalBranch(word: bv32, pc: u64): Option<IRInst> {
    if IsBCond(word) then
      Some(IRInst(BranchCond, 0, GuestPc(BranchTarget(word, pc)), Imm(N4(Cond(word))), NoOperand))
    else if IsCbz(word) || IsCbnz(word) then
      Some(IRInst(BranchCond, 0, GuestPc(BranchTarget(word, pc)), Reg(RegOfWidth(N5(Rt(word)), Bit31(word))),
                  Imm(if IsCbnz(word) then 1 else 0)))
    else None
  }

  /** `imm16 << (hw * 16)` */
  function WideValue(imm16: u16, hw: nat): u64
    requires hw < 4
  {
    if hw == 0 then imm16 else if hw == 1 then imm16 * 0x1_0000
    else if hw == 2 then imm16 * 0x1_0000_0000 else imm16 * 0x1_0000_0000_0000
  }

  function MoveWide(word: bv32): Option<IRInst> {
    if !IsMovz(word) && !IsMovn(word) then None else
    var x, hw := Bit31(word), N2(Hw(word));
    if !x && hw > 1 then Some(UnsupportedInst(word)) else
    Some(IRInst(Mov, 0, Reg(RegOfWidth(N5(Rt(word)), x)), Imm(WideConstant(x, IsMovn(word), hw, N16(Imm16(word)))), NoOperand))
  }

  function WideConstant(x: bool, negate: bool, hw: nat, imm16: u16): u64
    requires hw < 4
  {
    var shifted := WideValue(imm16, hw);
    var value := if negate then P64 - 1 - shifted else shifted;
    if x then value else value % P32
  }

  /** Register and memory operand of a scaled load or store. */
  function UnsignedMem(word: bv32, load: bool): Option<(Operand, Operand)> {
    if !(if load then IsLdr(word) else IsStr(word)) then None else
    var x := Size(word) == 3;
    Some((Reg(RegOfWidth(N5(Rt(word)), x)), Mem(MemOf(N5(Rn(word)), N12(Imm12(word)), x))))
  }

  function MemOf(rn: nat, imm12: nat, x: bool): MemOperand
    requires rn < 32 && imm12 < 0x1000
  {
    MemOperand(if rn == 31 then XSP else XReg(rn), imm12 * (if x then 8 else 4), if x then X64 else W32)
  }

  function VariableShift(op: A64Opcode): Option<ShiftKind> {
    match op
    case A64_LSLV => Some(Lsl) case A64_LSRV => Some(Lsr) case A64_ASRV => Some(Asr) case A64_RORV => Some(Ror)
    case _ => None
  }

  function VariableShiftInst(d: A64Inst, kind: ShiftKind): Option<IRInst> {
    var a, b, c := LowerOperand(d.op0), LowerOperand(d.op1), LowerOperand(d.op2);
    if a.Reg? && b.Reg? && c.Reg? then Some(IRInst(Shift, 0, a, b, ShiftReg(b.reg, c.reg, kind))) else None
  }

  function IrOpcode(op: A64Opcode, word: bv32): Option<(Opcode, u16)> {
    match op
    case A64_HINT => if word == 0xd503_201f then Some((Nop, 0)) else None
    case A64_ADD => Some((Add, 0)) case A64_ADDS => Some((Add, FLAG_WRITES_NZCV))
    case A64_SUB => Some((Sub, 0)) case A64_SUBS => Some((Sub, FLAG_WRITES_NZCV))
    case A64_AND => Some((And, 0)) case A64_ANDS => Some((And, FLAG_WRITES_NZCV))
    case A64_ORR => Some((Orr, 0)) case A64_EOR => Some((Eor, 0))
    case A64_B => Some((Branch, 0)) case A64_RET => Some((Ret, 0))
    case _ => None
  }

  function DecodedInst(word: bv32, pc: u64, d: A64Inst): IRInst {
    var kind := VariableShift(d.opcode);
    if kind.Some? then
      var shift := VariableShiftInst(d, kind.value);
      if shift.Some? then shift.value else UnsupportedInst(word)
    else
      match IrOpcode(d.opcode, word)
      case None => UnsupportedInst(word)
      case Some((op, flags)) =>
        var a, b, c := LowerOperand(d.op0), LowerOperand(d.op1), LowerOperand(d.op2);
        if op != Branch then IRInst(op, flags, a, b, c)
        else if a.PCRelative? then IRInst(Branch, flags, GuestPc(AddPc(pc, a.displacement)), b, c)
        else UnsupportedInst(word)
  }

  /** The instruction at `pc`, one per word. */
  function LiftInst(word: bv32, pc: u64, decode: Decoder): IRInst {
    var branch, wide := ConditionalBranch(word, pc), MoveWide(word);
    var load, store := UnsignedMem(word, true), UnsignedMem(word, false);
    if branch.Some? then branch.value
    else if wide.Some? then wide.value
    else if load.Some? then IRInst(Load, 0, load.value.0, load.value.1, NoOperand)
    else if store.Some? then IRInst(Store, 0, store.value.1, store.value.0, NoOperand)
    else
      match decode(word)
      case Some(d) => DecodedInst(word, pc, d)
      case None => UnsupportedInst(word)
  }

  // ----- lifting into a block ----------------------------------------------------------

  method LiftConditionalBranch(word: bv32, pc: u64, block: Block) returns (done: bool)
    modifies block`insts, block`guestByteLen
    ensures done == ConditionalBranch(word, pc).Some?
    ensures block.insts == if done then old(block.insts) + [ConditionalBranch(word, pc).value] else old(block.insts)
    ensures old(block.Valid()) ==> block.Valid()
  {
    hide IsBCond, IsCbz, IsCbnz, BranchTarget, Cond, Rt, Bit31, RegOfWidth;
    if IsBCond(word) {
      block.Push(IRInst(BranchCond, 0, GuestPc(BranchTarget(word, pc)), Imm(N4(Cond(word))), NoOperand));
      return true;
    }
    if IsCbz(word) || IsCbnz(word) {
      var reg := RegOfWidth(N5(Rt(word)), Bit31(word));
      block.Push(IRInst(BranchCond, 0, GuestPc(BranchTarget(word, pc)), Reg(reg), Imm(if IsCbnz(word) then 1 else 0)));
      return true;
    }
    return false;
  }

  method LiftMoveWide(word: bv32, block: Block) returns (done: bool)
    modifies block`insts, block`guestByteLen
    ensures done == MoveWide(word).Some?
    ensures block.insts == if done then old(block.insts) + [MoveWide(word).value] else old(block.insts)
    ensures old(block.Valid()) ==> block.Valid()
  {
    hide IsMovz, IsMovn, Bit31, Hw, Imm16, Rt, RegOfWidth, WideValue, N2, N5, N16, UnsupportedInst;
    if !IsMovz(word) && !IsMovn(word) {
      return false;
    }
    var x := Bit31(word);
    var hw := N2(Hw(word));
    if !x && hw > 1 {
      block.Push(UnsupportedInst(word));
      return true;
    }
    var value := WideValue(N16(Imm16(word)), hw);
    if IsMovn(word) {
      value := P64 - 1 - value;
    }
    if !x {
      value := value % P32;
    }
    block.Push(IRInst(Mov, 0, Reg(RegOfWidth(N5(Rt(word)), x)), Imm(value), NoOperand));
    return true;
  }

  method LiftOneAt(word: bv32, pc: u64, block: Block, decode: Decoder)
    modifies block`insts, block`guestByteLen
    ensures block.insts == old(block.insts) + [LiftInst(word, pc, decode)]
    ensures old(block.Valid()) ==> block.Valid()
  {
    hide ConditionalBranch, MoveWide, UnsignedMem, DecodedInst, IsLdr, IsStr;
    var done := LiftConditionalBranch(word, pc, block);
    if done {
      return;
    }
    done := LiftMoveWide(word, block);
    if done {
      return;
    }
    var mem := UnsignedMem(word, true);
    if mem.Some? {
      block.Push(IRInst(Load, 0, mem.value.0, mem.value.1, NoOperand));
      return;
    }
    mem := UnsignedMem(word, false);
    if mem.Some? {
      block.Push(IRInst(Store, 0, mem.value.1, mem.value.0, NoOperand));
      return;
    }
    match decode(word) {
      case Some(d) => block.Push(DecodedInst(word, pc, d));
      case None => block.Push(UnsupportedInst(word));
    }
  }

  predicate MatchesTerminal(op: A64Opcode) {
    op.A64_B? || op.A64_BR? || op.A64_Bcc? || op.A64_BL? || op.A64_BLR? || op.A64_CBZ? || op.A64_CBNZ? || op.A64_RET?
  }

  /** Decoding errors end a block too. */
  predicate Terminal(word: bv32, decode: Decoder) {
    decode(word).None? || MatchesTerminal(decode(word).value.opcode)
  }

  /** How many of the words form one block: up to and including the first terminal. */
  function Consumed(words: seq<bv32>, decode: Decoder): (n: nat)
    ensures n <= |words|
  {
    if words == [] then 0
    else if Terminal(words[0], decode) then 1
    else 1 + Consumed(words[1..], decode)
  }

  function LiftAll(words: seq<bv32>, pc: u64, decode: Decoder): (insts: seq<IRInst>)
    ensures |insts| == |words|
  {
    if words == [] then [] else [LiftInst(words[0], pc, decode)] + LiftAll(words[1..], AddPc(pc, 4), decode)
  }

  /** Addresses of consecutive words, counted from either end. */
  lemma NextWord(pc: u64, n: nat)
    ensures AddPc(pc, 4 * 0) == pc && (n > 0 ==> AddPc(AddPc(pc, 4), 4 * (n - 1)) == AddPc(pc, 4 * n))
  {
  }

  lemma {:induction false} LiftAllSnoc(words: seq<bv32>, pc: u64, decode: Decoder, n: nat)
    requires n < |words|
    ensures LiftAll(words[..n + 1], pc, decode) ==
            LiftAll(words[..n], pc, decode) + [LiftInst(words[n], AddPc(pc, 4 * n), decode)]
    decreases n
  {
    hide LiftInst, AddPc;
    NextWord(pc, n);
    assert words[..n + 1][1..] == words[1..][..n];
    if n > 0 {
      LiftAllSnoc(words[1..], AddPc(pc, 4), decode, n - 1);
      assert words[..n][1..] == words[1..][..n - 1];
    } else {
      assert LiftAll(words[1..][..0], AddPc(pc, 4), decode) == [];
    }
  }

  /** Appends one block's worth of instructions; the block now starts at `guestPc`. */
  method LiftBlockAt(words: seq<bv32>, guestPc: u64, block: Block, decode: Decoder) returns (consumed: nat)
    modifies block`insts, block`guestByteLen, block`guestPc
    ensures consumed == Consumed(words, decode)
    ensures block.guestPc == guestPc
    ensures block.insts == old(block.insts) + LiftAll(words[..consumed], guestPc, decode)
    ensures old(block.Valid()) ==> block.Valid()
  {
    hide LiftInst, Terminal;
    block.guestPc := guestPc;
    consumed := 0;
    while consumed < |words|
      invariant 0 <= consumed <= |words| && block.guestPc == guestPc
      invariant Consumed(words, decode) == consumed + Consumed(words[consumed..], decode)
      invariant block.insts == old(block.insts) + LiftAll(words[..consumed], guestPc, decode)
      invariant old(block.Valid()) ==> block.Valid()
    {
      var word := words[consumed];
      var terminal := Terminal(word, decode);
      assert words[consumed..][1..] == words[consumed + 1..];
      LiftAllSnoc(words, guestPc, decode, consumed);
      LiftOneAt(word, AddPc(guestPc, 4 * consumed), block, decode);
      consumed := consumed + 1;
      if terminal {
        return;
      }
    }
  }
}
