/** The architecture, independently of the IR: what an AArch64 word does, on its bit
    fields or on the operands its decoding has, following the pseudocode of the Arm
    Architecture Reference Manual (chapters C4 and C6).  Lifting agrees with it on
    every machine, exactly outside two families of words. */
module Reference {
  import opened Words
  import opened Ir
  import opened Arm
  import opened Fields
  import opened Lift
  import LiftProof

  // ----- registers -------------------------------------------------------------------

  /** `X[n, w]`: number 31 is the zero register. */
  function X(m: Machine, n: nat, w: RegWidth): u64 {
    if n < 31 then Mask(m.regs.gpr[n], w) else 0
  }

  /** `X[n]` or `SP[]` where number 31 is the stack pointer. */
  function XOrSP(m: Machine, n: nat, w: RegWidth): u64 {
    if n == 31 then Mask(m.regs.sp, w) else X(m, n, w)
  }

  /** Results are zero-extended to 64 bits. */
  function SetX(m: Machine, n: nat, v: u64): Machine {
    if n < 31 then m.(regs := m.regs.(gpr := m.regs.gpr[n := v])) else m
  }

  function SetXOrSP(m: Machine, n: nat, v: u64): Machine {
    if n == 31 then m.(regs := m.regs.(sp := v)) else SetX(m, n, v)
  }

  function WidthOf(size: SizeCode): RegWidth {
    if size == SizeX then X64 else W32
  }

  // ----- words decoded from their bits -------------------------------------------------

  function Target(word: bv32, pc: u64): u64 {
    AddPc(pc, 4 * LiftProof.Signed19(N19(Imm19(word))))
  }

  /** Condition 15 behaves as "always". */
  function BranchOnCondition(word: bv32, pc: u64, m: Machine): Flow {
    Goto(SetPc(m, if ConditionHolds(N4(Cond(word)), Unpack(m.regs.nzcv)) then Target(word, pc) else AddPc(pc, 4)))
  }

  function CompareAndBranchOn(word: bv32, pc: u64, m: Machine): Flow {
    var zero := X(m, N5(Rt(word)), if Bit31(word) then X64 else W32) == 0;
    Goto(SetPc(m, if zero != IsCbnz(word) then Target(word, pc) else AddPc(pc, 4)))
  }

  /** A W register has no halfword 2 or 3. */
  function MoveWideImmediate(word: bv32, m: Machine): Flow {
    var x, hw := Bit31(word), N2(Hw(word));
    if !x && hw > 1 then Stuck
    else Fall(SetX(m, N5(Rt(word)), LiftProof.MoveWideResult(x, IsMovn(word), hw, N16(Imm16(word)))))
  }

  function LoadOrStore(word: bv32, m: Machine): Flow {
    var w := if Size(word) == 3 then X64 else W32;
    var address := AddPc(XOrSP(m, N5(Rn(word)), X64), N12(Imm12(word)) * Bytes(w));
    if IsLdr(word) then
      match LoadWord(m.mem, address, w)
      case Some(v) => Fall(SetX(m, N5(Rt(word)), v))
      case None => Fault
    else
      match StoreWord(m.mem, address, X(m, N5(Rt(word)), w), w)
      case Some(mem) => Fall(m.(mem := mem))
      case None => Fault
  }

  // ----- words decoded to operands -----------------------------------------------------

  function Shifted(style: ShiftStyle, w: RegWidth, v: u64, n: nat): Option<u64>
    requires n < Bits(w)
  {
    match style
    case LSL => Some(ShiftValue(Lsl, w, v, n))
    case LSR => Some(ShiftValue(Lsr, w, v, n))
    case ASR => Some(ShiftValue(Asr, w, v, n))
    case ROR => Some(ShiftValue(Ror, w, v, n))
    case OtherStyle => None
  }

  function Source(op: A64Operand, w: RegWidth, m: Machine): Option<u64> {
    match op
    case Register(_, n) => Some(X(m, n, w))
    case RegisterOrSP(_, n) => Some(XOrSP(m, n, w))
    case Immediate(v) => Some(Mask(v, w))
    case Imm64(v) => Some(Mask(v, w))
    case HalfImm(v) => Some(Mask(v, w))
    case ImmShift(v, lsl) => Some(Mask(Scale(v, lsl), w))
    case RegShift(style, amount, _, n) => if amount < Bits(w) then Shifted(style, w, X(m, n, w), amount) else None
    case _ => None
  }

  /** Result, and flags where the operation sets them. */
  function Compute(op: A64Opcode, w: RegWidth, x: u64, y: u64): Option<(u64, Option<Nzcv>)>
    requires x < Modulus(w) && y < Modulus(w)
  {
    var sum, difference := AddWithCarry(w, x, y, false), AddWithCarry(w, x, Complement(w, y), true);
    ModulusIsPow2(w);
    BitwiseBound(AndOp, x, y, Bits(w));
    BitwiseBound(OrOp, x, y, Bits(w));
    BitwiseBound(XorOp, x, y, Bits(w));
    var conjunction := Bitwise(AndOp, x, y);
    match op
    case A64_ADD => Some((sum.0, None))
    case A64_ADDS => Some((sum.0, Some(sum.1)))
    case A64_SUB => Some((difference.0, None))
    case A64_SUBS => Some((difference.0, Some(difference.1)))
    case A64_AND => Some((conjunction, None))
    case A64_ANDS => Some((conjunction, Some(Nzcv(Signed(w, conjunction) < 0, conjunction == 0, false, false))))
    case A64_ORR => Some((Bitwise(OrOp, x, y), None))
    case A64_EOR => Some((Bitwise(XorOp, x, y), None))
    case _ => None
  }

  predicate IsRegister(op: A64Operand) {
    op.Register? || op.RegisterOrSP?
  }

  function SetDest(dst: A64Operand, v: u64, m: Machine): Machine
    requires IsRegister(dst)
  {
    if dst.Register? then SetX(m, dst.num, v) else SetXOrSP(m, dst.num, v)
  }

  function DataProcessing(d: A64Inst, m: Machine): Flow {
    if !IsRegister(d.op0) then Stuck else
    var w := WidthOf(d.op0.size);
    match (Source(d.op1, w, m), Source(d.op2, w, m))
    case (Some(x), Some(y)) =>
      if x >= Modulus(w) || y >= Modulus(w) then Stuck else
      (match Compute(d.opcode, w, x, y)
       case Some((r, None)) => Fall(SetDest(d.op0, r, m))
       case Some((r, Some(f))) =>
         var m' := SetDest(d.op0, r, m);
         Fall(m'.(regs := m'.regs.(nzcv := Pack(f))))
       case None => Stuck)
    case _ => Stuck
  }

  /** Shifts by a register take the amount modulo the width. */
  function ShiftByRegister(d: A64Inst, style: ShiftStyle, m: Machine): Flow {
    if !IsRegister(d.op0) || !IsRegister(d.op1) || !IsRegister(d.op2) then Stuck else
    var w := WidthOf(d.op0.size);
    match (Source(d.op1, w, m), Source(d.op2, w, m))
    case (Some(v), Some(n)) =>
      (match Shifted(style, w, v, n % Bits(w))
       case Some(r) => Fall(SetDest(d.op0, r, m))
       case None => Stuck)
    case _ => Stuck
  }

  function DecodedFlow(word: bv32, pc: u64, d: A64Inst, m: Machine): Flow {
    match d.opcode
    case A64_HINT => if word == 0xd503_201f then Fall(m) else Stuck
    case A64_B => if d.op0.PCOffset? then Goto(SetPc(m, AddPc(pc, d.op0.offset))) else Stuck
    case A64_RET => if d.op0.Register? then Goto(SetPc(m, X(m, d.op0.num, X64))) else Stuck
    case A64_LSLV => ShiftByRegister(d, LSL, m)
    case A64_LSRV => ShiftByRegister(d, LSR, m)
    case A64_ASRV => ShiftByRegister(d, ASR, m)
    case A64_RORV => ShiftByRegister(d, ROR, m)
    case _ => DataProcessing(d, m)
  }

  /** What the word at `pc` does; outside the modelled subset it has no meaning. */
  function ArmInst(word: bv32, pc: u64, decode: Decoder, m: Machine): Flow {
    if IsBCond(word) then BranchOnCondition(word, pc, m)
    else if IsCbz(word) || IsCbnz(word) then CompareAndBranchOn(word, pc, m)
    else if IsMovz(word) || IsMovn(word) then MoveWideImmediate(word, m)
    else if IsLdr(word) || IsStr(word) then LoadOrStore(word, m)
    else
      match decode(word)
      case Some(d) => DecodedFlow(word, pc, d, m)
      case None => Stuck
  }
}
