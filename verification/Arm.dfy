/** Architectural meaning of the IR: registers, NZCV, memory, and what one
    instruction or one block does to them.  Flags follow `AddWithCarry` of the
    Arm Architecture Reference Manual (chapter J1), on unbounded integers. */
module Arm {
  import opened Words
  import opened Ir

  /** The fields of `GuestState` (src/runtime/state.rs:6-13) as a value. */
  datatype RegFile = RegFile(gpr: seq<u64>, sp: u64, nzcv: u32, pad: u32, pc: u64)

  type Regs = r: RegFile | |r.gpr| == 31 witness RegFile(seq(31, _ => 0), 0, 0, 0, 0)

  /** Every register zero, as in a new guest state. */
  const ZERO_REGS: RegFile :=
    RegFile([0, 0, 0, 0, 0, 0, 0, 0, 0, 0, 0, 0, 0, 0, 0, 0, 0, 0, 0, 0, 0, 0, 0, 0, 0, 0, 0, 0, 0, 0, 0], 0, 0, 0, 0)

  /** Guest memory: the mapped guest addresses and their bytes. */
  type Memory = map<u64, u8>

  datatype Machine = Machine(regs: Regs, mem: Memory)

  /** Where control goes after an instruction or a block. */
  datatype Flow =
    | Fall(next: Machine)   // to the following instruction
    | Goto(jump: Machine)   // to `jump.regs.pc`
    | Fault                 // access to unmapped guest memory
    | Stuck                 // no meaning

  // ----- registers and operands ----------------------------------------------

  predicate InRange(r: GuestReg) {
    r.kind == General ==> r.num < 31
  }

  function Read(g: Regs, r: GuestReg): u64
    requires InRange(r)
  {
    match r.kind
    case Zero => 0
    case StackPointer => Mask(g.sp, r.width)
    case General => Mask(g.gpr[r.num], r.width)
  }

  /** Writing a W register clears the upper half; writing the zero register does nothing. */
  function Write(g: Regs, r: GuestReg, v: u64): Regs
    requires InRange(r)
  {
    match r.kind
    case Zero => g
    case StackPointer => g.(sp := Mask(v, r.width))
    case General => g.(gpr := g.gpr[r.num := Mask(v, r.width)])
  }

  /** The value of a data operand in an operation of width `w`, if it is one. */
  function Eval(op: Operand, w: RegWidth, g: Regs): Option<u64>
    requires OperandInRange(op)
  {
    match op
    case Reg(r) => Some(Mask(Read(g, r), w))
    case Imm(v) => Some(Mask(v, w))
    case ShiftedImm(v, n) => Some(Mask(Scale(v, n), w))
    case ShiftedReg(r, kind, n) =>
      if n < Bits(w) then Some(ShiftValue(kind, w, Mask(Read(g, r), w), n)) else None
    case _ => None
  }

  predicate OperandInRange(op: Operand) {
    match op
    case Reg(r) => InRange(r)
    case ShiftedReg(r, _, _) => InRange(r)
    case ShiftReg(v, n, _) => InRange(v) && InRange(n)
    case Mem(m) => InRange(m.base)
    case _ => true
  }

  // ----- arithmetic ------------------------------------------------------------

  function Signed(w: RegWidth, v: u64): int {
    if v < Modulus(w) / 2 then v else v - Modulus(w)
  }

  datatype Nzcv = Nzcv(n: bool, z: bool, c: bool, v: bool)

  function AddWithCarry(w: RegWidth, x: u64, y: u64, carry: bool): (u64, Nzcv) {
    var c := if carry then 1 else 0;
    var unsignedSum := x + y + c;
    var signedSum := Signed(w, x) + Signed(w, y) + c;
    var result := unsignedSum % Modulus(w);
    (result, Nzcv(Signed(w, result) < 0, result == 0, result != unsignedSum, Signed(w, result) != signedSum))
  }

  /** Bitwise complement at width `w`. */
  function Complement(w: RegWidth, y: u64): u64
    requires y < Modulus(w)
  {
    Modulus(w) - 1 - y
  }

  function Logic(op: Opcode): BitOp {
    match op case And => AndOp case Orr => OrOp case _ => XorOp
  }

  /** Result and flags of the two-operand instructions. */
  function Arith(op: Opcode, w: RegWidth, x: u64, y: u64): (r: (nat, Nzcv))
    requires x < Modulus(w) && y < Modulus(w)
    ensures r.0 < Modulus(w)
  {
    match op
    case Add => AddWithCarry(w, x, y, false)
    case Sub => AddWithCarry(w, x, Complement(w, y), true)
    case _ =>
      var r := Bitwise(Logic(op), x, y);
      ModulusIsPow2(w);
      BitwiseBound(Logic(op), x, y, Bits(w));
      (r, Nzcv(Signed(w, r) < 0, r == 0, false, false))
  }

  function Wrap(v: int, w: RegWidth): u64 {
    v % Modulus(w)
  }

  function FloorDiv(v: int, d: nat): int
    requires d > 0
  {
    v / d
  }

  /** Shifts by less than the width; `Asr` is floor division of the signed value. */
  function ShiftValue(kind: ShiftKind, w: RegWidth, v: u64, n: nat): u64
    requires n < Bits(w)
  {
    match kind
    case Lsl => Mask(Scale(v, n), w)
    case Lsr => Mask(Unscale(v, n), w)
    case Asr => Wrap(FloorDiv(Signed(w, v), Pow2(n)), w)
    case Ror => Mask(Unscale(v, n) + Scale(LowBits(v, n), Bits(w) - n), w)
  }

  // ----- condition flags -------------------------------------------------------

  function Pack(f: Nzcv): u32 {
    (if f.n then 0x8000_0000 else 0) + (if f.z then 0x4000_0000 else 0)
    + (if f.c then 0x2000_0000 else 0) + (if f.v then 0x1000_0000 else 0)
  }

  function Unpack(word: u32): Nzcv {
    Nzcv(word / 0x8000_0000 % 2 == 1, word / 0x4000_0000 % 2 == 1,
         word / 0x2000_0000 % 2 == 1, word / 0x1000_0000 % 2 == 1)
  }

  lemma UnpackPack(f: Nzcv)
    ensures Unpack(Pack(f)) == f
    ensures Pack(f) % 0x1000_0000 == 0
  {
    match f case Nzcv(n, z, c, v) =>
      assert Pack(f) / 0x1000_0000 % 2 == if v then 1 else 0;
  }

  /** `ConditionHolds` of the Arm pseudocode: bits 3..1 select, bit 0 inverts. */
  predicate ConditionHolds(cond: nat, f: Nzcv) {
    var base := match cond / 2 % 8
      case 0 => f.z
      case 1 => f.c
      case 2 => f.n
      case 3 => f.v
      case 4 => f.c && !f.z
      case 5 => f.n == f.v
      case 6 => f.n == f.v && !f.z
      case _ => true;
    if cond % 2 == 1 && cond != 15 then !base else base
  }

  // ----- memory ----------------------------------------------------------------

  function Bytes(w: RegWidth): nat {
    Bits(w) / 8
  }

  function LoadBytes(mem: Memory, addr: u64, n: nat): Option<seq<u8>>
    decreases n
  {
    if n == 0 then Some([])
    else if addr !in mem then None
    else
      match LoadBytes(mem, AddPc(addr, 1), n - 1)
      case None => None
      case Some(rest) => Some([mem[addr]] + rest)
  }

  function StoreBytes(mem: Memory, addr: u64, bs: seq<u8>): Option<Memory>
    decreases |bs|
  {
    if bs == [] then Some(mem)
    else if addr !in mem then None
    else StoreBytes(mem[addr := bs[0]], AddPc(addr, 1), bs[1..])
  }

  function LoadWord(mem: Memory, addr: u64, w: RegWidth): Option<u64> {
    match LoadBytes(mem, addr, Bytes(w))
    case None => None
    case Some(bs) => Some(Mask(FromLe(bs), w))
  }

  function StoreWord(mem: Memory, addr: u64, v: u64, w: RegWidth): Option<Memory> {
    StoreBytes(mem, addr, Le(v, Bytes(w)))
  }

  // ----- instructions ----------------------------------------------------------

  predicate InstInRange(inst: IRInst) {
    OperandInRange(inst.a) && OperandInRange(inst.b) && OperandInRange(inst.c)
  }

  /** A data operand no wider than the operation, with its shift amount in range. */
  predicate OperandFits(op: Operand, w: RegWidth) {
    match op
    case Reg(r) => r.width == W32 || w == X64
    case ShiftedReg(r, _, n) => (r.width == W32 || w == X64) && n < Bits(w)
    case ShiftedImm(_, n) => n < 64
    case _ => true
  }

  /** The assumptions on IR instructions: register numbers exist, NZCV is requested
      only where it is defined, shift amounts are in range, and no wider register
      or memory word is moved into a narrower one. */
  predicate WellFormed(inst: IRInst) {
    && InstInRange(inst)
    && FlagsAllowed(inst)
    && (inst.a.Reg? && inst.opcode != Load ==> OperandFits(inst.b, inst.a.reg.width) && OperandFits(inst.c, inst.a.reg.width))
    && (inst.opcode == Load && inst.a.Reg? && inst.b.Mem? ==> inst.b.mem.width == W32 || inst.a.reg.width == X64)
  }

  predicate AllWellFormed(insts: seq<IRInst>) {
    forall i :: 0 <= i < |insts| ==> WellFormed(insts[i])
  }

  function SetPc(m: Machine, pc: u64): Machine {
    m.(regs := m.regs.(pc := pc))
  }

  function WriteBack(m: Machine, r: GuestReg, v: u64): Machine
    requires InRange(r)
  {
    m.(regs := Write(m.regs, r, v))
  }

  /** What the instruction at guest address `pc` does.  Condition 15 is "never" here. */
  function ExecInst(inst: IRInst, pc: u64, m: Machine): Flow
    requires InstInRange(inst)
  {
    match inst.opcode
    case Nop => Fall(m)
    case Mov =>
      if !inst.a.Reg? then Stuck else
      (match Eval(inst.b, inst.a.reg.width, m.regs)
       case None => Stuck
       case Some(v) => Fall(WriteBack(m, inst.a.reg, v)))
    case Add => ExecBinop(inst, m)
    case Sub => ExecBinop(inst, m)
    case And => ExecBinop(inst, m)
    case Orr => ExecBinop(inst, m)
    case Eor => ExecBinop(inst, m)
    case Shift =>
      if !inst.a.Reg? || !inst.c.ShiftReg? then Stuck else
      var w := inst.a.reg.width;
      (match Eval(inst.b, w, m.regs)
       case None => Stuck
       case Some(v) =>
         var n := Read(m.regs, inst.c.amount) % Bits(w);
         Fall(WriteBack(m, inst.a.reg, ShiftValue(inst.c.kind, w, v, n))))
    case Load =>
      if !inst.a.Reg? || !inst.b.Mem? then Stuck else
      (match LoadWord(m.mem, Address(inst.b.mem, m.regs), inst.b.mem.width)
       case None => Fault
       case Some(v) => Fall(WriteBack(m, inst.a.reg, v)))
    case Store =>
      if !inst.a.Mem? then Stuck else
      (match Eval(inst.b, inst.a.mem.width, m.regs)
       case None => Stuck
       case Some(v) =>
         match StoreWord(m.mem, Address(inst.a.mem, m.regs), v, inst.a.mem.width)
         case None => Fault
         case Some(mem) => Fall(m.(mem := mem)))
    case Branch => if inst.a.GuestPc? then Goto(SetPc(m, inst.a.target)) else Stuck
    case BranchCond =>
      if !inst.a.GuestPc? then Stuck else
      (match Taken(inst, m.regs)
       case None => Stuck
       case Some(taken) => Goto(SetPc(m, if taken then inst.a.target else AddPc(pc, 4))))
    case Ret => Goto(SetPc(m, m.regs.gpr[30]))
    case _ => Stuck
  }

  function ExecBinop(inst: IRInst, m: Machine): Flow
    requires InstInRange(inst)
  {
    if !inst.a.Reg? then Stuck else
    var w := inst.a.reg.width;
    match (Eval(inst.b, w, m.regs), Eval(inst.c, w, m.regs))
    case (Some(x), Some(y)) =>
      var (r, f) := Arith(inst.opcode, w, x, y);
      var m' := WriteBack(m, inst.a.reg, r);
      Fall(if inst.WritesNzcv() then m'.(regs := m'.regs.(nzcv := Pack(f))) else m')
    case _ => Stuck
  }

  function Address(mem: MemOperand, g: Regs): u64
    requires InRange(mem.base)
  {
    AddPc(Read(g, mem.base), mem.offset)
  }

  /** Outcome of the test of a conditional branch: B.cond has no third operand,
      CBZ/CBNZ carry 0/1 there. */
  function Taken(inst: IRInst, g: Regs): Option<bool>
    requires InstInRange(inst)
  {
    match (inst.b, inst.c)
    case (Imm(cond), NoOperand) =>
      if cond <= 15 then Some(cond != 15 && ConditionHolds(cond, Unpack(g.nzcv))) else None
    case (Reg(r), Imm(kind)) => if kind <= 1 then Some((Read(g, r) == 0) == (kind == 0)) else None
    case (Imm(v), Imm(kind)) => if kind <= 1 then Some((v == 0) == (kind == 0)) else None
    case _ => None
  }

  lemma ExitNeverFalls(inst: IRInst, pc: u64, m: Machine)
    requires InstInRange(inst) && EndsBlock(inst.opcode)
    ensures !ExecInst(inst, pc, m).Fall?
  {
    hide ConditionHolds;
  }

  // ----- blocks ----------------------------------------------------------------

  predicate AllInRange(insts: seq<IRInst>) {
    forall i :: 0 <= i < |insts| ==> InstInRange(insts[i])
  }

  /** Runs a block whose first instruction sits at `pc` until it leaves. */
  function RunBlock(insts: seq<IRInst>, pc: u64, m: Machine): Flow
    requires AllInRange(insts)
  {
    if insts == [] then Goto(SetPc(m, pc))
    else
      match ExecInst(insts[0], pc, m)
      case Fall(m') => RunBlock(insts[1..], AddPc(pc, 4), m')
      case out => out
  }

  /** A block runs its first instruction and then, if that falls through, the rest. */
  lemma RunCons(inst: IRInst, rest: seq<IRInst>, pc: u64, m: Machine)
    requires InstInRange(inst) && AllInRange(rest)
    ensures AllInRange([inst] + rest)
    ensures var out := ExecInst(inst, pc, m);
            RunBlock([inst] + rest, pc, m) == if out.Fall? then RunBlock(rest, AddPc(pc, 4), out.next) else out
  {
    hide ExecInst, InstInRange;
    assert ([inst] + rest)[1..] == rest;
  }
}
