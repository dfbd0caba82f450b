/** The x86-64 backend (src/codegen/x86_64.rs): which instructions a block is
    lowered to, and the byte emitters that produce exactly their encodings. */
module Codegen {
  import opened Words
  import opened Ir
  import opened State
  import opened X86
  import X86Props
  import opened Isel

  datatype CodegenError = UnsupportedOpcode(opcode: Opcode) | UnsupportedOperand

  type Lowered = Result<seq<Instr>, CodegenError>

  /** Bytes of "set pc, return": the length a conditional branch jumps over. */
  const SET_PC_RET_LEN: u8 := 18

  // ----- condition tables ----------------------------------------------------------

  /** The backend's own condition test on a flag nibble N:Z:C:V. */
  predicate NibbleHolds(cond: nat, nzcv: nat) {
    var n, z, c, v := nzcv / 8 % 2 == 1, nzcv / 4 % 2 == 1, nzcv / 2 % 2 == 1, nzcv % 2 == 1;
    match cond
    case 0 => z      case 1 => !z
    case 2 => c      case 3 => !c
    case 4 => n      case 5 => !n
    case 6 => v      case 7 => !v
    case 8 => c && !z
    case 9 => !c || z
    case 10 => n == v
    case 11 => n != v
    case 12 => !z && n == v
    case 13 => z || n != v
    case 14 => true
    case _ => false
  }

  /** The low `k` bits of the 16-bit truth table of a condition. */
  function TruthTable(cond: nat, k: nat): (t: nat)
    ensures t < Pow2(k)
  {
    if k == 0 then 0
    else TruthTable(cond, k - 1) + if NibbleHolds(cond, k - 1) then Pow2(k - 1) else 0
  }

  function ConditionTable(cond: nat): (t: u16)
  {
    Pow2Values();
    TruthTable(cond, 16)
  }

  /** Or-ing in the next bit extends the table by one entry. */
  lemma TruthTableStep(cond: nat, k: nat)
    requires k < 16
    ensures TruthTable(cond, k + 1) ==
            if NibbleHolds(cond, k) then Bitwise(OrOp, TruthTable(cond, k), Pow2(k)) else TruthTable(cond, k)
    ensures Pow2(k) < 0x1_0000 && TruthTable(cond, k + 1) < 0x1_0000
  {
    hide NibbleHolds, Bitwise;
    Pow2Values();
    Pow2Mono(k + 1, 16);
    var t := TruthTable(cond, k);
    ModSelf(Pow2(k));
    OrDisjoint(Pow2(k), t, k);
    OrCommutes(t, Pow2(k));
  }

  lemma ModSelf(d: nat)
    requires d > 0
    ensures d % d == 0
  {
  }

  method ConditionTruthTable(cond: nat) returns (table: u16)
    ensures table == ConditionTable(cond)
  {
    hide NibbleHolds, Bitwise;
    table := 0;
    var nzcv := 0;
    while nzcv < 16
      invariant 0 <= nzcv <= 16
      invariant table == TruthTable(cond, nzcv)
    {
      TruthTableStep(cond, nzcv);
      if NibbleHolds(cond, nzcv) {
        table := Bitwise(OrOp, table, Pow2(nzcv));
      }
      nzcv := nzcv + 1;
    }
  }

  lemma {:induction false} OrCommutes(a: nat, b: nat)
    ensures Bitwise(OrOp, a, b) == Bitwise(OrOp, b, a)
    decreases a + b
  {
    if !(a == 0 && b == 0) {
      OrCommutes(a / 2, b / 2);
    }
  }

  method BuildConditionTables() returns (tables: seq<u16>)
    ensures |tables| == 16 && forall c :: 0 <= c < 16 ==> tables[c] == ConditionTable(c)
  {
    hide ConditionTable;
    tables := [];
    var cond := 0;
    while cond < 16
      invariant 0 <= cond <= 16 && |tables| == cond
      invariant forall c :: 0 <= c < cond ==> tables[c] == ConditionTable(c)
    {
      var t := ConditionTruthTable(cond);
      tables := tables + [t];
      cond := cond + 1;
    }
  }

  // ----- lowering ------------------------------------------------------------------

  function LoadReg(reg: Gpr, guest: GuestReg): seq<Instr> {
    if guest.kind == Zero then [AluReg(AluXor, guest.width, reg, reg)]
    else [MovLoad(reg, guest.width, OnRdi, RegOffset(guest))]
  }

  function StoreReg(guest: GuestReg, reg: Gpr): seq<Instr> {
    if guest.kind == Zero then [] else [MovStore(reg, X64, OnRdi, RegOffset(guest))]
  }

  function ShiftBy(reg: Gpr, kind: ShiftKind, amount: u8, w: RegWidth): seq<Instr> {
    if amount == 0 then [] else [ShiftImm(kind, w, reg, amount)]
  }

  function LoadOperand(op: Operand, reg: Gpr, w: RegWidth): Lowered {
    match op
    case Reg(g) => Ok(LoadReg(reg, g))
    case Imm(v) => Ok([MovImm(reg, w, Mask(v, w))])
    case ShiftedImm(v, n) => Ok([MovImm(reg, w, Mask(Scale(v, n % 64) % P64, w))])
    case ShiftedReg(g, kind, n) => Ok(LoadReg(reg, g) + ShiftBy(reg, kind, n, w))
    case _ => Err(UnsupportedOperand)
  }

  function AluFor(op: Opcode): AluOp {
    match op case Add => AluAdd case Sub => AluSub case And => AluAnd case Orr => AluOr case _ => AluXor
  }

  function CarryAndOverflow(op: Opcode): seq<Instr> {
    match op
    case Add => [Setcc(Below, Rax), Setcc(Overflow, Rsi)]
    case Sub => [Setcc(AboveEqual, Rax), Setcc(Overflow, Rsi)]
    case _ => [AluReg(AluXor, W32, Rax, Rax), AluReg(AluXor, W32, Rsi, Rsi)]
  }

  /** Turns the flags of the preceding operation into bytes of four registers. */
  function CaptureFlags(op: Opcode): seq<Instr> {
    [Setcc(Sign, Rdx), Setcc(Equal, Rcx)] + CarryAndOverflow(op)
  }

  /** Assembles the NZCV word from the flags of the preceding operation. */
  function Materialize(op: Opcode): seq<Instr> {
    CaptureFlags(op) + PackNZ() + PackCV() + [MovStore(Rdx, W32, OnRdi, NZCV_OFFSET)]
  }

  function PackNZ(): seq<Instr> {
    [Movzx(Rdx, Rdx), ShiftImm(Lsl, W32, Rdx, 31),
     Movzx(Rcx, Rcx), ShiftImm(Lsl, W32, Rcx, 30), AluReg(AluOr, W32, Rdx, Rcx)]
  }

  function PackCV(): seq<Instr> {
    [Movzx(Rax, Rax), ShiftImm(Lsl, W32, Rax, 29), AluReg(AluOr, W32, Rdx, Rax),
     Movzx(Rsi, Rsi), ShiftImm(Lsl, W32, Rsi, 28), AluReg(AluOr, W32, Rdx, Rsi)]
  }

  /** The operation itself, in immediate or generic form, leaving its result in `rax`. */
  function BinopCore(inst: IRInst, w: RegWidth): Lowered {
    if IsImmediateCandidate(inst) && inst.b.Reg? then
      Ok(LoadReg(Rax, inst.b.reg) + [AluImm(AluFor(inst.opcode), w, Rax, inst.c.imm % P32)])
    else
      match LoadOperand(inst.b, Rax, w)
      case Err(e) => Err(e)
      case Ok(x) =>
        match LoadOperand(inst.c, Rcx, w)
        case Err(e) => Err(e)
        case Ok(y) => Ok(x + y + [AluReg(AluFor(inst.opcode), w, Rax, Rcx)])
  }

  function GuestAddress(base: GuestReg): seq<Instr> {
    LoadReg(Rax, base) + [MovImm(Rdx, X64, HOST_BASE), AluReg(AluAdd, X64, Rax, Rdx)]
  }

  function Disp(offset: i32): u32 {
    offset % P32
  }

  /** Instructions that continue with the next one. */
  function LowerStraight(inst: IRInst): Lowered {
    match inst.opcode
    case Nop => Ok([NopI])
    case Mov =>
      if !inst.a.Reg? then Err(UnsupportedOperand) else
      (match LoadOperand(inst.b, Rax, inst.a.reg.width)
       case Err(e) => Err(e)
       case Ok(x) => Ok(x + StoreReg(inst.a.reg, Rax)))
    case Add => LowerBinop(inst)
    case Sub => LowerBinop(inst)
    case And => LowerBinop(inst)
    case Orr => LowerBinop(inst)
    case Eor => LowerBinop(inst)
    case Shift =>
      if !inst.a.Reg? then Err(UnsupportedOperand) else
      (match LoadOperand(inst.b, Rax, inst.a.reg.width)
       case Err(e) => Err(e)
       case Ok(x) =>
         if !inst.c.ShiftReg? then Err(UnsupportedOperand)
         else Ok(x + LoadReg(Rcx, inst.c.amount) + [ShiftCl(inst.c.kind, inst.a.reg.width, Rax)]
                 + StoreReg(inst.a.reg, Rax)))
    case Load =>
      if !inst.a.Reg? || !inst.b.Mem? then Err(UnsupportedOperand)
      else Ok(GuestAddress(inst.b.mem.base)
              + [MovLoad(Rax, inst.b.mem.width, OnRax, Disp(inst.b.mem.offset))]
              + StoreReg(inst.a.reg, Rax))
    case Store =>
      if !inst.a.Mem? || !inst.b.Reg? then Err(UnsupportedOperand)
      else Ok(LoadReg(Rcx, inst.b.reg) + GuestAddress(inst.a.mem.base)
              + [MovStore(Rcx, inst.a.mem.width, OnRax, Disp(inst.a.mem.offset))])
    case op => Err(UnsupportedOpcode(op))
  }

  function LowerBinop(inst: IRInst): Lowered {
    if !inst.a.Reg? then Err(UnsupportedOperand) else
    match BinopCore(inst, inst.a.reg.width)
    case Err(e) => Err(e)
    case Ok(core) =>
      Ok(core + StoreReg(inst.a.reg, Rax) + if inst.WritesNzcv() then Materialize(inst.opcode) else [])
  }

  function SetPcCode(pc: u64): seq<Instr> {
    [MovImm(Rax, X64, pc), MovStore(Rax, X64, OnRdi, PC_OFFSET)]
  }

  function SetPcRet(pc: u64): seq<Instr> {
    SetPcCode(pc) + [RetI]
  }

  /** Every return goes through X30, whatever the instruction names. */
  function ReturnCode(): seq<Instr> {
    LoadReg(Rax, XReg(30)) + [MovStore(Rax, X64, OnRdi, PC_OFFSET), RetI]
  }

  /** The test of a conditional branch; the jump condition says "not taken". */
  datatype BranchTest = BranchTest(code: seq<Instr>, skip: Cc)

  function LowerTest(b: Operand, c: Operand): Result<BranchTest, CodegenError> {
    match (b, c)
    case (Imm(cond), NoOperand) =>
      if cond > 15 then Err(UnsupportedOperand)
      else Ok(BranchTest([MovLoad(Rax, W32, OnRdi, NZCV_OFFSET), ShiftImm(Lsr, W32, Rax, 28),
                          MovImm(Rcx, W32, ConditionTable(cond)), Bt16(Rcx, Rax)], AboveEqual))
    case (Reg(r), Imm(kind)) =>
      if kind <= 1 then Ok(BranchTest(LoadReg(Rax, r) + [Test(r.width, Rax, Rax)], if kind == 0 then NotEqual else Equal))
      else Err(UnsupportedOperand)
    case _ => Err(UnsupportedOperand)
  }

  function LowerConditional(b: Operand, c: Operand, target: u64, next: u64): Lowered {
    match LowerTest(b, c)
    case Err(e) => Err(e)
    case Ok(t) => Ok(t.code + [Jcc(t.skip, SET_PC_RET_LEN)] + SetPcRet(target) + SetPcRet(next))
  }

  /** Instructions that end a block; `next` is the fall-through address. */
  function LowerExit(inst: IRInst, next: u64): Lowered
    requires EndsBlock(inst.opcode)
  {
    match inst.opcode
    case Branch => if inst.a.GuestPc? then Ok(SetPcRet(inst.a.target)) else Err(UnsupportedOperand)
    case BranchCond =>
      if inst.a.GuestPc? then LowerConditional(inst.b, inst.c, inst.a.target, next) else Err(UnsupportedOperand)
    case _ => Ok(ReturnCode())
  }

  function Prepend(code: seq<Instr>, rest: Lowered): Lowered {
    match rest case Ok(c) => Ok(code + c) case Err(e) => Err(e)
  }

  /** Code of the instructions from address `pc` on; running off the end sets pc to `endPc`. */
  function Lower(insts: seq<IRInst>, pc: u64, endPc: u64): Lowered {
    if insts == [] then Ok(SetPcRet(endPc))
    else if EndsBlock(insts[0].opcode) then LowerExit(insts[0], AddPc(pc, 4))
    else
      match LowerStraight(insts[0])
      case Err(e) => Err(e)
      case Ok(code) => Prepend(code, Lower(insts[1..], AddPc(pc, 4), endPc))
  }

  function LowerBlock(guestPc: u64, insts: seq<IRInst>, byteLen: u64): Lowered {
    Lower(insts, guestPc, if insts == [] then guestPc else AddPc(guestPc, byteLen))
  }

  // ----- byte emitters -------------------------------------------------------------

  lemma EncAllSnoc(code: seq<Instr>, i: Instr)
    ensures EncAll(code + [i]) == EncAll(code) + Enc(i)
  {
    X86Props.EncAllConcat(code, [i]);
    assert [i][1..] == [];
    assert EncAll([]) == [];
  }

  /** ModR/M bytes of the shifts by a constant. */
  function ShiftModRm(reg: Gpr, kind: ShiftKind): (b: u8)
    ensures b == ModRm(3, ShiftExt(kind), RegNum(reg))
  {
    match (reg, kind)
    case (Rax, Lsl) => 0xE0 case (Rax, Lsr) => 0xE8 case (Rax, Asr) => 0xF8 case (Rax, Ror) => 0xC8
    case (Rcx, Lsl) => 0xE1 case (Rcx, Lsr) => 0xE9 case (Rcx, Asr) => 0xF9 case (Rcx, Ror) => 0xC9
    case (Rdx, Lsl) => 0xE2 case (Rdx, Lsr) => 0xEA case (Rdx, Asr) => 0xFA case (Rdx, Ror) => 0xCA
    case (Rsi, Lsl) => 0xE6 case (Rsi, Lsr) => 0xEE case (Rsi, Asr) => 0xFE case (Rsi, Ror) => 0xCE
  }

  /** Opcode extension of the arithmetic with an immediate. */
  function ImmExtension(op: Opcode): (e: u8)
    ensures e < 8
  {
    match op case Add => 0 case Orr => 1 case And => 4 case Sub => 5 case _ => 6
  }

  lemma AluImmBytes(op: Opcode, width: RegWidth, v: u32)
    requires IsBinop(op)
    ensures Enc(AluImm(AluFor(op), width, Rax, v)) ==
            (if width == X64 then [0x48] else []) + [0x81] + [0xC0 + ImmExtension(op) * 8] + Le(v, 4)
  {
    hide Le;
  }

  /** The growing machine code.  `code` is what the bytes are an encoding of. */
  class CodeBuffer {
    var bytes: seq<u8>
    ghost var code: seq<Instr>

    ghost predicate Valid()
      reads this
    {
      bytes == EncAll(code)
    }

    constructor ()
      ensures Valid() && code == []
    {
      bytes, code := [], [];
    }

    method Emit8(b: u8)
      modifies this`bytes
      ensures bytes == old(bytes) + [b]
    {
      bytes := bytes + [b];
    }

    method Emit32(value: u32)
      modifies this`bytes
      ensures bytes == old(bytes) + Le(value, 4)
    {
      bytes := bytes + Le(value, 4);
    }

    method Emit64(value: u64)
      modifies this`bytes
      ensures bytes == old(bytes) + Le(value, 8)
    {
      bytes := bytes + Le(value, 8);
    }

    method EmitRex(w: bool)
      modifies this`bytes
      ensures bytes == old(bytes) + if w then [0x48] else []
    {
      if w {
        Emit8(0x48);
      }
    }

    method EmitMovImm(reg: Gpr, value: u64, width: RegWidth)
      requires Valid()
      modifies this
      ensures Valid() && code == old(code) + [MovImm(reg, width, Mask(value, width))]
    {
      hide EncAll, Le;
      EncAllSnoc(code, MovImm(reg, width, Mask(value, width)));
      code := code + [MovImm(reg, width, Mask(value, width))];
      match (reg, width) {
        case (Rax, X64) => Emit8(0x48); Emit8(0xB8); Emit64(value);
        case (Rcx, X64) => Emit8(0x48); Emit8(0xB9); Emit64(value);
        case (Rdx, X64) => Emit8(0x48); Emit8(0xBA); Emit64(value);
        case (Rsi, X64) => Emit8(0x48); Emit8(0xBE); Emit64(value);
        case (Rax, W32) => Emit8(0xB8); Emit32(value % P32);
        case (Rcx, W32) => Emit8(0xB9); Emit32(value % P32);
        case (Rdx, W32) => Emit8(0xBA); Emit32(value % P32);
        case (Rsi, W32) => Emit8(0xBE); Emit32(value % P32);
      }
    }

    method EmitMovLoad(reg: Gpr, disp: u32, width: RegWidth)
      requires Valid()
      modifies this
      ensures Valid() && code == old(code) + [MovLoad(reg, width, OnRdi, disp)]
    {
      hide EncAll, Le;
      EncAllSnoc(code, MovLoad(reg, width, OnRdi, disp));
      code := code + [MovLoad(reg, width, OnRdi, disp)];
      EmitRex(width == X64);
      Emit8(0x8B);
      Emit8(match reg case Rax => 0x87 case Rcx => 0x8F case Rdx => 0x97 case Rsi => 0xB7);
      Emit32(disp);
    }

    method EmitMovStore(disp: u32, reg: Gpr, width: RegWidth)
      requires Valid()
      modifies this
      ensures Valid() && code == old(code) + [MovStore(reg, width, OnRdi, disp)]
    {
      hide EncAll, Le;
      EncAllSnoc(code, MovStore(reg, width, OnRdi, disp));
      code := code + [MovStore(reg, width, OnRdi, disp)];
      EmitRex(width == X64);
      Emit8(0x89);
      Emit8(match reg case Rax => 0x87 case Rcx => 0x8F case Rdx => 0x97 case Rsi => 0xB7);
      Emit32(disp);
    }

    /** Only the pairs of registers below have an encoding here. */
    method EmitXor(dst: Gpr, src: Gpr, width: RegWidth)
      requires dst == src || (dst == Rax && src == Rcx) || (dst == Rcx && src == Rax)
      requires Valid()
      modifies this
      ensures Valid() && code == old(code) + [AluReg(AluXor, width, dst, src)]
    {
      hide EncAll, Le;
      EncAllSnoc(code, AluReg(AluXor, width, dst, src));
      code := code + [AluReg(AluXor, width, dst, src)];
      EmitRex(width == X64);
      Emit8(0x31);
      Emit8(match (dst, src)
        case (Rax, Rax) => 0xC0
        case (Rax, _) => 0xC8
        case (Rcx, Rax) => 0xC1
        case (Rcx, _) => 0xC9
        case (Rdx, _) => 0xD2
        case (Rsi, _) => 0xF6);
    }

    method EmitBinop(op: Opcode, width: RegWidth)
      requires IsBinop(op)
      requires Valid()
      modifies this
      ensures Valid() && code == old(code) + [AluReg(AluFor(op), width, Rax, Rcx)]
    {
      hide EncAll, Le;
      EncAllSnoc(code, AluReg(AluFor(op), width, Rax, Rcx));
      code := code + [AluReg(AluFor(op), width, Rax, Rcx)];
      EmitRex(width == X64);
      Emit8(match op case Add => 0x01 case Sub => 0x29 case And => 0x21 case Orr => 0x09 case _ => 0x31);
      Emit8(0xC8);
    }

    method EmitBinopImm(op: Opcode, width: RegWidth, value: u64)
      requires IsBinop(op)
      requires Valid()
      modifies this
      ensures Valid() && code == old(code) + [AluImm(AluFor(op), width, Rax, value % P32)]
    {
      hide EncAll, Enc, Le;
      AluImmBytes(op, width, value % P32);
      EncAllSnoc(code, AluImm(AluFor(op), width, Rax, value % P32));
      code := code + [AluImm(AluFor(op), width, Rax, value % P32)];
      EmitRex(width == X64);
      Emit8(0x81);
      var extension := ImmExtension(op);
      Emit8(0xC0 + extension * 8);
      Emit32(value % P32);
    }

    method EmitShiftImm(reg: Gpr, kind: ShiftKind, amount: u8, width: RegWidth)
      requires Valid()
      modifies this
      ensures Valid() && code == old(code) + ShiftBy(reg, kind, amount, width)
    {
      hide EncAll, Le, ModRm, ShiftModRm;
      if amount == 0 {
        return;
      }
      EncAllSnoc(code, ShiftImm(kind, width, reg, amount));
      code := code + [ShiftImm(kind, width, reg, amount)];
      EmitRex(width == X64);
      Emit8(0xC1);
      var rm := ShiftModRm(reg, kind);
      Emit8(rm);
      Emit8(amount);
    }

    method EmitShiftReg(kind: ShiftKind, width: RegWidth)
      requires Valid()
      modifies this
      ensures Valid() && code == old(code) + [ShiftCl(kind, width, Rax)]
    {
      hide EncAll, Le;
      EncAllSnoc(code, ShiftCl(kind, width, Rax));
      code := code + [ShiftCl(kind, width, Rax)];
      EmitRex(width == X64);
      Emit8(0xD3);
      Emit8(match kind case Lsl => 0xE0 case Lsr => 0xE8 case Asr => 0xF8 case Ror => 0xC8);
    }

    method EmitMemLoad(width: RegWidth, offset: i32)
      requires Valid()
      modifies this
      ensures Valid() && code == old(code) + [MovLoad(Rax, width, OnRax, Disp(offset))]
    {
      hide EncAll, Le;
      EncAllSnoc(code, MovLoad(Rax, width, OnRax, Disp(offset)));
      code := code + [MovLoad(Rax, width, OnRax, Disp(offset))];
      EmitRex(width == X64);
      Emit8(0x8B);
      Emit8(0x80);
      Emit32(Disp(offset));
    }

    method EmitMemStore(width: RegWidth, offset: i32)
      requires Valid()
      modifies this
      ensures Valid() && code == old(code) + [MovStore(Rcx, width, OnRax, Disp(offset))]
    {
      hide EncAll, Le;
      EncAllSnoc(code, MovStore(Rcx, width, OnRax, Disp(offset)));
      code := code + [MovStore(Rcx, width, OnRax, Disp(offset))];
      EmitRex(width == X64);
      Emit8(0x89);
      Emit8(0x88);
      Emit32(Disp(offset));
    }

    /** Bytes written out one by one; `i` is the instruction they encode. */
    method EmitRaw(bs: seq<u8>, ghost i: Instr)
      requires Valid() && bs == Enc(i)
      modifies this
      ensures Valid() && code == old(code) + [i]
    {
      hide EncAll, Enc;
      EncAllSnoc(code, i);
      code := code + [i];
      for k := 0 to |bs|
        invariant bytes == old(bytes) + bs[..k] && code == old(code) + [i]
      {
        Emit8(bs[k]);
      }
      assert bs[..|bs|] == bs;
    }

    method EmitLoadState(reg: Gpr, guest: GuestReg)
      requires Valid()
      modifies this
      ensures Valid() && code == old(code) + LoadReg(reg, guest)
    {
      if guest.kind == Zero {
        EmitXor(reg, reg, guest.width);
        return;
      }
      var disp := if guest.kind == StackPointer then SP_OFFSET else GPR_BASE + guest.num * 8;
      EmitMovLoad(reg, disp, guest.width);
    }

    method EmitStoreState(guest: GuestReg, reg: Gpr)
      requires Valid()
      modifies this
      ensures Valid() && code == old(code) + StoreReg(guest, reg)
    {
      if guest.kind == Zero {
        return;
      }
      var disp := if guest.kind == StackPointer then SP_OFFSET else GPR_BASE + guest.num * 8;
      EmitMovStore(disp, reg, X64);
    }

    method EmitLoadOperand(op: Operand, reg: Gpr, width: RegWidth) returns (r: Result<(), CodegenError>)
      requires Valid()
      modifies this
      ensures Valid() && old(code) <= code
      ensures Done(r, old(code), code, LoadOperand(op, reg, width))
    {
      hide EncAll, Scale, LoadReg, ShiftBy;
      match op {
        case Reg(g) => EmitLoadState(reg, g);
        case Imm(value) => EmitMovImm(reg, value, width);
        case ShiftedImm(value, amount) => EmitMovImm(reg, Scale(value, amount % 64) % P64, width);
        case ShiftedReg(guest, kind, amount) => EmitLoadState(reg, guest); EmitShiftImm(reg, kind, amount, width);
        case _ => return Err(UnsupportedOperand);
      }
      return Ok(());
    }

    method EmitNzcvFromX86Flags(op: Opcode)
      requires op == Add || op == Sub || op == And
      requires Valid()
      modifies this
      ensures Valid() && code == old(code) + Materialize(op)
    {
      hide EncAll, CaptureFlags, PackNZ, PackCV;
      EmitCaptureFlags(op);
      EmitPackNZ();
      EmitPackCV();
      EmitMovStore(NZCV_OFFSET, Rdx, W32);
    }

    method EmitCaptureFlags(op: Opcode)
      requires op == Add || op == Sub || op == And
      requires Valid()
      modifies this
      ensures Valid() && code == old(code) + CaptureFlags(op)
    {
      hide Enc, EncAll;
      SetccBytes();
      ClearBytes();
      EmitRaw([0x0F, 0x98, 0xC2], Setcc(Sign, Rdx));
      EmitRaw([0x0F, 0x94, 0xC1], Setcc(Equal, Rcx));
      if op == Add {
        EmitRaw([0x0F, 0x92, 0xC0], Setcc(Below, Rax));
        EmitRaw([0x40, 0x0F, 0x90, 0xC6], Setcc(Overflow, Rsi));
      } else if op == Sub {
        EmitRaw([0x0F, 0x93, 0xC0], Setcc(AboveEqual, Rax));
        EmitRaw([0x40, 0x0F, 0x90, 0xC6], Setcc(Overflow, Rsi));
      } else {
        EmitRaw([0x31, 0xC0], AluReg(AluXor, W32, Rax, Rax));
        EmitRaw([0x31, 0xF6], AluReg(AluXor, W32, Rsi, Rsi));
      }
    }

    method EmitPackNZ()
      requires Valid()
      modifies this
      ensures Valid() && code == old(code) + PackNZ()
    {
      hide Enc, EncAll;
      PackNZBytes();
      EmitRaw([0x0F, 0xB6, 0xD2], Movzx(Rdx, Rdx));
      EmitRaw([0xC1, 0xE2, 0x1F], ShiftImm(Lsl, W32, Rdx, 31));
      EmitRaw([0x0F, 0xB6, 0xC9], Movzx(Rcx, Rcx));
      EmitRaw([0xC1, 0xE1, 0x1E], ShiftImm(Lsl, W32, Rcx, 30));
      EmitRaw([0x09, 0xCA], AluReg(AluOr, W32, Rdx, Rcx));
    }

    method EmitPackCV()
      requires Valid()
      modifies this
      ensures Valid() && code == old(code) + PackCV()
    {
      hide Enc, EncAll;
      PackCVBytes();
      EmitRaw([0x0F, 0xB6, 0xC0], Movzx(Rax, Rax));
      EmitRaw([0xC1, 0xE0, 0x1D], ShiftImm(Lsl, W32, Rax, 29));
      EmitRaw([0x09, 0xC2], AluReg(AluOr, W32, Rdx, Rax));
      EmitRaw([0x40, 0x0F, 0xB6, 0xF6], Movzx(Rsi, Rsi));
      EmitRaw([0xC1, 0xE6, 0x1C], ShiftImm(Lsl, W32, Rsi, 28));
      EmitRaw([0x09, 0xF2], AluReg(AluOr, W32, Rdx, Rsi));
    }

    method EmitGuestAddress(base: GuestReg)
      requires Valid()
      modifies this
      ensures Valid() && code == old(code) + GuestAddress(base)
    {
      EmitLoadState(Rax, base);
      EmitMovImm(Rdx, HOST_BASE, X64);
      EmitRaw([0x48, 0x01, 0xD0], AluReg(AluAdd, X64, Rax, Rdx));
    }

    method EmitSetPcImm(pc: u64)
      requires Valid()
      modifies this
      ensures Valid() && code == old(code) + SetPcCode(pc)
    {
      EmitMovImm(Rax, pc, X64);
      EmitMovStore(PC_OFFSET, Rax, X64);
    }

    method EmitSetPcRet(pc: u64)
      requires Valid()
      modifies this
      ensures Valid() && code == old(code) + SetPcRet(pc)
    {
      EmitSetPcImm(pc);
      EmitRaw([0xC3], RetI);
    }

    method EmitBranchCond(target: u64, condition: u64, fallthrough: u64) returns (r: Result<(), CodegenError>)
      requires Valid()
      modifies this
      ensures Valid() && old(code) <= code
      ensures Done(r, old(code), code, LowerConditional(Imm(condition), NoOperand, target, fallthrough))
    {
      hide Enc, EncAll, ConditionTable, SetPcRet;
      if condition > 15 {
        return Err(UnsupportedOperand);
      }
      var tables := BuildConditionTables();
      BranchBytes();
      EmitMovLoad(Rax, NZCV_OFFSET, W32);
      EmitRaw([0xC1, 0xE8, 0x1C], ShiftImm(Lsr, W32, Rax, 28));
      EmitMovImm(Rcx, tables[condition], W32);
      EmitRaw([0x66, 0x0F, 0xA3, 0xC1], Bt16(Rcx, Rax));
      EmitRaw([0x73, SET_PC_RET_LEN], Jcc(AboveEqual, SET_PC_RET_LEN));
      EmitSetPcRet(target);
      EmitSetPcRet(fallthrough);
      return Ok(());
    }

    /** CBZ (`kind` 0) and CBNZ (`kind` 1). */
    method EmitCompareBranch(reg: GuestReg, kind: u64, target: u64, fallthrough: u64)
      requires Valid() && kind <= 1
      modifies this
      ensures Valid() && old(code) <= code
      ensures Done(Ok(()), old(code), code, LowerConditional(Reg(reg), Imm(kind), target, fallthrough))
    {
      hide Enc, EncAll, LoadReg, SetPcRet;
      BranchBytes();
      EmitLoadState(Rax, reg);
      EmitRaw(if reg.width == X64 then [0x48, 0x85, 0xC0] else [0x85, 0xC0], Test(reg.width, Rax, Rax));
      EmitRaw([if kind == 0 then 0x75 else 0x74, SET_PC_RET_LEN],
              Jcc(if kind == 0 then NotEqual else Equal, SET_PC_RET_LEN));
      EmitSetPcRet(target);
      EmitSetPcRet(fallthrough);
    }

    /** The instructions that fall through to the next one. */
    method EmitStraight(inst: IRInst) returns (r: Result<(), CodegenError>)
      requires Valid() && FlagsAllowed(inst) && !EndsBlock(inst.opcode)
      modifies this
      ensures Valid() && old(code) <= code
      ensures Done(r, old(code), code, LowerStraight(inst))
    {
      if inst.opcode == Nop {
        EmitRaw([0x90], NopI);
        return Ok(());
      } else if inst.opcode == Mov {
        r := EmitMov(inst);
      } else if IsBinop(inst.opcode) {
        r := EmitArithmetic(inst);
      } else if inst.opcode == Shift {
        r := EmitShift(inst);
      } else if inst.opcode == Load {
        r := EmitLoad(inst);
      } else if inst.opcode == Store {
        r := EmitStore(inst);
      } else {
        return Err(UnsupportedOpcode(inst.opcode));
      }
    }

    method EmitMov(inst: IRInst) returns (r: Result<(), CodegenError>)
      requires Valid() && inst.opcode == Mov
      modifies this
      ensures Valid() && old(code) <= code
      ensures Done(r, old(code), code, LowerStraight(inst))
    {
      hide LoadOperand, StoreReg, EncAll;
      if !inst.a.Reg? {
        return Err(UnsupportedOperand);
      }
      r := EmitLoadOperand(inst.b, Rax, inst.a.reg.width);
      if r.Err? {
        return;
      }
      EmitStoreState(inst.a.reg, Rax);
    }

    method EmitArithmetic(inst: IRInst) returns (r: Result<(), CodegenError>)
      requires Valid() && FlagsAllowed(inst) && IsBinop(inst.opcode)
      modifies this
      ensures Valid() && old(code) <= code
      ensures Done(r, old(code), code, LowerStraight(inst))
    {
      hide BinopCore, StoreReg, EncAll, Materialize;
      if !inst.a.Reg? {
        return Err(UnsupportedOperand);
      }
      r := EmitBinopCore(inst, inst.a.reg.width);
      if r.Err? {
        return;
      }
      EmitStoreState(inst.a.reg, Rax);
      if inst.WritesNzcv() {
        EmitNzcvFromX86Flags(inst.opcode);
      }
    }

    method EmitBinopCore(inst: IRInst, width: RegWidth) returns (r: Result<(), CodegenError>)
      requires Valid() && IsBinop(inst.opcode)
      modifies this
      ensures Valid() && old(code) <= code
      ensures Done(r, old(code), code, BinopCore(inst, width))
    {
      hide LoadOperand, LoadReg, EncAll, IsImmediateCandidate;
      var selection := Select(inst);
      if selection.form == Immediate && inst.b.Reg? && inst.c.Imm? {
        EmitLoadState(Rax, inst.b.reg);
        EmitBinopImm(inst.opcode, width, inst.c.imm);
        return Ok(());
      }
      CandidateHasImmediate(inst);
      r := EmitLoadOperand(inst.b, Rax, width);
      if r.Err? {
        return;
      }
      r := EmitLoadOperand(inst.c, Rcx, width);
      if r.Err? {
        return;
      }
      EmitBinop(inst.opcode, width);
    }

    method EmitShift(inst: IRInst) returns (r: Result<(), CodegenError>)
      requires Valid() && inst.opcode == Shift
      modifies this
      ensures Valid() && old(code) <= code
      ensures Done(r, old(code), code, LowerStraight(inst))
    {
      hide LoadOperand, LoadReg, StoreReg, EncAll;
      if !inst.a.Reg? {
        return Err(UnsupportedOperand);
      }
      r := EmitLoadOperand(inst.b, Rax, inst.a.reg.width);
      if r.Err? {
        return;
      }
      if !inst.c.ShiftReg? {
        return Err(UnsupportedOperand);
      }
      EmitLoadState(Rcx, inst.c.amount);
      EmitShiftReg(inst.c.kind, inst.a.reg.width);
      EmitStoreState(inst.a.reg, Rax);
    }

    method EmitLoad(inst: IRInst) returns (r: Result<(), CodegenError>)
      requires Valid() && inst.opcode == Load
      modifies this
      ensures Valid() && old(code) <= code
      ensures Done(r, old(code), code, LowerStraight(inst))
    {
      hide GuestAddress, StoreReg, EncAll;
      if !inst.a.Reg? || !inst.b.Mem? {
        return Err(UnsupportedOperand);
      }
      EmitGuestAddress(inst.b.mem.base);
      EmitMemLoad(inst.b.mem.width, inst.b.mem.offset);
      EmitStoreState(inst.a.reg, Rax);
      return Ok(());
    }

    method EmitStore(inst: IRInst) returns (r: Result<(), CodegenError>)
      requires Valid() && inst.opcode == Store
      modifies this
      ensures Valid() && old(code) <= code
      ensures Done(r, old(code), code, LowerStraight(inst))
    {
      hide GuestAddress, LoadReg, EncAll;
      if !inst.a.Mem? || !inst.b.Reg? {
        return Err(UnsupportedOperand);
      }
      EmitLoadState(Rcx, inst.b.reg);
      EmitGuestAddress(inst.a.mem.base);
      EmitMemStore(inst.a.mem.width, inst.a.mem.offset);
      return Ok(());
    }

    /** The instructions that end a block. */
    method EmitExit(inst: IRInst, fallthrough: u64) returns (r: Result<(), CodegenError>)
      requires Valid() && EndsBlock(inst.opcode)
      modifies this
      ensures Valid() && old(code) <= code
      ensures Done(r, old(code), code, LowerExit(inst, fallthrough))
    {
      hide EncAll, LowerTest, SetPcRet, LoadReg;
      if inst.opcode == Branch {
        if !inst.a.GuestPc? {
          return Err(UnsupportedOperand);
        }
        EmitSetPcRet(inst.a.target);
        return Ok(());
      } else if inst.opcode == BranchCond {
        if !inst.a.GuestPc? {
          return Err(UnsupportedOperand);
        }
        if inst.b.Imm? && inst.c.NoOperand? {
          r := EmitBranchCond(inst.a.target, inst.b.imm, fallthrough);
        } else if inst.b.Reg? && inst.c.Imm? && inst.c.imm <= 1 {
          EmitCompareBranch(inst.b.reg, inst.c.imm, inst.a.target, fallthrough);
          return Ok(());
        } else {
          OtherTestsRejected(inst.b, inst.c);
          return Err(UnsupportedOperand);
        }
      } else {
        EmitLoadState(Rax, XReg(30));
        EmitMovStore(PC_OFFSET, Rax, X64);
        EmitRaw([0xC3], RetI);
        return Ok(());
      }
    }

    /** Emits a whole block, stopping after the first instruction that leaves it. */
    method EmitBlock(block: Block) returns (r: Result<(), CodegenError>)
      requires Valid() && forall i :: 0 <= i < |block.insts| ==> FlagsAllowed(block.insts[i])
      modifies this
      ensures Valid()
      ensures Done(r, old(code), code, LowerBlock(block.guestPc, block.insts, block.guestByteLen))
    {
      hide Lower, LowerStraight, LowerExit, SetPcRet, EncAll, Prepend, AddPc, FlagsAllowed;
      var insts := block.insts;
      var n := |insts|;
      var byteLen := block.ByteLen();
      ghost var endPc := if insts == [] then block.guestPc else AddPc(block.guestPc, byteLen);
      ghost var whole := LowerBlock(block.guestPc, insts, byteLen);
      ghost var emitted: seq<Instr> := [];
      LowerStart(insts, block.guestPc, endPc);
      for index := 0 to n
        invariant Valid() && code == old(code) + emitted && (index == 0 ==> emitted == [])
        invariant index == 0 || index < n ==>
          whole == Prepend(emitted, Lower(insts[index..], AddPc(block.guestPc, 4 * index), endPc))
        invariant 0 < index == n ==> whole == Ok(emitted)
      {
        var inst := insts[index];
        var fallthrough := AddPc(block.guestPc, (index + 1) * 4);
        LowerNext(insts, index, block.guestPc, endPc, emitted);
        if EndsBlock(inst.opcode) {
          r := EmitExit(inst, fallthrough);
          DoneAfter(r, old(code), emitted, code, LowerExit(inst, fallthrough));
          return;
        }
        r := EmitStraight(inst);
        if r.Err? {
          return;
        }
        emitted := emitted + LowerStraight(inst).value;
        if index + 1 == n {
          EmitSetPcRet(AddPc(block.guestPc, byteLen));
          emitted := emitted + SetPcRet(endPc);
        }
      }
      if insts == [] {
        assert old(code) + [] == old(code);
        EmitSetPcRet(block.guestPc);
      }
      return Ok(());
    }
  }

  /** An exit emitted after `emitted` finishes the block. */
  lemma DoneAfter(r: Result<(), CodegenError>, before: seq<Instr>, emitted: seq<Instr>, after: seq<Instr>, lowered: Lowered)
    requires Done(r, before + emitted, after, lowered)
    ensures Done(r, before, after, Prepend(emitted, lowered))
  {
    if lowered.Ok? {
      assert (before + emitted) + lowered.value == before + (emitted + lowered.value);
    }
  }

  lemma LowerStart(insts: seq<IRInst>, guestPc: u64, endPc: u64)
    ensures Lower(insts, guestPc, endPc) == Prepend([], Lower(insts[0..], AddPc(guestPc, 4 * 0), endPc))
    ensures insts == [] ==> Lower(insts, guestPc, endPc) == Ok(SetPcRet(endPc))
  {
    hide LowerStraight, LowerExit, SetPcRet;
    assert insts[0..] == insts && AddPc(guestPc, 0) == guestPc;
    PrependNothing(Lower(insts, guestPc, endPc));
  }

  /** What is left to emit at instruction `index`, in terms of what is left after it. */
  lemma LowerNext(insts: seq<IRInst>, index: nat, guestPc: u64, endPc: u64, emitted: seq<Instr>)
    requires index < |insts|
    ensures var rest := Prepend(emitted, Lower(insts[index..], AddPc(guestPc, 4 * index), endPc));
            var next := AddPc(guestPc, 4 * (index + 1));
            if EndsBlock(insts[index].opcode) then rest == Prepend(emitted, LowerExit(insts[index], next))
            else
              match LowerStraight(insts[index])
              case Err(e) => rest == Err(e)
              case Ok(code) =>
                && rest == Prepend(emitted + code, Lower(insts[index + 1..], next, endPc))
                && (index + 1 == |insts| ==> rest == Ok(emitted + code + SetPcRet(endPc)))
  {
    hide LowerStraight, LowerExit, SetPcRet, AddPc, Lower;
    var next := AddPc(guestPc, 4 * (index + 1));
    LowerUnfold(insts, index, guestPc, endPc);
    if !EndsBlock(insts[index].opcode) && LowerStraight(insts[index]).Ok? {
      var code := LowerStraight(insts[index]).value;
      PrependTwice(emitted, code, Lower(insts[index + 1..], next, endPc));
      if index + 1 == |insts| {
        LowerNothing(insts[index + 1..], next, endPc);
      }
    }
  }

  lemma PrependNothing(code: Lowered)
    ensures Prepend([], code) == code
  {
    if code.Ok? {
      assert [] + code.value == code.value;
    }
  }

  lemma PrependTwice(a: seq<Instr>, b: seq<Instr>, rest: Lowered)
    ensures Prepend(a, Prepend(b, rest)) == Prepend(a + b, rest)
  {
    if rest.Ok? {
      assert a + (b + rest.value) == (a + b) + rest.value;
    }
  }

  lemma CandidateHasImmediate(inst: IRInst)
    ensures IsImmediateCandidate(inst) ==> inst.c.Imm?
  {
  }

  lemma OtherTestsRejected(b: Operand, c: Operand)
    requires !(b.Imm? && c.NoOperand?) && !(b.Reg? && c.Imm? && c.imm <= 1)
    ensures LowerTest(b, c) == Err(UnsupportedOperand)
  {
  }

  lemma LowerNothing(insts: seq<IRInst>, pc: u64, endPc: u64)
    requires insts == []
    ensures Lower(insts, pc, endPc) == Ok(SetPcRet(endPc))
  {
  }

  /** One step of the lowering at instruction `index`. */
  lemma LowerUnfold(insts: seq<IRInst>, index: nat, guestPc: u64, endPc: u64)
    requires index < |insts|
    ensures Lower(insts[index..], AddPc(guestPc, 4 * index), endPc) ==
            if EndsBlock(insts[index].opcode) then LowerExit(insts[index], AddPc(guestPc, 4 * (index + 1)))
            else
              match LowerStraight(insts[index])
              case Err(e) => Err(e)
              case Ok(code) => Prepend(code, Lower(insts[index + 1..], AddPc(guestPc, 4 * (index + 1)), endPc))
  {
    hide LowerStraight, LowerExit, SetPcRet;
    assert insts[index..][1..] == insts[index + 1..];
    assert AddPc(AddPc(guestPc, 4 * index), 4) == AddPc(guestPc, 4 * (index + 1));
  }

  /** An emitter either appended the lowered code or reports the lowering's error. */
  ghost predicate Done(r: Result<(), CodegenError>, before: seq<Instr>, after: seq<Instr>, lowered: Lowered) {
    match lowered
    case Ok(c) => r == Ok(()) && after == before + c
    case Err(e) => r == Err(e)
  }

  lemma SetccBytes()
    ensures Enc(Setcc(Sign, Rdx)) == [0x0F, 0x98, 0xC2] && Enc(Setcc(Equal, Rcx)) == [0x0F, 0x94, 0xC1]
    ensures Enc(Setcc(Below, Rax)) == [0x0F, 0x92, 0xC0] && Enc(Setcc(AboveEqual, Rax)) == [0x0F, 0x93, 0xC0]
    ensures Enc(Setcc(Overflow, Rsi)) == [0x40, 0x0F, 0x90, 0xC6]
  {
  }

  lemma ClearBytes()
    ensures Enc(AluReg(AluXor, W32, Rax, Rax)) == [0x31, 0xC0] && Enc(AluReg(AluXor, W32, Rsi, Rsi)) == [0x31, 0xF6]
  {
  }

  lemma PackNZBytes()
    ensures Enc(Movzx(Rdx, Rdx)) == [0x0F, 0xB6, 0xD2] && Enc(ShiftImm(Lsl, W32, Rdx, 31)) == [0xC1, 0xE2, 0x1F]
    ensures Enc(Movzx(Rcx, Rcx)) == [0x0F, 0xB6, 0xC9] && Enc(ShiftImm(Lsl, W32, Rcx, 30)) == [0xC1, 0xE1, 0x1E]
    ensures Enc(AluReg(AluOr, W32, Rdx, Rcx)) == [0x09, 0xCA]
  {
  }

  lemma PackCVBytes()
    ensures Enc(Movzx(Rax, Rax)) == [0x0F, 0xB6, 0xC0] && Enc(ShiftImm(Lsl, W32, Rax, 29)) == [0xC1, 0xE0, 0x1D]
    ensures Enc(Movzx(Rsi, Rsi)) == [0x40, 0x0F, 0xB6, 0xF6] && Enc(ShiftImm(Lsl, W32, Rsi, 28)) == [0xC1, 0xE6, 0x1C]
    ensures Enc(AluReg(AluOr, W32, Rdx, Rax)) == [0x09, 0xC2] && Enc(AluReg(AluOr, W32, Rdx, Rsi)) == [0x09, 0xF2]
  {
  }

  lemma BranchBytes()
    ensures Enc(ShiftImm(Lsr, W32, Rax, 28)) == [0xC1, 0xE8, 0x1C] && Enc(Bt16(Rcx, Rax)) == [0x66, 0x0F, 0xA3, 0xC1]
    ensures forall n: u8 :: Enc(Jcc(AboveEqual, n)) == [0x73, n]
    ensures forall n: u8 :: Enc(Jcc(NotEqual, n)) == [0x75, n]
    ensures forall n: u8 :: Enc(Jcc(Equal, n)) == [0x74, n]
    ensures Enc(Test(X64, Rax, Rax)) == [0x48, 0x85, 0xC0] && Enc(Test(W32, Rax, Rax)) == [0x85, 0xC0]
  {
  }
}
