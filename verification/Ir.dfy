/** The guest IR: registers, operands, instructions and basic blocks
    (src/ir/operand.rs, src/ir/inst.rs, src/ir/block.rs). */
module Ir {
  import opened Words

  datatype RegWidth = W32 | X64

  datatype RegKind = General | StackPointer | Zero

  datatype GuestReg = GuestReg(num: u8, width: RegWidth, kind: RegKind)

  datatype ShiftKind = Lsl | Lsr | Asr | Ror

  datatype MemOperand = MemOperand(base: GuestReg, offset: i32, width: RegWidth)

  datatype Operand =
    | NoOperand
    | SsaValue(id: u32)
    | Reg(reg: GuestReg)
    | Imm(imm: u64)
    | ShiftedImm(base16: u16, immShift: u8)
    | PCRelative(displacement: i64)
    | GuestPc(target: u64)
    | RawInst(word: u32)
    | ShiftedReg(source: GuestReg, regShiftKind: ShiftKind, regShift: u8)
    | ShiftReg(value: GuestReg, amount: GuestReg, kind: ShiftKind)
    | Mem(mem: MemOperand)

  datatype Opcode =
    | Nop | Unsupported | Mov | Add | Sub | And | Orr | Eor | Shift | Extend
    | Load | Store | Compare | Branch | BranchCond | Call | Ret

  const FLAG_WRITES_NZCV: u16 := 1

  datatype IRInst = IRInst(opcode: Opcode, flags: u16, a: Operand, b: Operand, c: Operand) {
    /** `flags & FLAG_WRITES_NZCV != 0`: the flag is bit 0. */
    predicate WritesNzcv() {
      flags % 2 == FLAG_WRITES_NZCV
    }
  }

  function XReg(num: u8): GuestReg {
    GuestReg(num, X64, if num == 31 then Zero else General)
  }

  function WReg(num: u8): GuestReg {
    GuestReg(num, W32, if num == 31 then Zero else General)
  }

  const XSP := GuestReg(31, X64, StackPointer)

  predicate IsBinop(op: Opcode) {
    op == Add || op == Sub || op == And || op == Orr || op == Eor
  }

  /** Only these operations may ask for NZCV. */
  predicate FlagsAllowed(inst: IRInst) {
    IsBinop(inst.opcode) && inst.WritesNzcv() ==> inst.opcode == Add || inst.opcode == Sub || inst.opcode == And
  }

  predicate EndsBlock(op: Opcode) {
    op == Branch || op == BranchCond || op == Ret
  }

  function Bits(w: RegWidth): nat {
    if w == W32 then 32 else 64
  }

  function Modulus(w: RegWidth): nat {
    if w == W32 then P32 else P64
  }

  lemma ModulusIsPow2(w: RegWidth)
    ensures Modulus(w) == Pow2(Bits(w)) == 2 * Pow2(Bits(w) - 1)
  {
    Pow2Values();
  }

  /** Truncation to a register width, zero-extended back to 64 bits. */
  function Mask(v: nat, w: RegWidth): u64 {
    v % Modulus(w)
  }

  function AddPc(pc: u64, delta: int): u64 {
    (pc + delta) % P64
  }

  /** A basic block that is filled one instruction at a time. */
  class Block {
    var guestPc: u64
    var insts: seq<IRInst>
    var hitCount: u32
    var guestByteLen: u64

    constructor ()
      ensures guestPc == 0 && insts == [] && hitCount == 0 && guestByteLen == 0
    {
      guestPc, insts, hitCount, guestByteLen := 0, [], 0, 0;
    }

    constructor At(pc: u64)
      ensures guestPc == pc && insts == [] && hitCount == 0 && guestByteLen == 0
    {
      guestPc, insts, hitCount, guestByteLen := pc, [], 0, 0;
    }

    /** Every pushed instruction accounts for one guest word. */
    ghost predicate Valid()
      reads this
    {
      guestByteLen == ByteSpan(|insts|)
    }

    method Push(inst: IRInst)
      modifies this`insts, this`guestByteLen
      ensures insts == old(insts) + [inst]
      ensures old(Valid()) ==> Valid()
      ensures guestByteLen == if old(guestByteLen) + 4 < P64 then old(guestByteLen) + 4 else P64 - 1
    {
      insts := insts + [inst];
      guestByteLen := if guestByteLen + 4 < P64 then guestByteLen + 4 else P64 - 1;
    }

    method ByteLen() returns (n: u64)
      ensures n == guestByteLen
    {
      n := guestByteLen;
    }
  }

  /** Guest bytes spanned by `n` words, saturating like the field that counts them. */
  function ByteSpan(n: nat): u64 {
    if 4 * n < P64 then 4 * n else P64 - 1
  }
}
