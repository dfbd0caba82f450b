/** Layout of the guest state that translated code addresses through `rdi`, and
    the fixed host base of guest memory (src/runtime/state.rs, src/runtime/memory.rs). */
module State {
  import opened Words
  import opened Ir
  import opened Arm

  // Field offsets of the `repr(C)` struct: 31 registers, sp, nzcv, padding, pc.
  const GPR_BASE: u32 := 0
  const SP_OFFSET: u32 := GPR_BASE + 31 * 8
  const NZCV_OFFSET: u32 := SP_OFFSET + 8
  const PC_OFFSET: u32 := NZCV_OFFSET + 4 + 4

  /** The next multiple of an alignment. */
  function Aligned(offset: nat, alignment: nat): nat
    requires alignment > 0
  {
    (offset + alignment - 1) / alignment * alignment
  }

  /** The fields of the guest state in declaration order: 31 registers, sp, nzcv, padding, pc. */
  function FieldSize(i: nat): nat {
    if i == 0 then 31 * 8 else if i == 2 || i == 3 then 4 else 8
  }

  function FieldAlignment(i: nat): (n: nat)
    ensures n > 0
  {
    if i == 2 || i == 3 then 4 else 8
  }

  /** C layout: each field after its predecessor, aligned. */
  function FieldOffset(i: nat): nat {
    if i == 0 then 0 else Aligned(FieldOffset(i - 1) + FieldSize(i - 1), FieldAlignment(i))
  }

  /** The offsets that emitted code uses are those of C layout, and guest memory starts at 2^46. */
  lemma LayoutIsC()
    ensures GPR_BASE == FieldOffset(0) && SP_OFFSET == FieldOffset(1)
    ensures NZCV_OFFSET == FieldOffset(2) && PC_OFFSET == FieldOffset(4)
    ensures HOST_BASE == Pow2(46)
  {
    hide Pow2;
    assert FieldOffset(1) == 248 && FieldOffset(2) == 256 && FieldOffset(3) == 260;
    Pow2Values();
    Pow2Nibble();
    Pow2Add(16, 30);
  }

  const HOST_BASE: u64 := 0x4000_0000_0000

  /** The aligned 64-bit word of the struct at offset `disp`. */
  function WordAt(g: Regs, disp: nat): Option<u64> {
    if disp < SP_OFFSET && disp % 8 == 0 then Some(g.gpr[disp / 8])
    else if disp == SP_OFFSET then Some(g.sp)
    else if disp == NZCV_OFFSET then Some(g.nzcv + P32 * g.pad)
    else if disp == PC_OFFSET then Some(g.pc)
    else None
  }

  function WithWordAt(g: Regs, disp: nat, v: u64): Option<Regs> {
    if disp < SP_OFFSET && disp % 8 == 0 then Some(g.(gpr := g.gpr[disp / 8 := v]))
    else if disp == SP_OFFSET then Some(g.(sp := v))
    else if disp == NZCV_OFFSET then Some(g.(nzcv := v % P32, pad := v / P32))
    else if disp == PC_OFFSET then Some(g.(pc := v))
    else None
  }

  function LoadState(g: Regs, disp: nat, w: RegWidth): Option<u64> {
    match WordAt(g, disp)
    case None => None
    case Some(v) => Some(Mask(v, w))
  }

  /** A 32-bit store replaces the low half of the word only. */
  function StoreState(g: Regs, disp: nat, v: u64, w: RegWidth): Option<Regs> {
    match WordAt(g, disp)
    case None => None
    case Some(before) =>
      WithWordAt(g, disp, if w == X64 then v else before / P32 * P32 + v % P32)
  }

  /** Offset of a guest register in the struct. */
  function RegOffset(r: GuestReg): u32
    requires r.kind != Zero
  {
    if r.kind == StackPointer then SP_OFFSET else GPR_BASE + r.num * 8
  }

  /** Loading and storing at a register's offset is reading and writing the register. */
  lemma RegOffsetAddressesRegister(g: Regs, r: GuestReg, v: u64)
    requires InRange(r) && r.kind != Zero
    ensures LoadState(g, RegOffset(r), r.width) == Some(Read(g, r))
    ensures StoreState(g, RegOffset(r), v, X64) == Some(Write(g, r.(width := X64), v))
  {
    if r.kind == General {
      assert RegOffset(r) / 8 == r.num;
    }
  }

  /** The guest address whose byte lives at host address `host`. */
  function HostToGuest(host: u64): u64 {
    AddPc(host, 0 - HOST_BASE)
  }
}
