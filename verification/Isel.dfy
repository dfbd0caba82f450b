/** Immediate-form selection (src/jit/isel.rs). */
module Isel {
  import opened Words
  import opened Ir

  datatype InstForm = Generic | Immediate

  datatype Selection = Selection(opcode: Opcode, form: InstForm, cost: u8)

  /** `value as i32 as i64 as u64`: keep 32 bits, sign-extend to 64. */
  function SignExtendLow32(value: u64): u64 {
    var low := value % P32;
    if low < P31 then low else low + (P64 - P32)
  }

  predicate IsImmediateCandidate(inst: IRInst) {
    && IsBinop(inst.opcode)
    && inst.a.Reg?
    && inst.c.Imm?
    && match inst.a.reg.width
       case W32 => inst.c.imm < P32
       case X64 =>
         if inst.opcode == Add || inst.opcode == Sub then SignExtendLow32(inst.c.imm) == inst.c.imm
         else inst.c.imm < P31
  }

  function GenericCost(op: Opcode): u8 {
    match op
    case Nop => 0
    case Mov => 1
    case Add => 2 case Sub => 2 case And => 2 case Orr => 2 case Eor => 2 case Shift => 2
    case Load => 3 case Store => 3
    case _ => 4
  }

  function Select(inst: IRInst): Selection {
    if IsImmediateCandidate(inst) then Selection(inst.opcode, Immediate, 1)
    else Selection(inst.opcode, Generic, GenericCost(inst.opcode))
  }

  /** For 64-bit Add/Sub the accepted constants are exactly the sign-extended 32-bit ones. */
  lemma AddSubImmediateRange(inst: IRInst)
    requires inst.a.Reg? && inst.a.reg.width == X64 && inst.c.Imm?
    requires inst.opcode == Add || inst.opcode == Sub
    ensures IsImmediateCandidate(inst) <==> (inst.c.imm < P31 || P64 - P31 <= inst.c.imm)
  {
    var v := inst.c.imm;
    assert v == v / P32 * P32 + v % P32;
  }

  /** The constants accepted as immediates: any 32-bit one in a W operation, the sign-extended
      ones in a 64-bit addition or subtraction, and in a 64-bit logical operation only those
      that sign extension leaves alone. */
  lemma ImmediateRange(inst: IRInst)
    ensures IsImmediateCandidate(inst) <==>
            && inst.opcode in {Add, Sub, And, Orr, Eor} && inst.a.Reg? && inst.c.Imm?
            && var v := inst.c.imm;
               if inst.a.reg.width == W32 then v < P32
               else v < P31 || (inst.opcode in {Add, Sub} && P64 - P31 <= v)
  {
    if inst.a.Reg? && inst.a.reg.width == X64 && inst.c.Imm? && inst.opcode in {Add, Sub} {
      AddSubImmediateRange(inst);
    }
  }

  function CountCandidates(insts: seq<IRInst>): nat {
    if insts == [] then 0
    else CountCandidates(insts[..|insts| - 1]) + if IsImmediateCandidate(insts[|insts| - 1]) then 1 else 0
  }

  class InstructionSelector {
    var immediateForms: u32

    constructor ()
      ensures immediateForms == 0
    {
      immediateForms := 0;
    }

    /** Counts the candidates, saturating, and leaves the block alone. */
    method SelectBlock(block: Block)
      requires block as object != this
      modifies this
      ensures immediateForms == if old(immediateForms) + CountCandidates(block.insts) < P32
                                then old(immediateForms) + CountCandidates(block.insts) else P32 - 1
    {
      ghost var n := immediateForms;
      for i := 0 to |block.insts|
        invariant immediateForms == if n + CountCandidates(block.insts[..i]) < P32
                                    then n + CountCandidates(block.insts[..i]) else P32 - 1
      {
        assert block.insts[..i + 1][..i] == block.insts[..i];
        if IsImmediateCandidate(block.insts[i]) {
          immediateForms := if immediateForms + 1 < P32 then immediateForms + 1 else P32 - 1;
        }
      }
      assert block.insts[..|block.insts|] == block.insts;
    }
  }
}
