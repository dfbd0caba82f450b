/** The constant-propagating optimizer (src/jit/optimizer.rs): what one
    instruction and one constant table become, and the loop over a block. */
module Optimizer {
  import opened Words
  import opened Ir
  import opened Arm

  /** Known register values, one entry per general register. */
  type Consts = k: seq<Option<u64>> | |k| == 31 witness seq(31, _ => None)

  function NoConsts(): (k: Consts)
    ensures forall n :: 0 <= n < 31 ==> k[n] == None
  {
    seq(31, _ => None)
  }

  function Rewrite(op: Operand, k: Consts): Operand
    requires OperandInRange(op)
  {
    if op.Reg? && op.reg.kind == General && k[op.reg.num].Some?
    then Imm(Mask(k[op.reg.num].value, op.reg.width))
    else op
  }

  function ConstantOperand(op: Operand, k: Consts): Option<u64>
    requires OperandInRange(op)
  {
    match op
    case Imm(v) => Some(v)
    case Reg(r) =>
      if r.kind == Zero then Some(0)
      else if r.kind == General && k[r.num].Some? then Some(Mask(k[r.num].value, r.width))
      else None
    case _ => None
  }

  /** Wrapping 64-bit arithmetic, then truncation to the width. */
  function FoldBinop(op: Opcode, lhs: u64, rhs: u64, w: RegWidth): u64
    requires IsBinop(op)
  {
    if op == Add then Mask((lhs + rhs) % P64, w)
    else if op == Sub then Mask((lhs - rhs) % P64, w)
    else Mask(Bitwise(Logic(op), lhs, rhs), w)
  }

  /** The 64-bit shift of an already truncated value; a rotation rotates all 64 bits. */
  function ShiftWide(v: u64, shift: nat, kind: ShiftKind, w: RegWidth): u64
    requires shift < Bits(w)
  {
    match kind
    case Lsl => Scale(v, shift) % P64
    case Lsr => Mask(Unscale(v, shift), X64)
    case Asr => Wrap(FloorDiv(Signed(w, v), Pow2(shift)), w)
    case Ror => (Unscale(v, shift) + Scale(LowBits(v, shift), 64 - shift)) % P64
  }

  function FoldShift(value: u64, amount: u64, kind: ShiftKind, w: RegWidth): u64 {
    Mask(ShiftWide(Mask(value, w), amount % P32 % Bits(w), kind, w), w)
  }

  predicate SameGeneralReg(a: GuestReg, b: GuestReg) {
    a.kind == General && b.kind == General && a.num == b.num && a.width == b.width
  }

  predicate AllOnes(v: u64, w: RegWidth) {
    Mask(v, w) == Mask(P64 - 1, w)
  }

  function AsMov(inst: IRInst, b: Operand): IRInst {
    inst.(opcode := Mov, b := b, c := NoOperand)
  }

  predicate SameRegTwice(b: Operand, c: Operand) {
    b.Reg? && c.Reg? && SameGeneralReg(b.reg, c.reg)
  }

  /** Algebraic identities that hold whatever the registers contain. */
  function SimplifyIdentity(inst: IRInst, w: RegWidth): Option<IRInst> {
    var zero := inst.c == Imm(0);
    var ones := inst.c.Imm? && AllOnes(inst.c.imm, w);
    if (inst.opcode == Add || inst.opcode == Sub) && zero then Some(AsMov(inst, inst.b))
    else if inst.opcode == Sub && SameRegTwice(inst.b, inst.c) then Some(AsMov(inst, Imm(0)))
    else if inst.opcode == And && zero then Some(AsMov(inst, Imm(0)))
    else if inst.opcode == And && ones then Some(AsMov(inst, inst.b))
    else if inst.opcode == Orr && ones then Some(AsMov(inst, Imm(Mask(P64 - 1, w))))
    else if (inst.opcode == Orr || inst.opcode == Eor) && zero then Some(AsMov(inst, inst.b))
    else if inst.opcode == Eor && SameRegTwice(inst.b, inst.c) then Some(AsMov(inst, Imm(0)))
    else None
  }

  predicate WritesGeneral(op: Operand) {
    op.Reg? && op.reg.kind == General
  }

  function Forget(op: Operand, k: Consts): Consts
    requires OperandInRange(op)
  {
    if WritesGeneral(op) then k[op.reg.num := None] else k
  }

  function RewriteInst(inst: IRInst, k: Consts): IRInst
    requires InstInRange(inst)
  {
    inst.(b := Rewrite(inst.b, k), c := Rewrite(inst.c, k))
  }

  /** The rewritten instruction and the table after it. */
  function OptStep(inst: IRInst, k: Consts): (IRInst, Consts)
    requires InstInRange(inst)
  {
    var i := RewriteInst(inst, k);
    if i.opcode == Nop then (i, k)
    else if i.opcode == Mov then (i, MovConsts(i, k))
    else if IsBinop(i.opcode) then OptBinop(i, k)
    else if i.opcode == Shift then OptShift(i, k)
    else if i.opcode == Unsupported then (i, NoConsts())
    else (i, Forget(i.a, k))
  }

  function MovConsts(i: IRInst, k: Consts): Consts
    requires InstInRange(i)
  {
    if !WritesGeneral(i.a) then k else
    var dst := i.a.reg;
    match i.b
    case Imm(v) => k[dst.num := Some(Mask(v, dst.width))]
    case Reg(src) =>
      if src.kind == Zero then k[dst.num := Some(0)]
      else if src.kind == General && k[src.num].Some? then k[dst.num := Some(Mask(k[src.num].value, dst.width))]
      else k[dst.num := None]
    case _ => k[dst.num := None]
  }

  function OptBinop(i: IRInst, k: Consts): (IRInst, Consts)
    requires InstInRange(i) && IsBinop(i.opcode)
  {
    if !WritesGeneral(i.a) then (i, k) else
    var dst := i.a.reg;
    match (ConstantOperand(i.b, k), ConstantOperand(i.c, k))
    case (Some(l), Some(r)) =>
      var v := FoldBinop(i.opcode, l, r, dst.width);
      if i.WritesNzcv() then (i, k[dst.num := None])
      else (AsMov(i, Imm(v)), k[dst.num := Some(v)])
    case _ =>
      var simpler := SimplifyIdentity(i, dst.width);
      (if !i.WritesNzcv() && simpler.Some? then simpler.value else i, k[dst.num := None])
  }

  function OptShift(i: IRInst, k: Consts): (IRInst, Consts)
    requires InstInRange(i)
  {
    if !WritesGeneral(i.a) then (i, k) else
    var dst := i.a.reg;
    if !i.c.ShiftReg? then (i, k[dst.num := None]) else
    match (ConstantOperand(Reg(i.c.value), k), ConstantOperand(Reg(i.c.amount), k))
    case (Some(v), Some(n)) =>
      var folded := FoldShift(v, n, i.c.kind, dst.width);
      if i.WritesNzcv() then (i, k[dst.num := None])
      else (AsMov(i, Imm(folded)), k[dst.num := Some(folded)])
    case _ => (i, k[dst.num := None])
  }

  function Optimized(insts: seq<IRInst>, k: Consts): (out: seq<IRInst>)
    requires AllInRange(insts)
    ensures |out| == |insts|
  {
    if insts == [] then []
    else
      var (i, k') := OptStep(insts[0], k);
      [i] + Optimized(insts[1..], k')
  }

  // ----- the pass over a block -----------------------------------------------------

  method RewriteOperand(op: Operand, constants: array<Option<u64>>) returns (out: Operand)
    requires constants.Length == 31 && OperandInRange(op)
    ensures out == Rewrite(op, constants[..])
  {
    out := op;
    if op.Reg? && op.reg.kind == General {
      var known := constants[op.reg.num];
      if known.Some? {
        out := Imm(Mask(known.value, op.reg.width));
      }
    }
  }

  method InvalidateDest(op: Operand, constants: array<Option<u64>>)
    requires constants.Length == 31 && OperandInRange(op)
    modifies constants
    ensures constants[..] == Forget(op, old(constants[..]))
  {
    if op.Reg? && op.reg.kind == General {
      constants[op.reg.num] := None;
    }
  }

  method OptimizeMov(inst: IRInst, constants: array<Option<u64>>)
    requires constants.Length == 31 && InstInRange(inst)
    modifies constants
    ensures constants[..] == MovConsts(inst, old(constants[..]))
  {
    if inst.a.Reg? && inst.a.reg.kind == General {
      var dst := inst.a.reg;
      match inst.b {
        case Imm(value) => constants[dst.num] := Some(Mask(value, dst.width));
        case Reg(src) =>
          if src.kind == Zero {
            constants[dst.num] := Some(0);
          } else if src.kind == General && constants[src.num].Some? {
            constants[dst.num] := Some(Mask(constants[src.num].value, dst.width));
          } else {
            constants[dst.num] := None;
          }
        case _ => constants[dst.num] := None;
      }
    }
  }

  method OptimizeBinop(inst: IRInst, constants: array<Option<u64>>) returns (out: IRInst)
    requires constants.Length == 31 && InstInRange(inst) && IsBinop(inst.opcode)
    modifies constants
    ensures (out, constants[..]) == OptBinop(inst, old(constants[..]))
  {
    hide FoldBinop, SimplifyIdentity;
    out := inst;
    if !(inst.a.Reg? && inst.a.reg.kind == General) {
      return;
    }
    var dst := inst.a.reg;
    var lhs := ConstantOperand(inst.b, constants[..]);
    var rhs := ConstantOperand(inst.c, constants[..]);
    if lhs.Some? && rhs.Some? {
      var value := FoldBinop(inst.opcode, lhs.value, rhs.value, dst.width);
      if !inst.WritesNzcv() {
        out := inst.(opcode := Mov, b := Imm(value), c := NoOperand);
        constants[dst.num] := Some(value);
      } else {
        constants[dst.num] := None;
      }
    } else {
      constants[dst.num] := None;
      if !inst.WritesNzcv() {
        var simpler := SimplifyIdentity(inst, dst.width);
        if simpler.Some? {
          out := simpler.value;
        }
      }
    }
  }

  method OptimizeShift(inst: IRInst, constants: array<Option<u64>>) returns (out: IRInst)
    requires constants.Length == 31 && InstInRange(inst)
    modifies constants
    ensures (out, constants[..]) == OptShift(inst, old(constants[..]))
  {
    hide FoldShift;
    out := inst;
    if !(inst.a.Reg? && inst.a.reg.kind == General) {
      return;
    }
    var dst := inst.a.reg;
    if inst.c.ShiftReg? {
      var v := ConstantOperand(Reg(inst.c.value), constants[..]);
      var n := ConstantOperand(Reg(inst.c.amount), constants[..]);
      if v.Some? && n.Some? {
        var folded := FoldShift(v.value, n.value, inst.c.kind, dst.width);
        if !inst.WritesNzcv() {
          out := inst.(opcode := Mov, b := Imm(folded), c := NoOperand);
          constants[dst.num] := Some(folded);
        } else {
          constants[dst.num] := None;
        }
      } else {
        constants[dst.num] := None;
      }
    } else {
      constants[dst.num] := None;
    }
  }

  method OptimizeInst(inst: IRInst, constants: array<Option<u64>>) returns (out: IRInst)
    requires constants.Length == 31 && InstInRange(inst)
    modifies constants
    ensures (out, constants[..]) == OptStep(inst, old(constants[..]))
  {
    hide OptBinop, OptShift, MovConsts;
    var b := RewriteOperand(inst.b, constants);
    var c := RewriteOperand(inst.c, constants);
    out := inst.(b := b, c := c);
    if inst.opcode == Nop {
    } else if inst.opcode == Mov {
      OptimizeMov(out, constants);
    } else if IsBinop(inst.opcode) {
      out := OptimizeBinop(out, constants);
    } else if inst.opcode == Shift {
      out := OptimizeShift(out, constants);
    } else if inst.opcode == Unsupported {
      forall n | 0 <= n < 31 { constants[n] := None; }
      assert constants[..] == NoConsts();
    } else {
      InvalidateDest(inst.a, constants);
    }
  }

  /** Replaces the instructions of a block; its address and byte span stay. */
  method OptimizeBlock(block: Block)
    requires AllInRange(block.insts)
    modifies block`insts
    ensures block.insts == Optimized(old(block.insts), NoConsts())
  {
    hide OptStep, InstInRange;
    var insts := block.insts;
    var constants := new Option<u64>[31](_ => None);
    var out := [];
    assert constants[..] == NoConsts();
    assert insts[0..] == insts;
    for i := 0 to |insts|
      invariant |out| == i && fresh(constants)
      invariant Optimized(insts, NoConsts()) == out + Optimized(insts[i..], constants[..])
    {
      assert insts[i..][0] == insts[i] && insts[i..][1..] == insts[i + 1..];
      var inst := OptimizeInst(insts[i], constants);
      out := out + [inst];
    }
    block.insts := out;
  }
}
