/** What the optimizer preserves, and exactly when. */
module OptimizerProof {
  import opened Words
  import opened Ir
  import opened Arm
  import opened Optimizer
  import Shifts

  /** Every entry of the table is the full 64-bit value of its register. */
  predicate Known(k: Consts, g: Regs) {
    forall n :: 0 <= n < 31 && k[n].Some? ==> g.gpr[n] == k[n].value
  }

  /** A lifted shift names its value register twice; folding reads one, execution the other. */
  predicate ShiftConsistent(inst: IRInst) {
    inst.opcode == Shift && inst.c.ShiftReg? ==> inst.b == Reg(inst.c.value)
  }

  predicate AllShiftsConsistent(insts: seq<IRInst>) {
    forall i :: 0 <= i < |insts| ==> ShiftConsistent(insts[i])
  }

  // ----- folding -------------------------------------------------------------------

  lemma MaskTwice(v: int, w: RegWidth)
    ensures v % P64 % Modulus(w) == v % Modulus(w)
  {
    ModMod(v, Modulus(w), P64 / Modulus(w));
  }

  lemma SumMasked(l: u64, r: u64, w: RegWidth)
    ensures (l + r) % Modulus(w) == (Mask(l, w) + Mask(r, w)) % Modulus(w)
    ensures (l - r) % Modulus(w) == (Mask(l, w) - Mask(r, w)) % Modulus(w)
  {
    var m := Modulus(w);
    var a, b := l / m, r / m;
    assert l == Mask(l, w) + a * m && r == Mask(r, w) + b * m by {
      assert l == m * a + Mask(l, w) && r == m * b + Mask(r, w);
    }
    assert l + r == Mask(l, w) + Mask(r, w) + (a + b) * m;
    assert l - r == Mask(l, w) - Mask(r, w) + (a - b) * m;
    ModAddMultiple(Mask(l, w) + Mask(r, w), a + b, m);
    ModAddMultiple(Mask(l, w) - Mask(r, w), a - b, m);
  }

  /** Folding on 64 bits and truncating is the operation at the width. */
  lemma FoldBinopIsArith(op: Opcode, l: u64, r: u64, w: RegWidth)
    requires IsBinop(op)
    ensures FoldBinop(op, l, r, w) == Arith(op, w, Mask(l, w), Mask(r, w)).0
  {
    hide Bitwise, Signed;
    if op == Add || op == Sub {
      FoldSum(op, l, r, w);
    } else {
      ModulusIsPow2(w);
      BitwiseMask(Logic(op), l, r, Bits(w));
    }
  }

  /** Adding the complement and a carry is subtraction. */
  lemma SubResult(w: RegWidth, x: u64, y: u64)
    requires y < Modulus(w)
    ensures AddWithCarry(w, x, Complement(w, y), true).0 == (x - y) % Modulus(w)
  {
    hide Signed;
    ModAddMultiple(x - y, 1, Modulus(w));
    assert x + Complement(w, y) + 1 == x - y + 1 * Modulus(w);
  }

  lemma AddResult(w: RegWidth, x: u64, y: u64)
    ensures AddWithCarry(w, x, y, false).0 == (x + y) % Modulus(w)
  {
    hide Signed;
  }

  lemma FoldSum(op: Opcode, l: u64, r: u64, w: RegWidth)
    requires op == Add || op == Sub
    ensures FoldBinop(op, l, r, w) == Arith(op, w, Mask(l, w), Mask(r, w)).0
  {
    hide Bitwise, AddWithCarry, Modulus;
    SumMasked(l, r, w);
    var x, y := Mask(l, w), Mask(r, w);
    assert x < Modulus(w) && y < Modulus(w) by { MaskBound(l, w); MaskBound(r, w); }
    if op == Add {
      MaskTwice(l + r, w);
      AddResult(w, x, y);
    } else {
      MaskTwice(l - r, w);
      SubResult(w, x, y);
    }
  }

  /** The rotations that 64-bit folding gets wrong: a W register losing one-bits. */
  predicate WrongRotation(kind: ShiftKind, w: RegWidth, v: u64, n: u64) {
    kind == Ror && w == W32 && LowBits(Mask(v, W32), n % 32) != 0
  }

  lemma AmountMasked(n: u64, w: RegWidth)
    ensures n % P32 % Bits(w) == n % Bits(w)
  {
    ModMod(n, Bits(w), P32 / Bits(w));
  }

  /** Shift folding agrees with execution exactly when no one-bit is rotated out of a W register. */
  lemma FoldShiftExact(v: u64, n: u64, kind: ShiftKind, w: RegWidth)
    ensures FoldShift(v, n, kind, w) == ShiftValue(kind, w, Mask(v, w), n % Bits(w))
            <==> !WrongRotation(kind, w, v, n)
  {
    hide ShiftWide, ShiftValue, LowBits;
    AmountMasked(n, w);
    var x, s := Mask(v, w), n % Bits(w);
    if kind == Ror && w == W32 {
      RotateW(x, s);
    } else {
      WideIsShift(x, s, kind, w);
    }
  }

  /** Shifting on 64 bits and truncating is shifting at the width, rotations of W registers apart. */
  lemma WideIsShift(x: u64, s: nat, kind: ShiftKind, w: RegWidth)
    requires x < Modulus(w) && s < Bits(w) && (kind == Ror ==> w == X64)
    ensures Mask(ShiftWide(x, s, kind, w), w) == ShiftValue(kind, w, x, s)
  {
    match kind
    case Lsl => WideLsl(x, s, w);
    case Lsr => WideLsr(x, s, w);
    case Asr => WideAsr(x, s, w);
    case Ror => WideRor(x, s);
  }

  lemma WideLsl(x: u64, s: nat, w: RegWidth)
    requires s < Bits(w)
    ensures Mask(ShiftWide(x, s, Lsl, w), w) == ShiftValue(Lsl, w, x, s)
  {
    hide Pow2, Scale;
    MaskTwice(Scale(x, s), w);
  }

  lemma WideLsr(x: u64, s: nat, w: RegWidth)
    requires s < Bits(w)
    ensures Mask(ShiftWide(x, s, Lsr, w), w) == ShiftValue(Lsr, w, x, s)
  {
    hide Pow2, Unscale;
    MaskTwice(Unscale(x, s), w);
  }

  lemma WideAsr(x: u64, s: nat, w: RegWidth)
    requires s < Bits(w)
    ensures Mask(ShiftWide(x, s, Asr, w), w) == ShiftValue(Asr, w, x, s)
  {
    hide Pow2, FloorDiv;
    WrapMask(FloorDiv(Signed(w, x), Pow2(s)), w);
  }

  lemma WrapMask(v: int, w: RegWidth)
    ensures Mask(Wrap(v, w), w) == Wrap(v, w)
  {
  }

  lemma WideRor(x: u64, s: nat)
    requires s < 64
    ensures Mask(ShiftWide(x, s, Ror, X64), X64) == ShiftValue(Ror, X64, x, s)
  {
    hide Pow2, Scale, Unscale, LowBits;
    MaskTwice(Unscale(x, s) + Scale(LowBits(x, s), 64 - s), X64);
  }

  lemma UnscaleBound(x: u64, s: nat, w: RegWidth)
    requires x < Modulus(w)
    ensures Unscale(x, s) <= x
  {
    hide Pow2;
    DivShrinks(x, Pow2(s));
  }

  lemma DivShrinks(x: nat, d: nat)
    requires d > 0
    ensures x / d <= x
  {
    var q := x / d;
    assert x == d * q + x % d;
    if q > 0 {
      MulAtLeast(d, q);
    }
  }

  /** Rotating a zero-extended word by 64 bits and truncating is a plain right shift. */
  lemma RotateW(x: u64, s: nat)
    requires x < P32 && s < 32
    ensures Mask(ShiftWide(x, s, Ror, W32), W32) == Unscale(x, s)
    ensures ShiftValue(Ror, W32, x, s) == Unscale(x, s) + Scale(LowBits(x, s), 32 - s)
    ensures Scale(LowBits(x, s), 32 - s) == 0 <==> LowBits(x, s) == 0
  {
    hide Pow2, Scale, Unscale;
    var q, low := Unscale(x, s), LowBits(x, s);
    UnscaleBound(x, s, W32);
    ScaleAdd(low, 32 - s, 32);
    MaskTwice(q + Scale(low, 64 - s), W32);
    assert Pow2(32) == P32 by { Pow2Values(); }
    ModAddMultiple(q, Scale(low, 32 - s), P32);
    ModSmall(q, P32);
    Shifts.RorMany(W32, x, s);
    ModSmall(q + Scale(low, 32 - s), P32);
    ScaleZeroIff(low, 32 - s);
  }

  lemma ScaleAdd(v: nat, m: nat, n: nat)
    ensures Scale(v, m + n) == Scale(v, m) * Pow2(n)
  {
    hide Pow2;
    Pow2Add(m, n);
    assert v * (Pow2(m) * Pow2(n)) == (v * Pow2(m)) * Pow2(n);
  }

  lemma ScaleZeroIff(v: nat, n: nat)
    ensures Scale(v, n) == 0 <==> v == 0
  {
    hide Pow2;
    if v > 0 {
      MulAtLeast(v, Pow2(n));
    }
  }

  // ----- one instruction -----------------------------------------------------------

  lemma RewriteEval(op: Operand, k: Consts, g: Regs, w: RegWidth)
    requires OperandInRange(op) && Known(k, g)
    ensures OperandInRange(Rewrite(op, k))
    ensures Eval(Rewrite(op, k), w, g) == Eval(op, w, g)
  {
  }

  /** A constant operand evaluates to its truncated constant. */
  lemma ConstantEval(op: Operand, k: Consts, g: Regs, w: RegWidth)
    requires OperandInRange(op) && Known(k, g)
    ensures ConstantOperand(op, k).Some? ==> Eval(op, w, g) == Some(Mask(ConstantOperand(op, k).value, w))
  {
  }

  /** This folded shift is a wrong rotation. */
  predicate Misfolds(inst: IRInst, k: Consts)
    requires InstInRange(inst)
  {
    && inst.opcode == Shift && WritesGeneral(inst.a) && inst.c.ShiftReg? && !inst.WritesNzcv()
    && var v := ConstantOperand(Reg(inst.c.value), k);
       var n := ConstantOperand(Reg(inst.c.amount), k);
       v.Some? && n.Some? && WrongRotation(inst.c.kind, inst.a.reg.width, v.value, n.value)
  }

  /** The optimized instruction does the same, and the new table is true afterwards. */
  ghost predicate StepSound(inst: IRInst, k: Consts, pc: u64, m: Machine)
    requires InstInRange(inst)
  {
    var (i, k') := OptStep(inst, k);
    && InstInRange(i)
    && ExecInst(i, pc, m) == ExecInst(inst, pc, m)
    && (ExecInst(inst, pc, m).Fall? ==> Known(k', ExecInst(inst, pc, m).next.regs))
  }

  lemma RewriteInstSound(inst: IRInst, k: Consts, pc: u64, m: Machine)
    requires WellFormed(inst) && Known(k, m.regs) && ExecInst(inst, pc, m) != Stuck
    ensures WellFormed(RewriteInst(inst, k))
    ensures ExecInst(RewriteInst(inst, k), pc, m) == ExecInst(inst, pc, m)
  {
    hide Arith, ShiftValue, LoadWord, StoreWord, Write, Read, ConditionHolds;
    assert forall w :: Eval(Rewrite(inst.b, k), w, m.regs) == Eval(inst.b, w, m.regs) by {
      forall w { RewriteEval(inst.b, k, m.regs, w); }
    }
    assert forall w :: Eval(Rewrite(inst.c, k), w, m.regs) == Eval(inst.c, w, m.regs) by {
      forall w { RewriteEval(inst.c, k, m.regs, w); }
    }
    if inst.opcode == BranchCond {
      RewriteTaken(inst, k, m.regs);
    }
  }

  lemma RewriteTaken(inst: IRInst, k: Consts, g: Regs)
    requires InstInRange(inst) && Known(k, g)
    ensures InstInRange(RewriteInst(inst, k))
    ensures Taken(inst, g).Some? ==> Taken(RewriteInst(inst, k), g) == Taken(inst, g)
  {
    hide ConditionHolds;
  }

  /** No operand of the form "known register" is left. */
  predicate Rewritten(op: Operand, k: Consts)
    requires OperandInRange(op)
  {
    op.Reg? && op.reg.kind == General ==> k[op.reg.num] == None
  }

  /** Turning a computation of `v` into a move of an operand worth `v`. */
  lemma AsMovExec(i: IRInst, b: Operand, v: u64, pc: u64, m: Machine)
    requires InstInRange(i) && i.a.Reg? && OperandInRange(b) && Eval(b, i.a.reg.width, m.regs) == Some(v)
    ensures InstInRange(AsMov(i, b))
    ensures ExecInst(AsMov(i, b), pc, m) == Fall(WriteBack(m, i.a.reg, v))
  {
  }

  /** A computed general register holds exactly the truncated result. */
  lemma KnownAfterWrite(k: Consts, m: Machine, r: GuestReg, v: u64, nzcv: u32)
    requires Known(k, m.regs) && InRange(r) && v < Modulus(r.width)
    ensures var g := WriteBack(m, r, v).regs.(nzcv := nzcv);
            && (r.kind == General ==> Known(k[r.num := Some(v)], g) && Known(k[r.num := None], g))
            && (r.kind != General ==> Known(k, g))
  {
    assert Mask(v, r.width) == v;
  }

  /** A move records the value it writes, or forgets its destination. */
  lemma MovRecords(i: IRInst, k: Consts, g: Regs)
    requires InstInRange(i) && WritesGeneral(i.a) && OperandFits(i.b, i.a.reg.width)
    requires Known(k, g) && Rewritten(i.b, k) && Eval(i.b, i.a.reg.width, g).Some?
    ensures MovConsts(i, k) == k[i.a.reg.num := None]
         || MovConsts(i, k) == k[i.a.reg.num := Eval(i.b, i.a.reg.width, g)]
  {
    hide ShiftValue;
  }

  lemma MovStep(i: IRInst, k: Consts, pc: u64, m: Machine)
    requires WellFormed(i) && i.opcode == Mov && Known(k, m.regs) && ExecInst(i, pc, m) != Stuck
    requires Rewritten(i.b, k)
    ensures ExecInst(i, pc, m).Fall? && Known(MovConsts(i, k), ExecInst(i, pc, m).next.regs)
  {
    hide Eval, Known, WriteBack, Rewritten, MovConsts, OperandFits;
    MovExec(i, pc, m);
    var r, v := i.a.reg, Eval(i.b, i.a.reg.width, m.regs).value;
    EvalMasked(i.b, r.width, m.regs);
    KnownAfterWrite(k, m, r, v, m.regs.nzcv);
    NzcvKept(m, r, v);
    if WritesGeneral(i.a) {
      MovRecords(i, k, m.regs);
    } else {
      assert MovConsts(i, k) == k by { MovOther(i, k); }
    }
  }

  lemma MovOther(i: IRInst, k: Consts)
    requires InstInRange(i) && !WritesGeneral(i.a)
    ensures MovConsts(i, k) == k
  {
  }

  lemma MovExec(i: IRInst, pc: u64, m: Machine)
    requires InstInRange(i) && i.opcode == Mov && ExecInst(i, pc, m) != Stuck
    ensures i.a.Reg? && Eval(i.b, i.a.reg.width, m.regs).Some?
    ensures ExecInst(i, pc, m) == Fall(WriteBack(m, i.a.reg, Eval(i.b, i.a.reg.width, m.regs).value))
  {
    hide Eval, WriteBack;
  }

  /** What a non-stuck two-operand instruction computes. */
  lemma BinopExec(i: IRInst, pc: u64, m: Machine)
    requires WellFormed(i) && IsBinop(i.opcode) && ExecInst(i, pc, m) != Stuck
    ensures i.a.Reg? && Eval(i.b, i.a.reg.width, m.regs).Some? && Eval(i.c, i.a.reg.width, m.regs).Some?
    ensures var w := i.a.reg.width;
            var x, y := Eval(i.b, w, m.regs).value, Eval(i.c, w, m.regs).value;
            && x < Modulus(w) && y < Modulus(w)
            && var (r, f) := Arith(i.opcode, w, x, y);
               var m' := WriteBack(m, i.a.reg, r);
               ExecInst(i, pc, m) == Fall(if i.WritesNzcv() then m'.(regs := m'.regs.(nzcv := Pack(f))) else m')
  {
    hide Arith, Write, Pack;
    assert ExecInst(i, pc, m) == ExecBinop(i, m);
    EvalMasked(i.b, i.a.reg.width, m.regs);
    EvalMasked(i.c, i.a.reg.width, m.regs);
  }

  lemma EvalMasked(op: Operand, w: RegWidth, g: Regs)
    requires OperandInRange(op) && Eval(op, w, g).Some?
    ensures Eval(op, w, g).value < Modulus(w)
  {
  }

  lemma BinopStep(i: IRInst, k: Consts, pc: u64, m: Machine)
    requires WellFormed(i) && IsBinop(i.opcode) && Known(k, m.regs) && ExecInst(i, pc, m) != Stuck
    ensures var (out, k') := OptBinop(i, k);
            && InstInRange(out) && ExecInst(out, pc, m) == ExecInst(i, pc, m)
            && Known(k', ExecInst(i, pc, m).next.regs)
  {
    hide Arith, Write, Read, Eval, ExecInst, ConstantOperand, FoldBinop, Known, SimplifyIdentity, Pack, WriteBack, AsMov;
    BinopExec(i, pc, m);
    var w := i.a.reg.width;
    var x, y := Eval(i.b, w, m.regs).value, Eval(i.c, w, m.regs).value;
    var (r, f) := Arith(i.opcode, w, x, y);
    KnownAfterWrite(k, m, i.a.reg, r, if i.WritesNzcv() then Pack(f) else m.regs.nzcv);
    NzcvKept(m, i.a.reg, r);
    var l, c := ConstantOperand(i.b, k), ConstantOperand(i.c, k);
    if WritesGeneral(i.a) && !i.WritesNzcv() {
      if l.Some? && c.Some? {
        ConstantEval(i.b, k, m.regs, w);
        ConstantEval(i.c, k, m.regs, w);
        FoldBinopIsArith(i.opcode, l.value, c.value, w);
        ImmEval(r, w, m.regs);
        AsMovExec(i, Imm(r), r, pc, m);
      } else {
        IdentityExec(i, pc, m);
      }
    }
  }

  lemma ImmEval(v: u64, w: RegWidth, g: Regs)
    requires v < Modulus(w)
    ensures Eval(Imm(v), w, g) == Some(v)
  {
  }

  lemma NzcvKept(m: Machine, r: GuestReg, v: u64)
    requires InRange(r)
    ensures var m' := WriteBack(m, r, v); m'.(regs := m'.regs.(nzcv := m.regs.nzcv)) == m'
  {
  }

  /** What an algebraic identity says the result is, whatever the first operand holds. */
  datatype Algebra = FirstOperand | Constant(value: u64) | NoIdentity

  /** Neutral and absorbing constants, and operations of a register on itself. */
  function AlgebraOf(op: Opcode, b: Operand, c: Operand, w: RegWidth): Algebra {
    if c.Imm? then
      var zero, ones := c.imm == 0, c.imm % Modulus(w) == Modulus(w) - 1;
      match op
      case Add => if zero then FirstOperand else NoIdentity
      case Sub => if zero then FirstOperand else NoIdentity
      case Eor => if zero then FirstOperand else NoIdentity
      case Orr => if zero then FirstOperand else if ones then Constant(Modulus(w) - 1) else NoIdentity
      case And => if zero then Constant(0) else if ones then FirstOperand else NoIdentity
      case _ => NoIdentity
    else if (op == Sub || op == Eor) && b == c && b.Reg? && b.reg.kind == General then Constant(0)
    else NoIdentity
  }

  /** The identities fire exactly where algebra has one, and become the move it calls for. */
  lemma IdentityFires(inst: IRInst, w: RegWidth)
    ensures SimplifyIdentity(inst, w) ==
            match AlgebraOf(inst.opcode, inst.b, inst.c, w)
            case FirstOperand => Some(IRInst(Mov, inst.flags, inst.a, inst.b, NoOperand))
            case Constant(v) => Some(IRInst(Mov, inst.flags, inst.a, Imm(v), NoOperand))
            case NoIdentity => None
  {
    OnesMask(w);
    if SameRegTwice(inst.b, inst.c) {
      SameRegister(inst.b.reg, inst.c.reg);
    }
  }

  lemma SameRegister(a: GuestReg, b: GuestReg)
    ensures SameGeneralReg(a, b) <==> a == b && a.kind == General
  {
  }

  /** A flag-free operation that is not folded becomes what the identities make of it. */
  lemma UnfoldedBecomesIdentity(inst: IRInst, k: Consts)
    requires InstInRange(inst) && IsBinop(inst.opcode) && WritesGeneral(inst.a) && !inst.WritesNzcv()
    requires ConstantOperand(Rewrite(inst.b, k), k).None? || ConstantOperand(Rewrite(inst.c, k), k).None?
    ensures OptStep(inst, k).0 ==
            match AlgebraOf(inst.opcode, Rewrite(inst.b, k), Rewrite(inst.c, k), inst.a.reg.width)
            case FirstOperand => IRInst(Mov, inst.flags, inst.a, Rewrite(inst.b, k), NoOperand)
            case Constant(v) => IRInst(Mov, inst.flags, inst.a, Imm(v), NoOperand)
            case NoIdentity => RewriteInst(inst, k)
  {
    hide SimplifyIdentity, AlgebraOf, FoldBinop, ConstantOperand, Rewrite;
    IdentityFires(RewriteInst(inst, k), inst.a.reg.width);
  }

  /** `sub d, r, r` and `eor d, r, r` become moves of zero, whether `r` is known or not. */
  lemma SelfCancels(op: Opcode, d: GuestReg, r: GuestReg, k: Consts)
    requires (op == Sub || op == Eor) && InRange(d) && InRange(r) && d.kind == General && r.kind == General
    ensures OptStep(IRInst(op, 0, Reg(d), Reg(r), Reg(r)), k).0 == IRInst(Mov, 0, Reg(d), Imm(0), NoOperand)
  {
    hide SimplifyIdentity, FoldBinop;
    var inst := IRInst(op, 0, Reg(d), Reg(r), Reg(r));
    var known := ConstantOperand(Reg(r), k);
    if known.Some? {
      FoldSelf(op, known.value, d.width);
    } else {
      IdentityFires(RewriteInst(inst, k), d.width);
    }
  }

  lemma FoldSelf(op: Opcode, v: u64, w: RegWidth)
    requires op == Sub || op == Eor
    ensures FoldBinop(op, v, v, w) == 0
  {
    hide Bitwise;
    BitwiseZero(v);
  }

  /** Each identity moves exactly the value the operation would compute. */
  lemma IdentityExec(i: IRInst, pc: u64, m: Machine)
    requires WellFormed(i) && IsBinop(i.opcode) && WritesGeneral(i.a) && !i.WritesNzcv()
    requires ExecInst(i, pc, m) != Stuck
    ensures var s := SimplifyIdentity(i, i.a.reg.width);
            s.Some? ==> InstInRange(s.value) && ExecInst(s.value, pc, m) == ExecInst(i, pc, m)
  {
    hide Write, Read, Eval, ExecInst, Pack, WriteBack, AsMov, AddWithCarry;
    BinopExec(i, pc, m);
    var w := i.a.reg.width;
    var x, y := Eval(i.b, w, m.regs).value, Eval(i.c, w, m.regs).value;
    var s := SimplifyIdentity(i, w);
    if s.Some? {
      var r := Arith(i.opcode, w, x, y).0;
      var b := IdentityOperand(i, w);
      assert s.value == AsMov(i, b);
      IdentityValue(i, w, m.regs);
      AsMovExec(i, b, r, pc, m);
    }
  }

  /** The operand an identity moves. */
  function IdentityOperand(i: IRInst, w: RegWidth): Operand
    requires SimplifyIdentity(i, w).Some?
  {
    if i.c == Imm(0) then (if i.opcode == And then Imm(0) else if i.opcode == Orr && AllOnes(0, w) then Imm(Mask(P64 - 1, w)) else i.b)
    else if i.c.Imm? then (if i.opcode == And then i.b else Imm(Mask(P64 - 1, w)))
    else Imm(0)
  }

  lemma IdentityValue(i: IRInst, w: RegWidth, g: Regs)
    requires InstInRange(i) && IsBinop(i.opcode) && SimplifyIdentity(i, w).Some?
    requires Eval(i.b, w, g).Some? && Eval(i.c, w, g).Some?
    requires Eval(i.b, w, g).value < Modulus(w) && Eval(i.c, w, g).value < Modulus(w)
    ensures OperandInRange(IdentityOperand(i, w))
    ensures Eval(IdentityOperand(i, w), w, g) == Some(Arith(i.opcode, w, Eval(i.b, w, g).value, Eval(i.c, w, g).value).0)
  {
    hide Arith, Read, ShiftValue;
    var x, y := Eval(i.b, w, g).value, Eval(i.c, w, g).value;
    OnesMask(w);
    ArithIdentities(i.opcode, w, x, y);
  }

  lemma ArithIdentities(op: Opcode, w: RegWidth, x: u64, y: u64)
    requires IsBinop(op) && x < Modulus(w) && y < Modulus(w)
    ensures y == 0 ==> Arith(op, w, x, y).0 == if op == And then 0 else x
    ensures y == Modulus(w) - 1 && op == And ==> Arith(op, w, x, y).0 == x
    ensures y == Modulus(w) - 1 && op == Orr ==> Arith(op, w, x, y).0 == y
    ensures x == y && (op == Sub || op == Eor) ==> Arith(op, w, x, y).0 == 0
  {
    hide Arith;
    if op == Add || op == Sub {
      SumIdentities(op, w, x, y);
    } else {
      LogicIdentities(op, w, x, y);
    }
  }

  lemma SumIdentities(op: Opcode, w: RegWidth, x: u64, y: u64)
    requires (op == Add || op == Sub) && x < Modulus(w) && y < Modulus(w)
    ensures y == 0 ==> Arith(op, w, x, y).0 == x
    ensures x == y && op == Sub ==> Arith(op, w, x, y).0 == 0
  {
    hide Signed, AddWithCarry;
    AddResult(w, x, y);
    SubResult(w, x, y);
    ModSmall(x, Modulus(w));
  }

  lemma LogicIdentities(op: Opcode, w: RegWidth, x: u64, y: u64)
    requires (op == And || op == Orr || op == Eor) && x < Modulus(w) && y < Modulus(w)
    ensures y == 0 ==> Arith(op, w, x, y).0 == if op == And then 0 else x
    ensures y == Modulus(w) - 1 && op == And ==> Arith(op, w, x, y).0 == x
    ensures y == Modulus(w) - 1 && op == Orr ==> Arith(op, w, x, y).0 == y
    ensures x == y && op == Eor ==> Arith(op, w, x, y).0 == 0
  {
    hide Bitwise, Pow2, Signed;
    ModulusIsPow2(w);
    BitwiseZero(x);
    AndOnes(x, Bits(w));
    OrOnes(x, Bits(w));
    ModSmall(x, Modulus(w));
  }

  lemma OnesMask(w: RegWidth)
    ensures Mask(P64 - 1, w) == Modulus(w) - 1
  {
  }

  // ----- shifts --------------------------------------------------------------------

  lemma ConstantRead(r: GuestReg, k: Consts, g: Regs)
    requires InRange(r) && Known(k, g)
    ensures ConstantOperand(Reg(r), k).Some? ==> ConstantOperand(Reg(r), k).value == Read(g, r)
  {
  }

  /** What a non-stuck shift computes. */
  lemma ShiftExec(inst: IRInst, pc: u64, m: Machine)
    requires WellFormed(inst) && inst.opcode == Shift && ExecInst(inst, pc, m) != Stuck
    ensures inst.a.Reg? && inst.c.ShiftReg? && Eval(inst.b, inst.a.reg.width, m.regs).Some?
    ensures var w := inst.a.reg.width;
            var n := Read(m.regs, inst.c.amount) % Bits(w);
            ExecInst(inst, pc, m) ==
            Fall(WriteBack(m, inst.a.reg, ShiftValue(inst.c.kind, w, Eval(inst.b, w, m.regs).value, n)))
  {
    hide ShiftValue, Write, Read, Eval;
  }

  lemma ShiftBound(kind: ShiftKind, w: RegWidth, v: u64, n: nat)
    requires v < Modulus(w) && n < Bits(w)
    ensures ShiftValue(kind, w, v, n) < Modulus(w)
  {
    hide Pow2, Scale, Unscale, LowBits;
  }

  /** With both operands known, execution computes this. */
  lemma FoldedShiftExec(inst: IRInst, k: Consts, pc: u64, m: Machine)
    requires WellFormed(inst) && ShiftConsistent(inst) && Known(k, m.regs)
    requires inst.opcode == Shift && ExecInst(inst, pc, m) != Stuck && inst.c.ShiftReg?
    requires ConstantOperand(Reg(inst.c.value), k).Some? && ConstantOperand(Reg(inst.c.amount), k).Some?
    ensures inst.a.Reg?
    ensures var w := inst.a.reg.width;
            var v, n := ConstantOperand(Reg(inst.c.value), k).value, ConstantOperand(Reg(inst.c.amount), k).value;
            ExecInst(inst, pc, m) == Fall(WriteBack(m, inst.a.reg, ShiftValue(inst.c.kind, w, Mask(v, w), n % Bits(w))))
  {
    hide ShiftValue, Write, Read, Eval, ConstantOperand, ExecInst, WriteBack;
    ShiftExec(inst, pc, m);
    ConstantEval(inst.b, k, m.regs, inst.a.reg.width);
    ConstantRead(inst.c.amount, k, m.regs);
  }

  lemma ShiftStep(inst: IRInst, k: Consts, pc: u64, m: Machine)
    requires WellFormed(inst) && ShiftConsistent(inst) && inst.opcode == Shift
    requires Known(k, m.regs) && ExecInst(inst, pc, m) != Stuck && !Misfolds(inst, k)
    ensures StepSound(inst, k, pc, m)
  {
    hide ShiftValue, Write, Read, Eval, ConstantOperand, ExecInst, Known, FoldShift, AsMov, WriteBack, WrongRotation;
    var i := RewriteInst(inst, k);
    RewriteInstSound(inst, k, pc, m);
    ShiftExec(inst, pc, m);
    assert i.a == inst.a && i.c == inst.c && i.flags == inst.flags;
    var w := inst.a.reg.width;
    EvalMasked(inst.b, w, m.regs);
    var r := ShiftValue(inst.c.kind, w, Eval(inst.b, w, m.regs).value, Read(m.regs, inst.c.amount) % Bits(w));
    ShiftBound(inst.c.kind, w, Eval(inst.b, w, m.regs).value, Read(m.regs, inst.c.amount) % Bits(w));
    KnownAfterWrite(k, m, inst.a.reg, r, m.regs.nzcv);
    NzcvKept(m, inst.a.reg, r);
    var v, n := ConstantOperand(Reg(i.c.value), k), ConstantOperand(Reg(i.c.amount), k);
    if WritesGeneral(i.a) && v.Some? && n.Some? && !i.WritesNzcv() {
      FoldedShiftExec(inst, k, pc, m);
      FoldShiftExact(v.value, n.value, i.c.kind, w);
      FoldBound(v.value, n.value, i.c.kind, w);
      var folded := FoldShift(v.value, n.value, i.c.kind, w);
      ImmEval(folded, w, m.regs);
      AsMovExec(i, Imm(folded), folded, pc, m);
      KnownAfterWrite(k, m, inst.a.reg, folded, m.regs.nzcv);
      NzcvKept(m, inst.a.reg, folded);
    }
  }

  lemma FoldBound(v: u64, n: u64, kind: ShiftKind, w: RegWidth)
    ensures FoldShift(v, n, kind, w) < Modulus(w)
  {
    hide ShiftWide;
  }

  lemma WriteBackInjective(m: Machine, r: GuestReg, v: u64, u: u64)
    requires InRange(r) && r.kind == General && v < Modulus(r.width) && u < Modulus(r.width) && v != u
    ensures WriteBack(m, r, v) != WriteBack(m, r, u)
  {
    assert WriteBack(m, r, v).regs.gpr[r.num] == v;
    assert WriteBack(m, r, u).regs.gpr[r.num] == u;
  }

  /** With both shift operands known, the slot becomes a move of the folded value. */
  lemma FoldedShiftStep(inst: IRInst, k: Consts)
    requires InstInRange(inst) && Misfolds(inst, k)
    ensures var v := ConstantOperand(Reg(inst.c.value), k).value;
            var n := ConstantOperand(Reg(inst.c.amount), k).value;
            OptStep(inst, k).0 ==
            AsMov(RewriteInst(inst, k), Imm(FoldShift(v, n, inst.c.kind, inst.a.reg.width)))
  {
    hide ConstantOperand, FoldShift, AsMov, WrongRotation;
  }

  /** A misfolded rotation leaves a different machine. */
  lemma MisfoldDiffers(inst: IRInst, k: Consts, pc: u64, m: Machine)
    requires WellFormed(inst) && ShiftConsistent(inst)
    requires Known(k, m.regs) && ExecInst(inst, pc, m) != Stuck && Misfolds(inst, k)
    ensures InstInRange(OptStep(inst, k).0)
    ensures ExecInst(inst, pc, m).Fall? && ExecInst(OptStep(inst, k).0, pc, m).Fall?
    ensures ExecInst(OptStep(inst, k).0, pc, m) != ExecInst(inst, pc, m)
  {
    hide ShiftValue, Read, Eval, ConstantOperand, ExecInst, Known, FoldShift, AsMov, WrongRotation, WriteBack, OptStep;
    var i, w := RewriteInst(inst, k), inst.a.reg.width;
    RewriteInstSound(inst, k, pc, m);
    FoldedShiftStep(inst, k);
    var v, n := ConstantOperand(Reg(inst.c.value), k).value, ConstantOperand(Reg(inst.c.amount), k).value;
    FoldedShiftExec(inst, k, pc, m);
    FoldShiftExact(v, n, inst.c.kind, w);
    FoldBound(v, n, inst.c.kind, w);
    MaskBound(v, w);
    ShiftBound(inst.c.kind, w, Mask(v, w), n % Bits(w));
    var folded := FoldShift(v, n, inst.c.kind, w);
    ImmEval(folded, w, m.regs);
    AsMovExec(i, Imm(folded), folded, pc, m);
    WriteBackInjective(m, inst.a.reg, folded, ShiftValue(inst.c.kind, w, Mask(v, w), n % Bits(w)));
  }

  lemma MaskBound(v: u64, w: RegWidth)
    ensures Mask(v, w) < Modulus(w)
  {
  }

  /** One rotated right by one, in a word and as folded. */
  lemma RotatedOne()
    ensures LowBits(1, 1) == 1 && FoldShift(1, 1, Ror, W32) == 0 && ShiftValue(Ror, W32, 1, 1) == 0x8000_0000
  {
    hide ShiftWide;
    assert Pow2(1) == 2 && Pow2(31) == 0x8000_0000 by { Pow2Values(); }
    RotateW(1, 1);
  }

  /** `mov w0, #-1; add x1, w0, #1` folds to 2^32: the W register is zero-extended, not wrapped. */
  lemma MixedWidthFolds()
    ensures var mov := IRInst(Mov, 0, Reg(WReg(0)), Imm(P64 - 1), NoOperand);
            var add := IRInst(Add, 0, Reg(XReg(1)), Reg(WReg(0)), Imm(1));
            && AllInRange([mov, add])
            && Optimized([mov, add], NoConsts())[1] == IRInst(Mov, 0, Reg(XReg(1)), Imm(0x1_0000_0000), NoOperand)
  {
    var mov := IRInst(Mov, 0, Reg(WReg(0)), Imm(P64 - 1), NoOperand);
    var add := IRInst(Add, 0, Reg(XReg(1)), Reg(WReg(0)), Imm(1));
    hide Bitwise;
    var insts := [mov, add];
    assert insts[1..] == [add] && [add][1..] == [];
    var k := OptStep(mov, NoConsts()).1;
    assert k[0] == Some(0xffff_ffff);
    assert OptStep(add, k).0 == IRInst(Mov, 0, Reg(XReg(1)), Imm(0x1_0000_0000), NoOperand);
    assert Optimized([add], k) == [OptStep(add, k).0] + Optimized([], OptStep(add, k).1);
    assert Optimized(insts, NoConsts()) == [OptStep(mov, NoConsts()).0] + Optimized([add], k);
  }

  // ----- every instruction ---------------------------------------------------------

  lemma RewrittenOperand(op: Operand, k: Consts)
    requires OperandInRange(op)
    ensures OperandInRange(Rewrite(op, k)) && Rewritten(Rewrite(op, k), k)
  {
  }

  /** Propagation is complete: no optimized instruction, of any opcode, still reads a register
      whose constant is known through its second or third operand. */
  lemma NothingKnownLeft(inst: IRInst, k: Consts)
    requires InstInRange(inst)
    ensures var i := OptStep(inst, k).0;
            && OperandInRange(i.b) && OperandInRange(i.c)
            && Rewritten(i.b, k) && Rewritten(i.c, k)
  {
    hide FoldBinop, FoldShift, ConstantOperand, Rewrite, MovConsts, Forget;
    RewrittenOperand(inst.b, k);
    RewrittenOperand(inst.c, k);
  }

  /** Instructions whose only effect on the table is to forget their destination. */
  lemma ForgetStep(i: IRInst, k: Consts, pc: u64, m: Machine)
    requires WellFormed(i) && Known(k, m.regs) && ExecInst(i, pc, m).Fall?
    requires i.opcode != Mov && !IsBinop(i.opcode) && i.opcode != Shift && i.opcode != Unsupported
    ensures i.opcode == Nop ==> Known(k, ExecInst(i, pc, m).next.regs)
    ensures Known(Forget(i.a, k), ExecInst(i, pc, m).next.regs)
  {
    hide LoadWord, StoreWord, Address, Eval;
  }

  lemma OptStepSound(inst: IRInst, k: Consts, pc: u64, m: Machine)
    requires WellFormed(inst) && ShiftConsistent(inst)
    requires Known(k, m.regs) && ExecInst(inst, pc, m) != Stuck && !Misfolds(inst, k)
    ensures StepSound(inst, k, pc, m)
  {
    if inst.opcode == Shift {
      ShiftStep(inst, k, pc, m);
    } else {
      hide ExecInst, Known, OptBinop, OptShift, MovConsts, Misfolds;
      var i := RewriteInst(inst, k);
      RewriteInstSound(inst, k, pc, m);
      RewrittenOperand(inst.b, k);
      UnsupportedIsStuck(inst, pc, m);
      if i.opcode == Mov {
        MovStep(i, k, pc, m);
      } else if IsBinop(i.opcode) {
        BinopStep(i, k, pc, m);
      } else if ExecInst(i, pc, m).Fall? {
        ForgetStep(i, k, pc, m);
      }
    }
  }

  lemma UnsupportedIsStuck(inst: IRInst, pc: u64, m: Machine)
    requires InstInRange(inst)
    ensures inst.opcode == Unsupported ==> ExecInst(inst, pc, m) == Stuck
  {
  }

  lemma RewriteWellFormed(inst: IRInst, k: Consts)
    requires WellFormed(inst)
    ensures WellFormed(RewriteInst(inst, k))
  {
  }

  lemma IdentityWellFormed(i: IRInst)
    requires WellFormed(i) && WritesGeneral(i.a)
    ensures var s := SimplifyIdentity(i, i.a.reg.width); s.Some? ==> WellFormed(s.value)
  {
  }

  lemma OptStepWellFormed(inst: IRInst, k: Consts)
    requires WellFormed(inst)
    ensures WellFormed(OptStep(inst, k).0)
  {
    hide FoldBinop, FoldShift, ConstantOperand, SimplifyIdentity, RewriteInst, MovConsts, Forget;
    RewriteWellFormed(inst, k);
    var i := RewriteInst(inst, k);
    if WritesGeneral(i.a) {
      IdentityWellFormed(i);
    }
  }

  lemma {:induction false} OptimizedWellFormed(insts: seq<IRInst>, k: Consts)
    requires AllWellFormed(insts)
    ensures AllWellFormed(Optimized(insts, k))
    decreases |insts|
  {
    hide OptStep, OperandFits, FlagsAllowed, InstInRange;
    if insts != [] {
      OptStepWellFormed(insts[0], k) by { assert WellFormed(insts[0]); }
      assert forall i :: 0 <= i < |insts[1..]| ==> WellFormed(insts[1..][i]);
      OptimizedWellFormed(insts[1..], OptStep(insts[0], k).1);
    }
  }

  // ----- whole blocks --------------------------------------------------------------

  /** No slot that can be reached folds a wrong rotation. */
  predicate NoMisfold(insts: seq<IRInst>, k: Consts)
    requires AllInRange(insts)
  {
    insts == [] ||
    (!Misfolds(insts[0], k) && (EndsBlock(insts[0].opcode) || NoMisfold(insts[1..], OptStep(insts[0], k).1)))
  }

  /** The optimized block has the same outcome from every state the table describes. */
  lemma {:induction false} OptimizedSound(insts: seq<IRInst>, k: Consts, pc: u64, m: Machine)
    requires AllWellFormed(insts) && AllShiftsConsistent(insts) && NoMisfold(insts, k) && Known(k, m.regs)
    requires AllInRange(Optimized(insts, k))
    requires RunBlock(insts, pc, m) != Stuck
    ensures RunBlock(Optimized(insts, k), pc, m) == RunBlock(insts, pc, m)
    decreases |insts|
  {
    hide ExecInst, OptStep, OperandFits, FlagsAllowed, ShiftConsistent, Known, Misfolds, InstInRange;
    if insts != [] {
      var (i, k') := OptStep(insts[0], k);
      assert WellFormed(insts[0]) && ShiftConsistent(insts[0]);
      OptStepSound(insts[0], k, pc, m);
      assert Optimized(insts, k)[0] == i && Optimized(insts, k)[1..] == Optimized(insts[1..], k');
      match ExecInst(insts[0], pc, m)
      case Fall(m') =>
        if EndsBlock(insts[0].opcode) {
          ExitNeverFalls(insts[0], pc, m);
        }
        OptimizedSound(insts[1..], k', AddPc(pc, 4), m');
      case _ =>
    }
  }
}
