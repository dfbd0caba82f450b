/** Cutting a block in two: at the level of IR, of lifted windows, and of machine code.
    What is safe and accepted whole is safe and accepted in parts, because a part knows
    fewer constants. */
module Splitting {
  import opened Words
  import opened Ir
  import opened Arm
  import opened Codegen
  import X86
  import CodegenProof
  import opened Optimizer
  import opened OptimizerProof
  import opened Pipeline
  import opened Lift
  import LiftProof
  import opened Dispatch
  import opened Transparency

  // ----- meaning -----------------------------------------------------------------------

  predicate NoExit(insts: seq<IRInst>) {
    forall i :: 0 <= i < |insts| ==> !EndsBlock(insts[i].opcode)
  }

  lemma {:induction false} RunBlockStalePc(insts: seq<IRInst>, pc: u64, m: Machine, q: u64)
    requires AllInRange(insts)
    ensures RunBlock(insts, pc, SetPc(m, q)) == RunBlock(insts, pc, m)
    decreases |insts|
  {
    hide ExecInst, InstInRange;
    if insts != [] {
      StalePc(insts[0], pc, m, q);
      match ExecInst(insts[0], pc, m)
      case Fall(m') => RunBlockStalePc(insts[1..], AddPc(pc, 4), m', q);
      case _ =>
    }
  }

  /** Where a block was left, another one is entered at the pc. */
  function ThenRun(first: Flow, insts: seq<IRInst>): Flow
    requires AllInRange(insts)
  {
    match first
    case Goto(m) => RunBlock(insts, m.regs.pc, m)
    case _ => first
  }

  /** Running a block is running its first part and then the rest from where that stopped. */
  lemma {:induction false} SplitBlock(a: seq<IRInst>, b: seq<IRInst>, pc: u64, m: Machine)
    requires AllInRange(a) && AllInRange(b) && NoExit(a)
    ensures AllInRange(a + b)
    ensures RunBlock(a + b, pc, m) == ThenRun(RunBlock(a, pc, m), b)
    ensures RunBlock(a, pc, m).Goto? ==> RunBlock(a, pc, m).jump.regs.pc == AddPc(pc, 4 * |a|)
    decreases |a|
  {
    hide ExecInst, InstInRange;
    if a == [] {
      assert a + b == b;
      RunBlockStalePc(b, pc, m, pc);
    } else {
      assert (a + b)[0] == a[0] && (a + b)[1..] == a[1..] + b;
      OnlyExitsJump(a[0], pc, m);
      match ExecInst(a[0], pc, m)
      case Fall(m') =>
        SplitBlock(a[1..], b, AddPc(pc, 4), m');
        CodegenProof.AddPcTwice(pc, 4, 4 * |a[1..]|);
      case _ =>
    }
  }

  lemma AddPcNothing(pc: u64)
    ensures AddPc(pc, 0) == pc
  {
  }

  lemma {:induction false} LiftAllConcat(a: seq<bv32>, b: seq<bv32>, pc: u64, decode: Decoder)
    ensures LiftAll(a + b, pc, decode) == LiftAll(a, pc, decode) + LiftAll(b, AddPc(pc, 4 * |a|), decode)
    decreases |a|
  {
    hide LiftInst, AddPc;
    AddPcNothing(pc);
    if a == [] {
      assert a + b == b;
    } else {
      var p := AddPc(pc, 4);
      assert (a + b)[0] == a[0] && (a + b)[1..] == a[1..] + b;
      LiftAllConcat(a[1..], b, p, decode);
      CodegenProof.AddPcTwice(pc, 4, 4 * |a[1..]|);
      assert 4 + 4 * |a[1..]| == 4 * |a|;
    }
  }

  /** Block-splitting transparency: lifting consecutive windows separately and running them
      in sequence ends where the block lifted as one does, pc included. */
  lemma SplitTransparent(a: seq<bv32>, b: seq<bv32>, pc: u64, decode: Decoder, m: Machine)
    requires AllInRange(LiftAll(a, pc, decode)) && AllInRange(LiftAll(b, AddPc(pc, 4 * |a|), decode))
    requires NoExit(LiftAll(a, pc, decode))
    ensures AllInRange(LiftAll(a + b, pc, decode))
    ensures RunBlock(LiftAll(a + b, pc, decode), pc, m) ==
            ThenRun(RunBlock(LiftAll(a, pc, decode), pc, m), LiftAll(b, AddPc(pc, 4 * |a|), decode))
    ensures RunBlock(LiftAll(a, pc, decode), pc, m).Goto? ==>
              RunBlock(LiftAll(a, pc, decode), pc, m).jump.regs.pc == AddPc(pc, 4 * |a|)
  {
    hide LiftAll, RunBlock, NoExit, AllInRange;
    LiftAllConcat(a, b, pc, decode);
    SplitBlock(LiftAll(a, pc, decode), LiftAll(b, AddPc(pc, 4 * |a|), decode), pc, m);
  }

  /** No word of `a` ends a block. */
  predicate NoTerminal(a: seq<bv32>, decode: Decoder) {
    forall i :: 0 <= i < |a| ==> !Terminal(a[i], decode)
  }

  lemma {:induction false} ConsumedConcat(a: seq<bv32>, b: seq<bv32>, decode: Decoder)
    requires NoTerminal(a, decode)
    ensures Consumed(a, decode) == |a| && Consumed(a + b, decode) == |a| + Consumed(b, decode)
    decreases |a|
  {
    hide Terminal;
    if a == [] {
      assert a + b == b;
    } else {
      assert (a + b)[0] == a[0] && (a + b)[1..] == a[1..] + b;
      ConsumedConcat(a[1..], b, decode);
    }
  }

  /** Calling `first`, then `second` if `first` came back. */
  function ThenCall(first: Flow, second: seq<u8>): Flow {
    match first
    case Goto(m) => CodeFlow(second, m)
    case _ => first
  }

  // ----- fewer constants, fewer folds ----------------------------------------------------

  /** Everything known in `k` is known, with the same value, in `l`. */
  predicate Fewer(k: Consts, l: Consts) {
    forall n :: 0 <= n < 31 && k[n].Some? ==> l[n] == k[n]
  }

  lemma ConstantMonotone(op: Operand, k: Consts, l: Consts)
    requires OperandInRange(op) && Fewer(k, l)
    ensures OperandInRange(Rewrite(op, k)) && OperandInRange(Rewrite(op, l))
    ensures ConstantOperand(op, k).Some? ==> ConstantOperand(op, l) == ConstantOperand(op, k)
    ensures ConstantOperand(Rewrite(op, k), k).Some? ==>
              ConstantOperand(Rewrite(op, l), l) == ConstantOperand(Rewrite(op, k), k)
  {
  }

  lemma MisfoldMonotone(inst: IRInst, k: Consts, l: Consts)
    requires InstInRange(inst) && Fewer(k, l) && Misfolds(inst, k)
    ensures Misfolds(inst, l)
  {
    hide ConstantOperand, Rewrite, WrongRotation, Fewer;
    ConstantMonotone(Reg(inst.c.value), k, l);
    ConstantMonotone(Reg(inst.c.amount), k, l);
  }

  lemma BlockedMonotone(inst: IRInst, k: Consts, l: Consts)
    requires InstInRange(inst) && Fewer(k, l) && Blocked(inst, k)
    ensures Blocked(inst, l)
  {
  }

  lemma MovMonotone(inst: IRInst, k: Consts, l: Consts)
    requires InstInRange(inst) && inst.opcode == Mov && WritesGeneral(inst.a) && Fewer(k, l)
    requires OptStep(inst, k).1[inst.a.reg.num].Some?
    ensures OptStep(inst, l).1[inst.a.reg.num] == OptStep(inst, k).1[inst.a.reg.num]
  {
  }

  lemma BinopMonotone(inst: IRInst, k: Consts, l: Consts)
    requires InstInRange(inst) && IsBinop(inst.opcode) && WritesGeneral(inst.a) && Fewer(k, l)
    requires OptStep(inst, k).1[inst.a.reg.num].Some?
    ensures OptStep(inst, l).1[inst.a.reg.num] == OptStep(inst, k).1[inst.a.reg.num]
  {
    hide ConstantOperand, Rewrite, FoldBinop, SimplifyIdentity, Fewer;
    ConstantMonotone(inst.b, k, l);
    ConstantMonotone(inst.c, k, l);
  }

  lemma ShiftMonotone(inst: IRInst, k: Consts, l: Consts)
    requires InstInRange(inst) && inst.opcode == Shift && WritesGeneral(inst.a) && Fewer(k, l)
    requires OptStep(inst, k).1[inst.a.reg.num].Some?
    ensures OptStep(inst, l).1[inst.a.reg.num] == OptStep(inst, k).1[inst.a.reg.num]
  {
    hide ConstantOperand, Rewrite, FoldShift, Fewer;
    ShiftOperandShape(inst.c, k);
    ShiftOperandShape(inst.c, l);
    if inst.c.ShiftReg? {
      ConstantMonotone(Reg(inst.c.value), k, l);
      ConstantMonotone(Reg(inst.c.amount), k, l);
    }
  }

  lemma OtherMonotone(inst: IRInst, k: Consts, l: Consts)
    requires InstInRange(inst) && WritesGeneral(inst.a) && Fewer(k, l)
    requires inst.opcode != Mov && !IsBinop(inst.opcode) && inst.opcode != Shift
    requires OptStep(inst, k).1[inst.a.reg.num].Some?
    ensures OptStep(inst, l).1[inst.a.reg.num] == OptStep(inst, k).1[inst.a.reg.num]
  {
  }

  lemma OptStepMonotone(inst: IRInst, k: Consts, l: Consts)
    requires InstInRange(inst) && Fewer(k, l)
    ensures Fewer(OptStep(inst, k).1, OptStep(inst, l).1)
  {
    hide OptStep;
    forall n | 0 <= n < 31 && OptStep(inst, k).1[n].Some?
      ensures OptStep(inst, l).1[n] == OptStep(inst, k).1[n]
    {
      if inst.opcode == Unsupported {
        NopKeepsTable(inst, k);
      } else if WritesGeneral(inst.a) && inst.a.reg.num == n {
        if inst.opcode == Mov {
          MovMonotone(inst, k, l);
        } else if IsBinop(inst.opcode) {
          BinopMonotone(inst, k, l);
        } else if inst.opcode == Shift {
          ShiftMonotone(inst, k, l);
        } else {
          OtherMonotone(inst, k, l);
        }
      } else {
        OtherEntriesKept(inst, k, n);
        OtherEntriesKept(inst, l, n);
      }
    }
  }

  lemma {:induction false} NoMisfoldMonotone(insts: seq<IRInst>, k: Consts, l: Consts)
    requires AllInRange(insts) && Fewer(k, l) && NoMisfold(insts, l)
    ensures NoMisfold(insts, k)
    decreases |insts|
  {
    hide OptStep, InstInRange, Misfolds, Fewer;
    if insts != [] {
      if Misfolds(insts[0], k) {
        MisfoldMonotone(insts[0], k, l);
      }
      if !EndsBlock(insts[0].opcode) {
        OptStepMonotone(insts[0], k, l);
        NoMisfoldMonotone(insts[1..], OptStep(insts[0], k).1, OptStep(insts[0], l).1);
      }
    }
  }

  lemma {:induction false} NotBlockedMonotone(insts: seq<IRInst>, k: Consts, l: Consts)
    requires AllInRange(insts) && Fewer(k, l) && !AnyBlocked(insts, l)
    ensures !AnyBlocked(insts, k)
    decreases |insts|
  {
    hide OptStep, InstInRange, Blocked, Fewer;
    if insts != [] {
      if Blocked(insts[0], k) {
        BlockedMonotone(insts[0], k, l);
      }
      if !EndsBlock(insts[0].opcode) {
        OptStepMonotone(insts[0], k, l);
        NotBlockedMonotone(insts[1..], OptStep(insts[0], k).1, OptStep(insts[0], l).1);
      }
    }
  }

  // ----- parts of a block ----------------------------------------------------------------

  /** A wrong rotation or a blocked operand of a part is one of the whole. */
  lemma {:induction false} PartsFold(a: seq<IRInst>, b: seq<IRInst>, k: Consts)
    requires AllInRange(a) && AllInRange(b) && NoExit(a)
    ensures AllInRange(a + b)
    ensures NoMisfold(a + b, k) ==> NoMisfold(a, k) && NoMisfold(b, NoConsts())
    ensures !AnyBlocked(a + b, k) ==> !AnyBlocked(a, k) && !AnyBlocked(b, NoConsts())
    decreases |a|
  {
    hide OptStep, InstInRange, Blocked, Misfolds, Fewer;
    if a == [] {
      assert a + b == b;
      assert Fewer(NoConsts(), k) by { NoneIsFewer(k); }
      if NoMisfold(b, k) {
        NoMisfoldMonotone(b, NoConsts(), k);
      }
      if !AnyBlocked(b, k) {
        NotBlockedMonotone(b, NoConsts(), k);
      }
    } else {
      assert (a + b)[0] == a[0] && (a + b)[1..] == a[1..] + b;
      PartsFold(a[1..], b, OptStep(a[0], k).1);
    }
  }

  lemma NoneIsFewer(k: Consts)
    ensures Fewer(NoConsts(), k)
  {
  }

  /** What is lowered whole is lowered in parts, wherever the parts are said to end. */
  lemma {:induction false} PartsLowered(a: seq<IRInst>, b: seq<IRInst>, pc: u64, endPc: u64, splitPc: u64, lastPc: u64)
    requires NoExit(a) && Lower(a + b, pc, endPc).Ok?
    ensures Lower(a, pc, splitPc).Ok? && Lower(b, AddPc(pc, 4 * |a|), lastPc).Ok?
    decreases |a|
  {
    hide LowerStraight, LowerExit, SetPcRet, AddPc;
    AddPcNothing(pc);
    if a == [] {
      assert a + b == b;
      LowerAnyEnd(b, pc, endPc, lastPc);
    } else {
      assert (a + b)[0] == a[0] && (a + b)[1..] == a[1..] + b;
      PartsLowered(a[1..], b, AddPc(pc, 4), endPc, splitPc, lastPc);
      CodegenProof.AddPcTwice(pc, 4, 4 * |a[1..]|);
      assert 4 + 4 * |a[1..]| == 4 * |a|;
    }
  }

  lemma {:induction false} LowerAnyEnd(insts: seq<IRInst>, pc: u64, endPc: u64, lastPc: u64)
    ensures Lower(insts, pc, endPc).Ok? <==> Lower(insts, pc, lastPc).Ok?
    decreases |insts|
  {
    hide LowerStraight, LowerExit, SetPcRet, AddPc;
    if insts != [] {
      LowerAnyEnd(insts[1..], AddPc(pc, 4), endPc, lastPc);
    }
  }

  /** Where a block of this span ends. */
  function EndOf(insts: seq<IRInst>, pc: u64): u64 {
    if insts == [] then pc else AddPc(pc, ByteSpan(|insts|))
  }

  /** Safe as lifted and accepted once optimized. */
  predicate Compilable(insts: seq<IRInst>, pc: u64)
    requires AllInRange(insts)
  {
    && NoMisfold(insts, NoConsts()) && !AnyUnsupported(insts)
    && Lower(insts, pc, EndOf(insts, pc)).Ok? && Lower(Optimized(insts, NoConsts()), pc, EndOf(insts, pc)).Ok?
  }

  lemma PartsCompilable(a: seq<IRInst>, b: seq<IRInst>, pc: u64)
    requires AllInRange(a) && AllInRange(b) && NoExit(a) && AllInRange(a + b) && Compilable(a + b, pc)
    ensures Compilable(a, pc) && Compilable(b, AddPc(pc, 4 * |a|))
  {
    hide Lower, Optimized, NoMisfold, AnyBlocked, AddPc, ByteSpan, AllInRange, NoExit;
    var next, endPc := AddPc(pc, 4 * |a|), EndOf(a + b, pc);
    AcceptanceExact(a + b, NoConsts(), pc, endPc);
    PartsFold(a, b, NoConsts());
    PartsLowered(a, b, pc, endPc, EndOf(a, pc), EndOf(b, next));
    AcceptanceExact(a, NoConsts(), pc, EndOf(a, pc));
    AcceptanceExact(b, NoConsts(), next, EndOf(b, next));
    PartsSupported(a, b);
  }

  lemma PartsSupported(a: seq<IRInst>, b: seq<IRInst>)
    requires !AnyUnsupported(a + b)
    ensures !AnyUnsupported(a) && !AnyUnsupported(b)
  {
    forall i | 0 <= i < |a|
      ensures a[i].opcode != Unsupported
    {
      assert (a + b)[i] == a[i];
    }
    forall i | 0 <= i < |b|
      ensures b[i].opcode != Unsupported
    {
      assert (a + b)[|a| + i] == b[i];
    }
  }

  /** A window is safe and translated exactly when what it lifts to is compilable. */
  lemma WindowCompilable(words: seq<bv32>, pc: u64, decode: Decoder)
    requires AllInRange(Window(words, pc, decode))
    ensures SafeWindow(words, pc, decode) && Translate(pc, words, decode).Ok?
            <==> Compilable(Window(words, pc, decode), pc)
  {
    hide Lower, Optimized, NoMisfold, AllInRange, Window, AnyUnsupported, X86.EncAll;
    OptimizedLength(Window(words, pc, decode));
  }

  lemma OptimizedLength(insts: seq<IRInst>)
    requires AllInRange(insts)
    ensures |Optimized(insts, NoConsts())| == |insts| && (insts == [] <==> Optimized(insts, NoConsts()) == [])
  {
    hide OptStep;
  }

  /** Block splitting in machine code: if a window is safe and translated, so are its two
      parts, the code of the whole has the effect of the codes of the parts one after the
      other, and the first part hands over at the second part's address. */
  lemma TranslationSplits(a: seq<bv32>, b: seq<bv32>, pc: u64, decode: Decoder, m: Machine)
    requires LiftProof.DecoderSane(decode) && 4 * |a + b| < P64 && NoTerminal(a, decode) && NoExit(LiftAll(a, pc, decode))
    requires SafeWindow(a + b, pc, decode) && Translate(pc, a + b, decode).Ok?
    ensures var next := AddPc(pc, 4 * |a|);
            && SafeWindow(a, pc, decode) && Translate(pc, a, decode).Ok?
            && SafeWindow(b, next, decode) && Translate(next, b, decode).Ok?
            && var first := CodeFlow(Translate(pc, a, decode).value, m);
               && CodeFlow(Translate(pc, a + b, decode).value, m) == ThenCall(first, Translate(next, b, decode).value)
               && (first.Goto? ==> first.jump.regs.pc == next)
  {
    hide CodeFlow, Translate, RunBlock, LiftAll, NoExit, AllInRange, LiftProof.DecoderSane, NoTerminal, AddPc, SafeWindow, Compilable;
    var next := AddPc(pc, 4 * |a|);
    var head := b[..Consumed(b, decode)];
    ConsumedConcat(a, b, decode);
    assert a[..|a|] == a && (a + b)[..|a| + |head|] == a + head;
    WindowWellFormed(a, pc, decode);
    WindowWellFormed(b, next, decode);
    WindowWellFormed(a + b, pc, decode);
    LiftAllConcat(a, head, pc, decode);
    WindowCompilable(a + b, pc, decode);
    PartsCompilable(LiftAll(a, pc, decode), LiftAll(head, next, decode), pc);
    WindowCompilable(a, pc, decode);
    WindowCompilable(b, next, decode);
    SplitTransparent(a, head, pc, decode, m);
    TranslationMeans(pc, a + b, decode, m);
    TranslationMeans(pc, a, decode, m);
    var out := RunBlock(LiftAll(a, pc, decode), pc, m);
    if out.Goto? {
      TranslationMeans(next, b, decode, out.jump);
    }
  }
}
