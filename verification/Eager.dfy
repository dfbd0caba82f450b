/** Background and eager compilation of the same window (src/jit/compiler.rs,
    src/runtime/dispatch.rs).  They differ in one check: the eager path looks at every slot
    for unsupported instructions, the background path only at those it emits. */
module Eager {
  import opened Words
  import opened Ir
  import opened Arm
  import X86
  import opened Codegen
  import opened Optimizer
  import Pipeline
  import opened Lift
  import opened LiftProof
  import opened Dispatch
  import opened Windows
  import opened Background

  /** Up to and including the first exit. */
  function LivePart(insts: seq<IRInst>): (live: seq<IRInst>)
    ensures |live| <= |insts|
  {
    if insts == [] then []
    else if EndsBlock(insts[0].opcode) then [insts[0]]
    else [insts[0]] + LivePart(insts[1..])
  }

  lemma {:induction false} LivePartInRange(insts: seq<IRInst>)
    requires AllInRange(insts)
    ensures AllInRange(LivePart(insts))
  {
    hide InstInRange;
    if insts != [] {
      LivePartInRange(insts[1..]);
    }
  }

  /** Whether a block is accepted once optimized depends on its live part only. */
  lemma {:induction false} LivePartDecides(insts: seq<IRInst>, k: Consts, pc: u64, endPc: u64, liveEnd: u64)
    requires AllInRange(insts) && AllInRange(LivePart(insts))
    ensures Lower(Optimized(insts, k), pc, endPc).Ok? <==> Lower(Optimized(LivePart(insts), k), pc, liveEnd).Ok?
    decreases |insts|
  {
    hide OptStep, LowerStraight, LowerExit, SetPcRet, InstInRange, AddPc;
    if insts != [] {
      var (i, k') := OptStep(insts[0], k);
      ExitKept(insts[0], k);
      var live := LivePart(insts);
      assert Optimized(insts, k)[0] == i && Optimized(insts, k)[1..] == Optimized(insts[1..], k');
      assert Optimized(live, k)[0] == i && Optimized(live, k)[1..] == Optimized(live[1..], k');
      if !EndsBlock(insts[0].opcode) {
        assert live[1..] == LivePart(insts[1..]);
        LivePartInRange(insts[1..]);
        LivePartDecides(insts[1..], k', AddPc(pc, 4), endPc, liveEnd);
      }
    }
  }

  lemma ExitKept(inst: IRInst, k: Consts)
    requires InstInRange(inst)
    ensures EndsBlock(OptStep(inst, k).0.opcode) <==> EndsBlock(inst.opcode)
    ensures inst.opcode == Unsupported ==> OptStep(inst, k).0.opcode == Unsupported
  {
    hide OptStep;
    Pipeline.StepKeepsSlot(inst, k);
    if inst.opcode == Unsupported {
      UnsupportedKept(inst, k);
    }
  }

  lemma UnsupportedKept(inst: IRInst, k: Consts)
    requires InstInRange(inst) && inst.opcode == Unsupported
    ensures OptStep(inst, k).0.opcode == Unsupported
  {
  }

  /** An unsupported slot that is emitted is refused. */
  lemma {:induction false} UnsupportedRefused(insts: seq<IRInst>, k: Consts, pc: u64, endPc: u64)
    requires AllInRange(insts) && AnyUnsupported(LivePart(insts))
    ensures Lower(Optimized(insts, k), pc, endPc).Err?
    decreases |insts|
  {
    hide OptStep, LowerStraight, LowerExit, SetPcRet, InstInRange, AddPc;
    var live := LivePart(insts);
    var (i, k') := OptStep(insts[0], k);
    ExitKept(insts[0], k);
    assert Optimized(insts, k)[0] == i && Optimized(insts, k)[1..] == Optimized(insts[1..], k');
    if insts[0].opcode == Unsupported {
      UnsupportedRejected(i);
    } else {
      var j :| 0 <= j < |live| && live[j].opcode == Unsupported;
      assert live[j] == LivePart(insts[1..])[j - 1];
      UnsupportedRefused(insts[1..], k', AddPc(pc, 4), endPc);
    }
  }

  lemma UnsupportedRejected(inst: IRInst)
    requires inst.opcode == Unsupported
    ensures LowerStraight(inst).Err?
  {
  }

  /** What the background worker makes of a window, as lifted. */
  function InBackground(pc: u64, guestPc: u64, words: seq<bv32>, decode: Decoder): Option<seq<u8>>
    requires AllWellFormed(Window(words, guestPc, decode))
  {
    var insts := Window(words, guestPc, decode);
    Process(CompileRequest(pc, guestPc, insts, ByteSpan(|insts|)))
  }

  function Eagerly(guestPc: u64, words: seq<bv32>, decode: Decoder): Option<seq<u8>>
    requires AllInRange(Window(words, guestPc, decode))
  {
    match Translate(guestPc, words, decode)
    case Ok(code) => Some(code)
    case Err(_) => None
  }

  /** The two paths agree on a window if and only if it has no unsupported slot, or what is
      emitted of it has one or is refused for another reason (wherever it is said to end). */
  lemma BackgroundIsEager(pc: u64, guestPc: u64, words: seq<bv32>, decode: Decoder)
    requires DecoderSane(decode)
    ensures var insts := Window(words, guestPc, decode);
            var live := LivePart(insts);
            && AllWellFormed(insts) && AllInRange(insts) && AllInRange(live)
            && (InBackground(pc, guestPc, words, decode) == Eagerly(guestPc, words, decode)
                <==> (AnyUnsupported(insts) ==>
                        AnyUnsupported(live) || Lower(Optimized(live, NoConsts()), guestPc, guestPc).Err?))
  {
    hide Lower, Optimized, X86.EncAll, Window, DecoderSane, AllInRange, AllWellFormed, LivePart, AnyUnsupported;
    WindowWellFormed(words, guestPc, decode);
    var insts := Window(words, guestPc, decode);
    LivePartInRange(insts);
    var out := Optimized(insts, NoConsts());
    var endPc := if out == [] then guestPc else AddPc(guestPc, ByteSpan(|insts|));
    LivePartDecides(insts, NoConsts(), guestPc, endPc, guestPc);
    if AnyUnsupported(LivePart(insts)) {
      UnsupportedRefused(insts, NoConsts(), guestPc, endPc);
    }
  }

  // ----- decoders that agree on the branches ---------------------------------------------

  /** With a decoder that agrees on the branches a window leaves only at its last slot. */
  lemma {:induction false} WindowIsLive(words: seq<bv32>, pc: u64, decode: Decoder)
    requires BranchesAgree(decode)
    ensures LivePart(Window(words, pc, decode)) == Window(words, pc, decode)
    decreases |words|
  {
    hide Terminal, LiftInst, BranchesAgree;
    if words != [] {
      var n := Consumed(words, decode);
      var insts := Window(words, pc, decode);
      assert insts[0] == LiftInst(words[0], pc, decode);
      assert words[..n][1..] == words[1..][..n - 1];
      assert insts == [insts[0]] + LiftAll(words[1..][..n - 1], AddPc(pc, 4), decode);
      if Terminal(words[0], decode) {
        assert insts == [insts[0]];
        assert [insts[0]][1..] == [] && LivePart([]) == [];
      } else {
        if EndsBlock(insts[0].opcode) {
          ExitIsTerminal(words[0], pc, decode);
        }
        WindowIsLive(words[1..], AddPc(pc, 4), decode);
        assert insts[1..] == Window(words[1..], AddPc(pc, 4), decode);
      }
    }
  }

  /** With such a decoder both paths make the same bytes of every window, or both refuse it. */
  lemma BackgroundAgrees(pc: u64, guestPc: u64, words: seq<bv32>, decode: Decoder)
    requires DecoderSane(decode) && BranchesAgree(decode)
    ensures AllWellFormed(Window(words, guestPc, decode)) && AllInRange(Window(words, guestPc, decode))
    ensures InBackground(pc, guestPc, words, decode) == Eagerly(guestPc, words, decode)
  {
    hide InBackground, Eagerly, Window, AllInRange, AllWellFormed, LivePart, DecoderSane, BranchesAgree, Lower, Optimized;
    BackgroundIsEager(pc, guestPc, words, decode);
    WindowIsLive(words, guestPc, decode);
  }

  /** A branch followed by an unsupported slot: code in the background, none eagerly. */
  lemma BranchThenUnsupported(pc: u64, guestPc: u64, target: u64, word: bv32)
    ensures var branch := IRInst(Branch, 0, GuestPc(target), NoOperand, NoOperand);
            var insts := [branch, UnsupportedInst(word)];
            && AllWellFormed(insts) && AnyUnsupported(insts)
            && Process(CompileRequest(pc, guestPc, insts, 8)) == Some(X86.EncAll(SetPcRet(target)))
  {
    hide X86.EncAll, SetPcRet;
    var branch := IRInst(Branch, 0, GuestPc(target), NoOperand, NoOperand);
    var insts := [branch, UnsupportedInst(word)];
    assert insts[1].opcode == Unsupported;
    assert WellFormed(insts[0]) && WellFormed(insts[1]);
    var out := Optimized(insts, NoConsts());
    assert out[0] == branch;
    assert Lower(out, guestPc, AddPc(guestPc, 8)) == Ok(SetPcRet(target));
  }
}
