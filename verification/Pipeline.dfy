/** The passes put together (src/jit/mod.rs): optimizing, selecting and emitting a
    block, what is accepted, what is preserved, and exactly when. */
module Pipeline {
  import opened Words
  import opened Ir
  import opened Arm
  import opened X86
  import X86Props
  import Isel
  import opened Codegen
  import opened CodegenProof
  import BlockProof
  import opened Optimizer
  import opened OptimizerProof

  /** Optimizes, then counts immediate forms; only the instruction list changes. */
  method PrepareBlock(block: Block)
    requires AllInRange(block.insts)
    modifies block`insts
    ensures block.insts == Optimized(old(block.insts), NoConsts())
  {
    OptimizeBlock(block);
    var selector := new Isel.InstructionSelector();
    selector.SelectBlock(block);
  }

  // ----- preservation --------------------------------------------------------------

  lemma NothingKnown(g: Regs)
    ensures Known(NoConsts(), g)
  {
  }

  lemma WellFormedInRange(insts: seq<IRInst>)
    requires AllWellFormed(insts)
    ensures AllInRange(insts)
  {
  }

  /** If the backend accepts the optimized block, its bytes have the effect of the
      block as it was lifted. */
  lemma PipelineCorrect(guestPc: u64, insts: seq<IRInst>, byteLen: u64, s: Cpu, fuel: nat)
    requires AllWellFormed(insts) && AllShiftsConsistent(insts) && BlockProof.SpansItsWords(insts, byteLen)
    requires NoMisfold(insts, NoConsts())
    requires var lowered := LowerBlock(guestPc, Optimized(insts, NoConsts()), byteLen);
             lowered.Ok? && fuel >= |EncAll(lowered.value)|
    requires RunBlock(insts, guestPc, View(s)) != Stuck
    ensures Observe(Exec(EncAll(LowerBlock(guestPc, Optimized(insts, NoConsts()), byteLen).value), 0, s, fuel))
            == RunBlock(insts, guestPc, View(s))
  {
    hide Exec, EncAll, Lower, LowerBlock, RunBlock, AllWellFormed, AllShiftsConsistent, NoMisfold, Optimized, Known, Observe;
    WellFormedInRange(insts);
    OptimizedWellFormed(insts, NoConsts());
    WellFormedInRange(Optimized(insts, NoConsts()));
    NothingKnown(s.regs);
    OptimizedSound(insts, NoConsts(), guestPc, View(s));
    BlockProof.CodegenCorrect(guestPc, Optimized(insts, NoConsts()), byteLen, s, fuel);
  }

  // ----- exactness: folded rotations -----------------------------------------------

  predicate Total(mem: Memory) {
    forall a: u64 :: a in mem
  }

  lemma {:induction false} LoadTotal(mem: Memory, addr: u64, n: nat)
    requires Total(mem)
    ensures LoadBytes(mem, addr, n).Some?
    decreases n
  {
    if n > 0 {
      LoadTotal(mem, AddPc(addr, 1), n - 1);
    }
  }

  lemma {:induction false} StoreTotal(mem: Memory, addr: u64, bs: seq<u8>)
    requires Total(mem)
    ensures StoreBytes(mem, addr, bs).Some? && Total(StoreBytes(mem, addr, bs).value)
    decreases |bs|
  {
    if bs != [] {
      StoreTotal(mem[addr := bs[0]], AddPc(addr, 1), bs[1..]);
    }
  }

  /** With all of memory mapped nothing faults. */
  lemma TotalNeverFaults(inst: IRInst, pc: u64, m: Machine)
    requires InstInRange(inst) && Total(m.mem)
    ensures ExecInst(inst, pc, m) != Fault
    ensures ExecInst(inst, pc, m).Fall? ==> Total(ExecInst(inst, pc, m).next.mem)
  {
    hide Arith, ShiftValue, LoadBytes, StoreBytes, FromLe, Le, Write, Read, Eval, ConditionHolds, Total;
    if inst.opcode == Load && inst.b.Mem? {
      LoadTotal(m.mem, Address(inst.b.mem, m.regs), Bytes(inst.b.mem.width));
    } else if inst.opcode == Store && inst.a.Mem? {
      var v := Eval(inst.b, inst.a.mem.width, m.regs);
      if v.Some? {
        StoreTotal(m.mem, Address(inst.a.mem, m.regs), Le(v.value, Bytes(inst.a.mem.width)));
      }
    }
  }

  /** An accepted straight instruction always has a meaning. */
  lemma AcceptedNotStuck(inst: IRInst, pc: u64, m: Machine)
    requires WellFormed(inst) && !EndsBlock(inst.opcode) && LowerStraight(inst).Ok?
    ensures ExecInst(inst, pc, m) != Stuck
    ensures Total(m.mem) ==> ExecInst(inst, pc, m).Fall?
  {
    hide ExecInst, LowerStraight, X86Props.RunSeq;
    StraightRun(inst, pc, Cpu(0, 0, 0, 0, NO_FLAGS, m.regs, m.mem));
    if Total(m.mem) {
      TotalNeverFaults(inst, pc, m);
    }
  }

  /** Optimized and original blocks agree after every slot, from every state. */
  ghost predicate AgreesAtEverySlot(insts: seq<IRInst>)
    requires AllInRange(insts)
  {
    var out := Optimized(insts, NoConsts());
    && AllInRange(out)
    && forall j, pc, m :: 0 <= j <= |insts| && RunBlock(insts[..j], pc, m) != Stuck ==>
         RunBlock(out[..j], pc, m) == RunBlock(insts[..j], pc, m)
  }

  lemma {:induction false} OptimizedPrefix(insts: seq<IRInst>, k: Consts, j: nat)
    requires AllInRange(insts) && j <= |insts|
    ensures AllInRange(insts[..j]) && Optimized(insts, k)[..j] == Optimized(insts[..j], k)
    decreases j
  {
    hide OptStep, InstInRange;
    if j > 0 {
      var k' := OptStep(insts[0], k).1;
      OptimizedPrefix(insts[1..], k', j - 1);
      assert insts[..j][0] == insts[0] && insts[..j][1..] == insts[1..][..j - 1];
    }
  }

  lemma {:induction false} NoMisfoldPrefix(insts: seq<IRInst>, k: Consts, j: nat)
    requires AllInRange(insts) && j <= |insts| && NoMisfold(insts, k)
    ensures AllInRange(insts[..j]) && NoMisfold(insts[..j], k)
    decreases j
  {
    hide OptStep, InstInRange, Misfolds;
    if j > 0 && !EndsBlock(insts[0].opcode) {
      NoMisfoldPrefix(insts[1..], OptStep(insts[0], k).1, j - 1);
      assert insts[..j][0] == insts[0] && insts[..j][1..] == insts[1..][..j - 1];
    }
  }

  /** A wrong rotation shows: some prefix runs, and runs differently once optimized. */
  lemma {:induction false} MisfoldShows(insts: seq<IRInst>, k: Consts, pc: u64, endPc: u64, m: Machine) returns (j: nat)
    requires AllWellFormed(insts) && AllShiftsConsistent(insts) && Lower(insts, pc, endPc).Ok?
    requires !NoMisfold(insts, k) && Known(k, m.regs) && Total(m.mem)
    requires AllInRange(Optimized(insts, k))
    ensures j <= |insts| && AllInRange(insts[..j]) && AllInRange(Optimized(insts, k)[..j])
    ensures RunBlock(insts[..j], pc, m) != Stuck
    ensures RunBlock(Optimized(insts, k)[..j], pc, m) != RunBlock(insts[..j], pc, m)
    decreases |insts|
  {
    hide ExecInst, OptStep, OperandFits, FlagsAllowed, ShiftConsistent, Known, Misfolds, InstInRange, LowerStraight, LowerExit, SetPcRet, Total;
    var (i, k') := OptStep(insts[0], k);
    var out := Optimized(insts, k);
    assert WellFormed(insts[0]) && ShiftConsistent(insts[0]);
    assert out[0] == i && out[1..] == Optimized(insts[1..], k');
    if Misfolds(insts[0], k) {
      MisfoldNotExit(insts[0], k);
      AcceptedNotStuck(insts[0], pc, m);
      MisfoldDiffers(insts[0], k, pc, m);
      j := 1;
      RunBlockOne(insts[..1], pc, m);
      RunBlockOne(out[..1], pc, m);
      SetPcInjective(ExecInst(insts[0], pc, m).next, ExecInst(i, pc, m).next, AddPc(pc, 4), insts[0], i, pc, m);
    } else {
      AcceptedNotStuck(insts[0], pc, m);
      TotalNeverFaults(insts[0], pc, m);
      OptStepSound(insts[0], k, pc, m);
      var m' := ExecInst(insts[0], pc, m).next;
      var j' := MisfoldShows(insts[1..], k', AddPc(pc, 4), endPc, m');
      j := j' + 1;
      assert insts[..j][0] == insts[0] && insts[..j][1..] == insts[1..][..j'];
      assert out[..j][0] == i && out[..j][1..] == out[1..][..j'];
    }
  }

  lemma MisfoldNotExit(inst: IRInst, k: Consts)
    requires InstInRange(inst) && Misfolds(inst, k)
    ensures !EndsBlock(inst.opcode)
  {
  }

  lemma RunBlockOne(insts: seq<IRInst>, pc: u64, m: Machine)
    requires |insts| == 1 && AllInRange(insts) && ExecInst(insts[0], pc, m).Fall?
    ensures RunBlock(insts, pc, m) == Goto(SetPc(ExecInst(insts[0], pc, m).next, AddPc(pc, 4)))
  {
    hide ExecInst;
    assert insts[1..] == [];
  }

  /** Falling instructions do not touch pc, so setting it hides no difference. */
  lemma SetPcInjective(a: Machine, b: Machine, pc': u64, ia: IRInst, ib: IRInst, pc: u64, m: Machine)
    requires InstInRange(ia) && InstInRange(ib)
    requires ExecInst(ia, pc, m) == Fall(a) && ExecInst(ib, pc, m) == Fall(b) && a != b
    ensures SetPc(a, pc') != SetPc(b, pc')
  {
    hide ExecInst;
    FallKeepsPc(ia, pc, m);
    FallKeepsPc(ib, pc, m);
    assert SetPc(SetPc(a, pc'), a.regs.pc) == a && SetPc(SetPc(b, pc'), b.regs.pc) == b;
  }

  lemma FallKeepsPc(inst: IRInst, pc: u64, m: Machine)
    requires InstInRange(inst) && ExecInst(inst, pc, m).Fall?
    ensures ExecInst(inst, pc, m).next.regs.pc == m.regs.pc
  {
    hide Arith, ShiftValue, LoadWord, StoreWord, Eval, Read;
  }

  function Blank(a: u64): u8 { 0 }

  function ZeroMemory(): (mem: Memory)
    ensures Total(mem)
  {
    map a: u64 | 0 <= a < P64 :: Blank(a)
  }

  /** The optimizer keeps an accepted block's meaning at every slot exactly when it
      folds no rotation of a W register that loses one-bits. */
  lemma PreservationExact(insts: seq<IRInst>, pc: u64, endPc: u64)
    requires AllWellFormed(insts) && AllShiftsConsistent(insts) && Lower(insts, pc, endPc).Ok?
    ensures AllInRange(insts)
    ensures AgreesAtEverySlot(insts) <==> NoMisfold(insts, NoConsts())
  {
    hide Lower, RunBlock, NoMisfold, Optimized, Known, WellFormed, ShiftConsistent, InstInRange;
    WellFormedInRange(insts);
    OptimizedWellFormed(insts, NoConsts());
    WellFormedInRange(Optimized(insts, NoConsts()));
    if NoMisfold(insts, NoConsts()) {
      forall j, pc, m | 0 <= j <= |insts| && RunBlock(insts[..j], pc, m) != Stuck
        ensures RunBlock(Optimized(insts, NoConsts())[..j], pc, m) == RunBlock(insts[..j], pc, m)
      {
        OptimizedPrefix(insts, NoConsts(), j);
        NoMisfoldPrefix(insts, NoConsts(), j);
        NothingKnown(m.regs);
        OptimizedSound(insts[..j], NoConsts(), pc, m);
      }
    } else {
      var m := Machine(ZERO_REGS, ZeroMemory());
      NothingKnown(m.regs);
      var j := MisfoldShows(insts, NoConsts(), pc, endPc, m);
    }
  }

  function MoveOne(n: u8): IRInst {
    IRInst(Mov, 0, Reg(WReg(n)), Imm(1), NoOperand)
  }

  const ROTATE: IRInst := IRInst(Shift, 0, Reg(WReg(2)), Reg(WReg(0)), ShiftReg(WReg(0), WReg(1), Ror))

  /** `movz w0, #1; movz w1, #1; rorv w2, w0, w1` */
  function RotationBlock(): seq<IRInst> {
    [MoveOne(0), MoveOne(1), ROTATE]
  }

  /** The rotated-out bit belongs at position 31 of the word; folding puts it at 63 and
      truncates it away, so the optimized block ends with another value in W2. */
  lemma MisfoldExample(pc: u64, m: Machine)
    ensures var insts := RotationBlock();
            && AllInRange(insts) && AllWellFormed(insts) && AllShiftsConsistent(insts)
            && var out := Optimized(insts, NoConsts());
               && AllInRange(out)
               && RunBlock(insts, pc, m).Goto? && RunBlock(insts, pc, m).jump.regs.gpr[2] == 0x8000_0000
               && RunBlock(out, pc, m).Goto? && RunBlock(out, pc, m).jump.regs.gpr[2] == 0
  {
    hide ExecInst, RunBlock, OptStep, ShiftValue, FoldShift;
    var insts := RotationBlock();
    assert WellFormed(insts[0]) && WellFormed(insts[1]) && WellFormed(insts[2]);
    RotationFolds();
    var folded := IRInst(Mov, 0, Reg(WReg(2)), Imm(0), NoOperand);
    MovesOne(pc, m);
    var g := m.regs.(gpr := m.regs.gpr[0 := 1][1 := 1]);
    var m' := m.(regs := g);
    RotateExec(AddPc(AddPc(pc, 4), 4), m');
    MoveZero(AddPc(AddPc(pc, 4), 4), m');
    RunThree(insts[0], insts[1], ROTATE, pc, m);
    RunThree(insts[0], insts[1], folded, pc, m);
  }

  lemma MoveOneStep(n: u8, k: Consts)
    requires n < 31
    ensures InstInRange(MoveOne(n)) && OptStep(MoveOne(n), k) == (MoveOne(n), k[n := Some(1)])
  {
  }

  lemma RotateMisfolds(k: Consts)
    requires k[0] == Some(1) && k[1] == Some(1)
    ensures InstInRange(ROTATE) && Misfolds(ROTATE, k)
    ensures ConstantOperand(Reg(WReg(0)), k) == Some(1) && ConstantOperand(Reg(WReg(1)), k) == Some(1)
  {
    hide ShiftWide, ShiftValue, LowBits;
    RotatedOne();
  }

  lemma RotateStep(k: Consts)
    requires k[0] == Some(1) && k[1] == Some(1)
    ensures InstInRange(ROTATE) && OptStep(ROTATE, k).0 == IRInst(Mov, 0, Reg(WReg(2)), Imm(0), NoOperand)
  {
    hide FoldShift, OptStep, Misfolds, ConstantOperand, ShiftValue, LowBits;
    RotateMisfolds(k);
    FoldedShiftStep(ROTATE, k);
    RotatedOne();
  }

  lemma RotationFolds()
    ensures AllInRange(RotationBlock())
    ensures Optimized(RotationBlock(), NoConsts()) ==
            [MoveOne(0), MoveOne(1), IRInst(Mov, 0, Reg(WReg(2)), Imm(0), NoOperand)]
  {
    hide OptStep, Optimized, MoveOne, InstInRange;
    var insts := RotationBlock();
    var k1 := NoConsts()[0 := Some(1)];
    var k2 := k1[1 := Some(1)];
    MoveOneStep(0, NoConsts());
    MoveOneStep(1, k1);
    RotateStep(k2);
    assert insts[1..] == [MoveOne(1), ROTATE] && [MoveOne(1), ROTATE][1..] == [ROTATE] && [ROTATE][1..] == [];
    OptimizedUnfold(insts, NoConsts());
    OptimizedUnfold([MoveOne(1), ROTATE], k1);
    OptimizedUnfold([ROTATE], k2);
    OptimizedNothing(OptStep(ROTATE, k2).1);
  }

  lemma OptimizedUnfold(insts: seq<IRInst>, k: Consts)
    requires AllInRange(insts) && insts != []
    ensures Optimized(insts, k) == [OptStep(insts[0], k).0] + Optimized(insts[1..], OptStep(insts[0], k).1)
  {
    hide OptStep;
  }

  lemma OptimizedNothing(k: Consts)
    ensures Optimized([], k) == []
  {
  }

  lemma MovesOne(pc: u64, m: Machine)
    ensures ExecInst(MoveOne(0), pc, m) == Fall(m.(regs := m.regs.(gpr := m.regs.gpr[0 := 1])))
    ensures forall n: u64, v: Machine :: ExecInst(MoveOne(1), n, v) == Fall(v.(regs := v.regs.(gpr := v.regs.gpr[1 := 1])))
  {
  }

  lemma RotateExec(pc: u64, m: Machine)
    requires m.regs.gpr[0] == 1 && m.regs.gpr[1] == 1
    ensures ExecInst(ROTATE, pc, m) == Fall(m.(regs := m.regs.(gpr := m.regs.gpr[2 := 0x8000_0000])))
  {
    hide ShiftValue, ExecInst;
    RotatedOne();
    ShiftOnOnes(pc, m);
  }

  lemma ShiftOnOnes(pc: u64, m: Machine)
    requires m.regs.gpr[0] == 1 && m.regs.gpr[1] == 1 && ShiftValue(Ror, W32, 1, 1) == 0x8000_0000
    ensures ExecInst(ROTATE, pc, m) == Fall(WriteBack(m, WReg(2), 0x8000_0000))
  {
    hide ShiftValue, WriteBack;
  }

  lemma MoveZero(pc: u64, m: Machine)
    ensures ExecInst(IRInst(Mov, 0, Reg(WReg(2)), Imm(0), NoOperand), pc, m)
            == Fall(m.(regs := m.regs.(gpr := m.regs.gpr[2 := 0])))
  {
  }

  lemma NothingInRange()
    ensures AllInRange([])
  {
  }

  lemma RunNone(pc: u64, m: Machine)
    ensures AllInRange([]) && RunBlock([], pc, m) == Goto(SetPc(m, pc))
  {
  }

  lemma RunThree(a: IRInst, b: IRInst, c: IRInst, pc: u64, m: Machine)
    requires InstInRange(a) && InstInRange(b) && InstInRange(c)
    requires ExecInst(a, pc, m).Fall? && ExecInst(b, AddPc(pc, 4), ExecInst(a, pc, m).next).Fall?
    ensures AllInRange([a, b, c])
    ensures var m' := ExecInst(b, AddPc(pc, 4), ExecInst(a, pc, m).next).next;
            var out := ExecInst(c, AddPc(AddPc(pc, 4), 4), m');
            RunBlock([a, b, c], pc, m) == if out.Fall? then Goto(SetPc(out.next, AddPc(AddPc(AddPc(pc, 4), 4), 4))) else out
  {
    hide ExecInst, AddPc, RunBlock, AllInRange;
    assert [a] + [b, c] == [a, b, c] && [b] + [c] == [b, c] && [c] + [] == [c];
    var m1 := ExecInst(a, pc, m).next;
    var m2 := ExecInst(b, AddPc(pc, 4), m1).next;
    assert AllInRange([]) by { NothingInRange(); }
    RunCons(c, [], AddPc(AddPc(pc, 4), 4), m2);
    RunCons(b, [c], AddPc(pc, 4), m1);
    RunCons(a, [b, c], pc, m);
    if ExecInst(c, AddPc(AddPc(pc, 4), 4), m2).Fall? {
      RunNone(AddPc(AddPc(AddPc(pc, 4), 4), 4), ExecInst(c, AddPc(AddPc(pc, 4), 4), m2).next);
    }
  }

  // ----- exactness: acceptance -----------------------------------------------------

  /** A store source, or the register of CBZ/CBNZ, that the table knows. */
  predicate Blocked(inst: IRInst, k: Consts)
    requires InstInRange(inst)
  {
    && (inst.opcode == Store || inst.opcode == BranchCond)
    && WritesGeneral(inst.b) && k[inst.b.reg.num].Some?
  }

  predicate AnyBlocked(insts: seq<IRInst>, k: Consts)
    requires AllInRange(insts)
  {
    insts != [] &&
    (Blocked(insts[0], k) || (!EndsBlock(insts[0].opcode) && AnyBlocked(insts[1..], OptStep(insts[0], k).1)))
  }

  lemma OperandStaysAccepted(op: Operand, k: Consts, reg: Gpr, w: RegWidth)
    requires OperandInRange(op)
    ensures LoadOperand(op, reg, w).Ok? ==> LoadOperand(Rewrite(op, k), reg, w).Ok?
  {
  }

  lemma StraightAcceptance(inst: IRInst, k: Consts)
    requires InstInRange(inst) && !EndsBlock(inst.opcode) && LowerStraight(inst).Ok?
    ensures !EndsBlock(OptStep(inst, k).0.opcode)
    ensures LowerStraight(OptStep(inst, k).0).Ok? <==> !Blocked(inst, k)
  {
    hide FoldBinop, FoldShift, Isel.IsImmediateCandidate, LoadReg, StoreReg, ShiftBy, GuestAddress, Materialize, ConstantOperand;
    if IsBinop(inst.opcode) {
      BinopAcceptance(inst, k);
    }
  }

  lemma BinopAcceptance(inst: IRInst, k: Consts)
    requires InstInRange(inst) && IsBinop(inst.opcode) && LowerStraight(inst).Ok?
    ensures LowerStraight(OptStep(inst, k).0).Ok? && !EndsBlock(OptStep(inst, k).0.opcode)
  {
    hide LoadOperand, FoldBinop, Isel.IsImmediateCandidate, LoadReg, StoreReg, Materialize, ConstantOperand, Rewrite;
    var w := inst.a.reg.width;
    CandidateOperands(inst);
    OperandStaysAccepted(inst.b, k, Rax, w);
    OperandStaysAccepted(inst.c, k, Rcx, w);
    ConstantsAccepted(w);
  }

  lemma CandidateOperands(inst: IRInst)
    requires IsBinop(inst.opcode) && LowerStraight(inst).Ok?
    ensures inst.a.Reg? && LoadOperand(inst.b, Rax, inst.a.reg.width).Ok? && LoadOperand(inst.c, Rcx, inst.a.reg.width).Ok?
  {
    hide LoadReg, StoreReg, Materialize;
  }

  lemma ConstantsAccepted(w: RegWidth)
    ensures forall v: u64 :: LoadOperand(Imm(v), Rax, w).Ok?
  {
  }

  lemma ExitAcceptance(inst: IRInst, k: Consts, next: u64)
    requires InstInRange(inst) && EndsBlock(inst.opcode) && LowerExit(inst, next).Ok?
    ensures OptStep(inst, k).0.opcode == inst.opcode
    ensures LowerExit(OptStep(inst, k).0, next).Ok? <==> !Blocked(inst, k)
  {
    hide SetPcRet, LoadReg, ConditionTable, ReturnCode;
  }

  /** Optimizing an accepted block keeps it acceptable exactly when no store source
      and no CBZ/CBNZ register that can be reached is known constant. */
  lemma {:induction false} AcceptanceExact(insts: seq<IRInst>, k: Consts, pc: u64, endPc: u64)
    requires AllInRange(insts) && Lower(insts, pc, endPc).Ok?
    ensures Lower(Optimized(insts, k), pc, endPc).Ok? <==> !AnyBlocked(insts, k)
    decreases |insts|
  {
    hide OptStep, Blocked, LowerStraight, LowerExit, SetPcRet, InstInRange;
    if insts != [] {
      var (i, k') := OptStep(insts[0], k);
      assert Optimized(insts, k)[0] == i && Optimized(insts, k)[1..] == Optimized(insts[1..], k');
      if EndsBlock(insts[0].opcode) {
        ExitAcceptance(insts[0], k, AddPc(pc, 4));
      } else {
        StraightAcceptance(insts[0], k);
        AcceptanceExact(insts[1..], k', AddPc(pc, 4), endPc);
      }
    }
  }

  /** `mov x0, #5; str x0, [x1]` is accepted as lifted and rejected once optimized. */
  lemma StoreOfConstantRejected(pc: u64)
    ensures var insts := [IRInst(Mov, 0, Reg(XReg(0)), Imm(5), NoOperand),
                          IRInst(Store, 0, Mem(MemOperand(XReg(1), 0, X64)), Reg(XReg(0)), NoOperand)];
            && AllInRange(insts) && AllWellFormed(insts)
            && Lower(insts, pc, AddPc(pc, 8)).Ok?
            && Lower(Optimized(insts, NoConsts()), pc, AddPc(pc, 8)).Err?
  {
    var mov := IRInst(Mov, 0, Reg(XReg(0)), Imm(5), NoOperand);
    var store := IRInst(Store, 0, Mem(MemOperand(XReg(1), 0, X64)), Reg(XReg(0)), NoOperand);
    var insts := [mov, store];
    hide SetPcRet;
    assert insts[1..] == [store] && [store][1..] == [];
    assert AllInRange([store]);
    var k' := OptStep(mov, NoConsts()).1;
    assert Blocked(store, k');
    assert AnyBlocked([store], k') && AnyBlocked(insts, NoConsts());
    assert LowerStraight(mov).Ok? && LowerStraight(store).Ok?;
    assert Lower([], AddPc(AddPc(pc, 4), 4), AddPc(pc, 8)).Ok?;
    assert Lower([store], AddPc(pc, 4), AddPc(pc, 8)).Ok?;
    AcceptanceExact(insts, NoConsts(), pc, AddPc(pc, 8));
  }

  // ----- what optimization leaves alone --------------------------------------------

  /** Same destination and flags; an exit keeps its opcode and target, a flag writer its opcode. */
  predicate SlotKept(before: IRInst, after: IRInst) {
    && after.a == before.a && after.flags == before.flags
    && (EndsBlock(before.opcode) || EndsBlock(after.opcode) || before.WritesNzcv() ==> after.opcode == before.opcode)
    && (after.opcode == before.opcode || after.opcode == Mov)
    && (EndsBlock(before.opcode) && !WritesGeneral(before.c) ==> after.c == before.c)
  }

  lemma StepKeepsSlot(inst: IRInst, k: Consts)
    requires InstInRange(inst)
    ensures SlotKept(inst, OptStep(inst, k).0)
  {
    hide FoldBinop, FoldShift, ConstantOperand;
  }

  /** Slot conservation: one output per input, in place, so every fall-through address is unchanged. */
  lemma {:induction false} SlotsKept(insts: seq<IRInst>, k: Consts)
    requires AllInRange(insts)
    ensures |Optimized(insts, k)| == |insts|
    ensures forall i :: 0 <= i < |insts| ==> SlotKept(insts[i], Optimized(insts, k)[i])
    decreases |insts|
  {
    hide OptStep, SlotKept, InstInRange;
    if insts != [] {
      var k' := OptStep(insts[0], k).1;
      StepKeepsSlot(insts[0], k);
      SlotsKept(insts[1..], k');
      forall i | 0 <= i < |insts|
        ensures SlotKept(insts[i], Optimized(insts, k)[i])
      {
        if i > 0 {
          assert insts[i] == insts[1..][i - 1] && Optimized(insts, k)[i] == Optimized(insts[1..], k')[i - 1];
        }
      }
    }
  }

  // ----- operations on constants fold completely -------------------------------------

  predicate ClosedOperand(op: Operand, known: set<nat>) {
    op.Imm? || (op.Reg? && (op.reg.kind == Zero || (op.reg.kind == General && op.reg.num in known)))
  }

  /** A flag-free operation or shift of constants and of registers already made constant. */
  predicate ClosedOperation(inst: IRInst, known: set<nat>) {
    && WritesGeneral(inst.a) && !inst.WritesNzcv()
    && (|| (IsBinop(inst.opcode) && ClosedOperand(inst.b, known) && ClosedOperand(inst.c, known))
        || (inst.opcode == Shift && inst.c.ShiftReg?
            && ClosedOperand(Reg(inst.c.value), known) && ClosedOperand(Reg(inst.c.amount), known)))
  }

  predicate ClosedMove(inst: IRInst, known: set<nat>) {
    inst.opcode == Mov && WritesGeneral(inst.a) && ClosedOperand(inst.b, known)
  }

  /** The registers made constant, after one more instruction of any kind. */
  function MadeConstant(inst: IRInst, known: set<nat>): set<nat> {
    if inst.opcode == Unsupported then {}
    else if inst.opcode == Nop then known
    else if ClosedOperation(inst, known) || ClosedMove(inst, known) then known + {inst.a.reg.num}
    else if WritesGeneral(inst.a) then known - {inst.a.reg.num}
    else known
  }

  /** At every slot that is reached, a closed operation has become, in `out`, the move of
      the value its register has after that slot. */
  ghost predicate FoldedTo(insts: seq<IRInst>, out: seq<IRInst>, known: set<nat>, pc: u64, m: Machine)
    requires AllInRange(insts) && |out| == |insts|
    decreases |insts|
  {
    insts == [] ||
    match ExecInst(insts[0], pc, m)
    case Fall(m') =>
      && (ClosedOperation(insts[0], known) ==>
            out[0] == IRInst(Mov, insts[0].flags, insts[0].a, Imm(m'.regs.gpr[insts[0].a.reg.num]), NoOperand))
      && FoldedTo(insts[1..], out[1..], MadeConstant(insts[0], known), AddPc(pc, 4), m')
    case _ => true
  }

  /** The table knows exactly these registers. */
  ghost predicate Covers(k: Consts, known: set<nat>) {
    forall n: nat :: n in known <==> n < 31 && k[n].Some?
  }

  lemma ClosedOperandFolds(op: Operand, known: set<nat>, k: Consts)
    requires OperandInRange(op) && ClosedOperand(op, known) && Covers(k, known)
    ensures OperandInRange(Rewrite(op, k)) && ConstantOperand(op, k).Some? && ConstantOperand(Rewrite(op, k), k).Some?
    ensures Rewrite(op, k).Imm? || (Rewrite(op, k).Reg? && Rewrite(op, k).reg.kind == Zero)
  {
  }

  /** The destination is known afterwards, and the slot is a move of what is known of it. */
  predicate BecomesMove(inst: IRInst, k: Consts)
    requires InstInRange(inst) && WritesGeneral(inst.a)
  {
    var (i, k') := OptStep(inst, k);
    var v := k'[inst.a.reg.num];
    v.Some? && i == IRInst(Mov, inst.flags, inst.a, Imm(v.value), NoOperand)
  }

  lemma ClosedOperationMoves(inst: IRInst, known: set<nat>, k: Consts)
    requires InstInRange(inst) && ClosedOperation(inst, known) && Covers(k, known)
    ensures BecomesMove(inst, k)
  {
    hide FoldBinop, FoldShift, ConstantOperand, ClosedOperand, Rewrite;
    if IsBinop(inst.opcode) {
      ClosedOperandFolds(inst.b, known, k);
      ClosedOperandFolds(inst.c, known, k);
    } else {
      ClosedOperandFolds(Reg(inst.c.value), known, k);
      ClosedOperandFolds(Reg(inst.c.amount), known, k);
      ShiftOperandKept(inst.c, k);
    }
  }

  lemma ShiftOperandKept(op: Operand, k: Consts)
    requires OperandInRange(op) && op.ShiftReg?
    ensures Rewrite(op, k) == op
  {
  }

  lemma ClosedMoveKnown(inst: IRInst, known: set<nat>, k: Consts)
    requires InstInRange(inst) && ClosedMove(inst, known) && Covers(k, known)
    ensures OptStep(inst, k).1[inst.a.reg.num].Some?
  {
    ClosedOperandFolds(inst.b, known, k);
  }

  /** Apart from an unsupported instruction, only the entry of the destination changes. */
  lemma OtherEntriesKept(inst: IRInst, k: Consts, n: nat)
    requires InstInRange(inst) && inst.opcode != Unsupported && n < 31
    requires WritesGeneral(inst.a) ==> inst.a.reg.num != n
    ensures OptStep(inst, k).1[n] == k[n]
  {
    hide FoldBinop, FoldShift, ConstantOperand, SimplifyIdentity;
  }

  /** Where the rule for constants makes nothing constant, the destination is forgotten. */
  lemma OtherwiseForgotten(inst: IRInst, known: set<nat>, k: Consts)
    requires InstInRange(inst) && WritesGeneral(inst.a) && inst.opcode != Nop && Covers(k, known)
    requires !ClosedOperation(inst, known) && !ClosedMove(inst, known)
    ensures OptStep(inst, k).1[inst.a.reg.num] == None
  {
    hide FoldBinop, FoldShift, SimplifyIdentity, ConstantOperand, ClosedOperand, Rewrite;
    NotClosed(inst.b, known, k);
    NotClosed(inst.c, known, k);
    ShiftOperandShape(inst.c, k);
    if inst.opcode == Mov {
      MovForgets(inst, known, k);
    } else if inst.opcode == Shift && inst.c.ShiftReg? {
      NotClosed(Reg(inst.c.value), known, k);
      NotClosed(Reg(inst.c.amount), known, k);
    }
  }

  lemma NotClosed(op: Operand, known: set<nat>, k: Consts)
    requires OperandInRange(op) && Covers(k, known)
    ensures OperandInRange(Rewrite(op, k))
    ensures !ClosedOperand(op, known) ==> ConstantOperand(op, k) == None && ConstantOperand(Rewrite(op, k), k) == None
  {
  }

  lemma ShiftOperandShape(op: Operand, k: Consts)
    requires OperandInRange(op)
    ensures if op.ShiftReg? then Rewrite(op, k) == op else !Rewrite(op, k).ShiftReg?
  {
  }

  lemma MovForgets(inst: IRInst, known: set<nat>, k: Consts)
    requires InstInRange(inst) && WritesGeneral(inst.a) && inst.opcode == Mov && Covers(k, known)
    requires !ClosedOperand(inst.b, known)
    ensures OptStep(inst, k).1[inst.a.reg.num] == None
  {
  }

  lemma NopKeepsTable(inst: IRInst, k: Consts)
    requires InstInRange(inst)
    ensures inst.opcode == Nop ==> OptStep(inst, k).1 == k
    ensures inst.opcode == Unsupported ==> OptStep(inst, k).1 == NoConsts()
  {
  }

  /** After any instruction the table knows exactly the registers made constant. */
  lemma CoversStep(inst: IRInst, known: set<nat>, k: Consts)
    requires InstInRange(inst) && Covers(k, known)
    ensures Covers(OptStep(inst, k).1, MadeConstant(inst, known))
  {
    hide OptStep, ClosedOperand;
    NopKeepsTable(inst, k);
    var k' := OptStep(inst, k).1;
    forall n: nat
      ensures n in MadeConstant(inst, known) <==> n < 31 && k'[n].Some?
    {
      if inst.opcode == Nop || inst.opcode == Unsupported {
      } else if WritesGeneral(inst.a) && inst.a.reg.num == n {
        if ClosedOperation(inst, known) {
          ClosedOperationMoves(inst, known, k);
        } else if ClosedMove(inst, known) {
          ClosedMoveKnown(inst, known, k);
        } else {
          OtherwiseForgotten(inst, known, k);
        }
      } else if n < 31 {
        OtherEntriesKept(inst, k, n);
      }
    }
  }

  lemma KnownEntry(k: Consts, g: Regs, n: nat)
    requires Known(k, g) && n < 31 && k[n].Some?
    ensures g.gpr[n] == k[n].value
  {
  }

  /** Whatever else a block contains, its operations on constants become moves of the
      exact values that execution gives. */
  lemma {:induction false} ClosedBlockFolds(insts: seq<IRInst>, known: set<nat>, k: Consts, pc: u64, m: Machine)
    requires AllWellFormed(insts) && AllShiftsConsistent(insts) && NoMisfold(insts, k)
    requires Known(k, m.regs) && Covers(k, known)
    ensures FoldedTo(insts, Optimized(insts, k), known, pc, m)
    decreases |insts|
  {
    hide ExecInst, OptStep, OperandFits, FlagsAllowed, InstInRange, ClosedOperation, MadeConstant, Covers, Known, Misfolds, ShiftConsistent;
    if insts != [] && ExecInst(insts[0], pc, m).Fall? {
      var (i, k') := OptStep(insts[0], k);
      assert WellFormed(insts[0]) && ShiftConsistent(insts[0]);
      OptStepSound(insts[0], k, pc, m);
      CoversStep(insts[0], known, k);
      assert Optimized(insts, k)[0] == i && Optimized(insts, k)[1..] == Optimized(insts[1..], k');
      var m' := ExecInst(insts[0], pc, m).next;
      if ClosedOperation(insts[0], known) {
        ClosedSlot(insts[0], known, k, m'.regs);
      }
      if EndsBlock(insts[0].opcode) {
        ExitNeverFalls(insts[0], pc, m);
      }
      ClosedBlockFolds(insts[1..], MadeConstant(insts[0], known), k', AddPc(pc, 4), m');
    }
  }

  lemma ClosedSlot(inst: IRInst, known: set<nat>, k: Consts, after: Regs)
    requires InstInRange(inst) && ClosedOperation(inst, known) && Covers(k, known) && Known(OptStep(inst, k).1, after)
    ensures WritesGeneral(inst.a) && inst.a.reg.num < 31
    ensures OptStep(inst, k).0 == IRInst(Mov, inst.flags, inst.a, Imm(after.gpr[inst.a.reg.num]), NoOperand)
  {
    hide OptStep, Known;
    ClosedOperationMoves(inst, known, k);
    KnownEntry(OptStep(inst, k).1, after, inst.a.reg.num);
  }

  // ----- every accepted block comes back -------------------------------------------

  lemma OnlyExitsJump(inst: IRInst, pc: u64, m: Machine)
    requires InstInRange(inst) && !EndsBlock(inst.opcode)
    ensures !ExecInst(inst, pc, m).Goto?
  {
    hide Arith, ShiftValue, LoadWord, StoreWord, Pack, Eval;
  }

  lemma ExitNotStuck(inst: IRInst, pc: u64, m: Machine, next: u64)
    requires InstInRange(inst) && EndsBlock(inst.opcode) && LowerExit(inst, next).Ok?
    ensures ExecInst(inst, pc, m).Goto?
  {
    hide ConditionHolds, Unpack, SetPcRet, LoadReg, ConditionTable;
  }

  /** An accepted block has a meaning from every state. */
  lemma {:induction false} AcceptedBlockRuns(insts: seq<IRInst>, pc: u64, endPc: u64, m: Machine)
    requires AllWellFormed(insts) && AllInRange(insts) && Lower(insts, pc, endPc).Ok?
    ensures RunBlock(insts, pc, m) == Fault || RunBlock(insts, pc, m).Goto?
    decreases |insts|
  {
    hide ExecInst, LowerStraight, LowerExit, SetPcRet, OperandFits, FlagsAllowed, InstInRange;
    if insts != [] {
      assert WellFormed(insts[0]);
      if EndsBlock(insts[0].opcode) {
        ExitNotStuck(insts[0], pc, m, AddPc(pc, 4));
      } else {
        AcceptedNotStuck(insts[0], pc, m);
        OnlyExitsJump(insts[0], pc, m);
        if ExecInst(insts[0], pc, m).Fall? {
          AcceptedBlockRuns(insts[1..], AddPc(pc, 4), endPc, ExecInst(insts[0], pc, m).next);
        }
      }
    }
  }

  /** Byte-level control flow: from any processor state the bytes of an accepted block
      decode on every path, never leave the buffer, and reach `ret` (or a guest fault)
      within as many instructions as there are bytes. */
  lemma BytesAlwaysReturn(guestPc: u64, insts: seq<IRInst>, byteLen: u64, s: Cpu)
    requires AllWellFormed(insts) && BlockProof.SpansItsWords(insts, byteLen)
    requires LowerBlock(guestPc, insts, byteLen).Ok?
    ensures var bytes := EncAll(LowerBlock(guestPc, insts, byteLen).value);
            var out := Exec(bytes, 0, s, |bytes|);
            out.Returned? || (out.Crashed? && RunBlock(insts, guestPc, View(s)) == Fault)
  {
    hide Exec, EncAll, Lower, RunBlock, AllWellFormed;
    WellFormedInRange(insts);
    BlockProof.CodegenCorrect(guestPc, insts, byteLen, s, |EncAll(LowerBlock(guestPc, insts, byteLen).value)|);
    AcceptedBlockRuns(insts, guestPc, if insts == [] then guestPc else AddPc(guestPc, byteLen), View(s));
  }
}
