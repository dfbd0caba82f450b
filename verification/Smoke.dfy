/** The dispatcher program of the smoke binary (src/bin/smoke.rs), end to end: two blocks
    compiled, one run, and the guest ends where the program says. */
module Smoke {
  import opened Words
  import opened Ir
  import opened Arm
  import opened Fields
  import opened Lift
  import opened LiftProof
  import opened Optimizer
  import opened OptimizerProof
  import opened Pipeline
  import opened Acceptance
  import opened Dispatch
  import opened Transparency

  const MOVE: bv32 := 0xd280_0500    // movz x0, #40
  const BRANCH: bv32 := 0x1400_0002  // b .+8
  const ADD: bv32 := 0x9100_0800     // add x0, x0, #2
  const RETURN: bv32 := 0xd65f_03c0  // ret

  /** A decoder that reads these words as the architecture does. */
  ghost predicate ReadsProgram(decode: Decoder) {
    && DecoderSane(decode)
    && decode(MOVE) == Some(A64Inst(A64_Other, Register(SizeX, 0), HalfImm(40), Nothing))
    && decode(BRANCH) == Some(A64Inst(A64_B, PCOffset(8), Nothing, Nothing))
    && decode(ADD) == Some(A64Inst(A64_ADD, RegisterOrSP(SizeX, 0), RegisterOrSP(SizeX, 0), Immediate(2)))
    && decode(RETURN) == Some(A64Inst(A64_RET, Register(SizeX, 30), Nothing, Nothing))
  }

  const MOVE_INST: IRInst := IRInst(Mov, 0, Reg(XReg(0)), Imm(40), NoOperand)
  const BRANCH_INST: IRInst := IRInst(Branch, 0, GuestPc(0x100c), NoOperand, NoOperand)
  const ADD_INST: IRInst := IRInst(Add, 0, Reg(XReg(0)), Reg(XReg(0)), Imm(2))
  const RETURN_INST: IRInst := IRInst(Ret, 0, Reg(XReg(30)), NoOperand, NoOperand)

  lemma MoveFields()
    ensures EncodeMoveWide(1, 1, 0, 40, 0) == MOVE
  {
  }

  lemma DecodedClasses()
    ensures !HandDecoded(BRANCH) && !HandDecoded(ADD) && !HandDecoded(RETURN)
  {
  }

  lemma SmallFields()
    ensures N2(0) == 0 && N16(40) == 40 && N5(0) == 0
  {
  }

  lemma MoveLifts(pc: u64, decode: Decoder)
    ensures LiftInst(MOVE, pc, decode) == MOVE_INST
  {
    hide LiftInst, N2, N5, N16, EncodeMoveWide;
    MoveFields();
    SmallFields();
    MoveWideRoundTrip(1, 1, 0, 40, 0, pc, decode);
    ScaleNothing();
  }

  lemma ScaleNothing()
    ensures Scale(40, 0) == 40
  {
  }

  lemma NotByHand(word: bv32, pc: u64, decode: Decoder)
    requires !HandDecoded(word) && decode(word).Some?
    ensures LiftInst(word, pc, decode) == DecodedInst(word, pc, decode(word).value)
  {
    hide IsBCond, IsCbz, IsCbnz, IsMovz, IsMovn, IsLdr, IsStr, DecodedInst;
  }

  lemma OthersLift(decode: Decoder)
    requires ReadsProgram(decode)
    ensures LiftInst(BRANCH, 0x1004, decode) == BRANCH_INST
    ensures LiftInst(ADD, 0x100c, decode) == ADD_INST
    ensures LiftInst(RETURN, 0x1010, decode) == RETURN_INST
  {
    hide LiftInst, HandDecoded, DecoderSane, DecodedInst;
    DecodedClasses();
    NotByHand(BRANCH, 0x1004, decode);
    NotByHand(ADD, 0x100c, decode);
    NotByHand(RETURN, 0x1010, decode);
    DecodedLowers();
  }

  lemma DecodedLowers()
    ensures DecodedInst(BRANCH, 0x1004, A64Inst(A64_B, PCOffset(8), Nothing, Nothing)) == BRANCH_INST
    ensures DecodedInst(ADD, 0x100c, A64Inst(A64_ADD, RegisterOrSP(SizeX, 0), RegisterOrSP(SizeX, 0), Immediate(2))) == ADD_INST
    ensures DecodedInst(RETURN, 0x1010, A64Inst(A64_RET, Register(SizeX, 30), Nothing, Nothing)) == RETURN_INST
  {
  }

  /** Two words of which only the second is terminal. */
  lemma PairWindow(a: bv32, b: bv32, pc: u64, decode: Decoder)
    requires !Terminal(a, decode) && Terminal(b, decode)
    ensures Consumed([a, b], decode) == 2
    ensures Window([a, b], pc, decode) == [LiftInst(a, pc, decode), LiftInst(b, AddPc(pc, 4), decode)]
  {
    hide LiftInst, Terminal;
    assert [a, b][1..] == [b] && [b][1..] == [] && [a, b][..2] == [a, b];
    assert Consumed([b], decode) == 1;
    assert LiftAll([b], AddPc(pc, 4), decode) == [LiftInst(b, AddPc(pc, 4), decode)];
  }

  /** Two slots without shifts, stores or conditional branches are safe and stay accepted. */
  lemma PairSafe(i: IRInst, j: IRInst, k: Consts)
    requires AllInRange([i, j])
    requires i.opcode != Shift && j.opcode != Shift && i.opcode != Store && j.opcode != Store
    requires i.opcode != BranchCond && j.opcode != BranchCond
    ensures NoMisfold([i, j], k) && !AnyBlocked([i, j], k)
  {
    hide OptStep, InstInRange;
    assert [i, j][1..] == [j] && [j][1..] == [];
    assert InstInRange([i, j][0]) && InstInRange([i, j][1]);
    assert NoMisfold([j], OptStep(i, k).1);
    assert !AnyBlocked([j], OptStep(i, k).1);
  }

  /** The window of a pair of supported words is translated, to code with its effect. */
  lemma PairTranslated(a: bv32, b: bv32, i: IRInst, j: IRInst, pc: u64, decode: Decoder, m: Machine)
    requires DecoderSane(decode) && !Terminal(a, decode) && Terminal(b, decode)
    requires i == LiftInst(a, pc, decode) && j == LiftInst(b, AddPc(pc, 4), decode) && Supported(i) && Supported(j)
    requires i.opcode != Shift && j.opcode != Shift && i.opcode != Store && j.opcode != Store
    requires i.opcode != BranchCond && j.opcode != BranchCond
    ensures AllInRange(Window([a, b], pc, decode)) && AllInRange([i, j])
    ensures Translate(pc, [a, b], decode).Ok?
    ensures CodeFlow(Translate(pc, [a, b], decode).value, m) == RunBlock([i, j], pc, m)
  {
    hide LiftInst, Terminal, Supported, DecoderSane, Window, Translate, CodeFlow, RunBlock, AllInRange, NoMisfold, AnyBlocked;
    PairWindow(a, b, pc, decode);
    LiftedIsSupported(a, pc, decode);
    LiftedIsSupported(b, AddPc(pc, 4), decode);
    SupportedWindowAccepted([a, b], pc, decode);
    PairSafe(i, j, NoConsts());
    TranslationMeans(pc, [a, b], decode, m);
  }

  lemma PairRuns(i: IRInst, j: IRInst, pc: u64, m: Machine)
    requires InstInRange(i) && InstInRange(j) && ExecInst(i, pc, m).Fall? && EndsBlock(j.opcode)
    ensures AllInRange([i, j]) && RunBlock([i, j], pc, m) == ExecInst(j, AddPc(pc, 4), ExecInst(i, pc, m).next)
  {
    hide ExecInst, RunBlock, InstInRange;
    var m' := ExecInst(i, pc, m).next;
    assert [i] + [j] == [i, j] && [j] + [] == [j];
    RunCons(j, [], AddPc(pc, 4), m');
    RunCons(i, [j], pc, m);
    ExitNeverFalls(j, AddPc(pc, 4), m');
  }

  function AfterFirst(m: Machine): Machine {
    m.(regs := m.regs.(gpr := m.regs.gpr[0 := 40], pc := 0x100c))
  }

  function AfterSecond(m: Machine): Machine {
    m.(regs := m.regs.(gpr := m.regs.gpr[0 := (m.regs.gpr[0] + 2) % P64], pc := m.regs.gpr[30]))
  }

  lemma FirstRuns(m: Machine)
    ensures AllInRange([MOVE_INST, BRANCH_INST])
    ensures RunBlock([MOVE_INST, BRANCH_INST], 0x1000, m) == Goto(AfterFirst(m))
  {
    hide RunBlock;
    PairRuns(MOVE_INST, BRANCH_INST, 0x1000, m);
  }

  lemma AddResult(x: u64)
    ensures Arith(Add, X64, x, 2).0 == (x + 2) % P64
  {
    hide Signed;
  }

  lemma AddExec(pc: u64, m: Machine)
    ensures InstInRange(ADD_INST)
    ensures ExecInst(ADD_INST, pc, m) == Fall(m.(regs := m.regs.(gpr := m.regs.gpr[0 := (m.regs.gpr[0] + 2) % P64])))
  {
    hide Arith;
    assert ExecInst(ADD_INST, pc, m) == ExecBinop(ADD_INST, m);
    AddResult(m.regs.gpr[0]);
    KnownAddition(m);
  }

  lemma KnownAddition(m: Machine)
    ensures InstInRange(ADD_INST)
    ensures ExecBinop(ADD_INST, m) == Fall(WriteBack(m, XReg(0), Arith(Add, X64, m.regs.gpr[0], 2).0))
  {
    hide Arith, WriteBack;
  }

  lemma SecondRuns(m: Machine)
    ensures AllInRange([ADD_INST, RETURN_INST])
    ensures RunBlock([ADD_INST, RETURN_INST], 0x100c, m) == Goto(AfterSecond(m))
  {
    hide RunBlock, ExecBinop, Arith;
    AddExec(0x100c, m);
    PairRuns(ADD_INST, RETURN_INST, 0x100c, m);
  }

  lemma ProgramSupported()
    ensures Supported(MOVE_INST) && Supported(BRANCH_INST) && Supported(ADD_INST) && Supported(RETURN_INST)
  {
  }

  lemma ProgramTerminals(decode: Decoder)
    requires ReadsProgram(decode)
    ensures !Terminal(MOVE, decode) && Terminal(BRANCH, decode) && !Terminal(ADD, decode) && Terminal(RETURN, decode)
  {
    hide DecoderSane;
  }

  lemma FirstBlock(decode: Decoder, m: Machine)
    requires ReadsProgram(decode)
    ensures AllInRange(Window([MOVE, BRANCH], 0x1000, decode)) && Translate(0x1000, [MOVE, BRANCH], decode).Ok?
    ensures CodeFlow(Translate(0x1000, [MOVE, BRANCH], decode).value, m) == Goto(AfterFirst(m))
  {
    hide LiftInst, DecoderSane, Window, Translate, CodeFlow, RunBlock, Supported, Terminal, AllInRange;
    MoveLifts(0x1000, decode);
    OthersLift(decode);
    ProgramSupported();
    ProgramTerminals(decode);
    PairTranslated(MOVE, BRANCH, MOVE_INST, BRANCH_INST, 0x1000, decode, m);
    FirstRuns(m);
  }

  lemma SecondBlock(decode: Decoder, m: Machine)
    requires ReadsProgram(decode)
    ensures AllInRange(Window([ADD, RETURN], 0x100c, decode)) && Translate(0x100c, [ADD, RETURN], decode).Ok?
    ensures CodeFlow(Translate(0x100c, [ADD, RETURN], decode).value, m) == Goto(AfterSecond(m))
  {
    hide LiftInst, DecoderSane, Window, Translate, CodeFlow, RunBlock, Supported, Terminal, AllInRange;
    OthersLift(decode);
    ProgramSupported();
    ProgramTerminals(decode);
    PairTranslated(ADD, RETURN, ADD_INST, RETURN_INST, 0x100c, decode, m);
    SecondRuns(m);
  }

  /** Compile the block at 0x1000, then the block at 0x100c, and run with a budget of 8. */
  function Program(): seq<Event> {
    [Compile(0x1000, [MOVE, BRANCH], true), Compile(0x100c, [ADD, RETURN], true), Execute(8)]
  }

  lemma TwoBlocksRun(blocks: map<u64, CompiledBlock>, m: Machine, a: Machine, b: Machine)
    requires m.regs.pc in blocks && CodeFlow(blocks[m.regs.pc].code, m) == Goto(a)
    requires a.regs.pc in blocks && CodeFlow(blocks[a.regs.pc].code, a) == Goto(b) && b.regs.pc !in blocks
    ensures RunSpec(blocks, m, 8) == RunState(Exited(b.regs.pc), b, [m.regs.pc, a.regs.pc])
  {
    hide CodeFlow;
    assert RunSpec(blocks, a, 7) == RunState(Exited(b.regs.pc), b, [a.regs.pc]);
    assert RunSpec(blocks, m, 8) == Prefixed(m.regs.pc, RunSpec(blocks, a, 7));
  }

  /** Both compilations succeed, two blocks run, X0 is 42 and the pc is the return address. */
  lemma ProgramRuns(decode: Decoder, m: Machine)
    requires ReadsProgram(decode) && m.regs.pc == 0x1000 && m.regs.gpr[30] == 0
    ensures AllLawful(Program(), decode)
    ensures var end := Replay(Program(), Start(m), decode);
            && end.machine.regs.gpr[0] == 42 && end.machine.regs.pc == 0
            && end.executed == 2 && end.blocks.Keys == {0x1000, 0x100c}
  {
    hide Window, Translate, CodeFlow, RunSpec, LiveCount, SumLive, Completed, DecoderSane, BumpAll, AllInRange;
    var events := Program();
    var first, second, run := events[0], events[1], events[2];
    FirstBlock(decode, m);
    var a := AfterFirst(m);
    SecondBlock(decode, a);
    var b := AfterSecond(a);
    assert AllLawful(events, decode);
    var s1 := Apply(first, Start(m), decode);
    var s2 := Apply(second, s1, decode);
    TwoBlocksRun(s2.blocks, m, a, b);
    BumpAllKeeps(s2.blocks, [m.regs.pc, a.regs.pc]);
    ReplayThree(first, second, run, Start(m), decode);
  }

  lemma ReplayThree(e: Event, f: Event, g: Event, s: Session, decode: Decoder)
    requires EventLawful(e, decode) && EventLawful(f, decode) && EventLawful(g, decode)
    ensures AllLawful([e, f, g], decode)
    ensures Replay([e, f, g], s, decode) == Apply(g, Apply(f, Apply(e, s, decode), decode), decode)
  {
    hide Apply, EventLawful;
    assert [e, f, g][1..] == [f, g] && [f, g][1..] == [g] && [g][1..] == [];
    var s2 := Apply(f, Apply(e, s, decode), decode);
    assert Replay([], Apply(g, s2, decode), decode) == Apply(g, s2, decode);
    assert Replay([g], s2, decode) == Apply(g, s2, decode);
    assert Replay([f, g], Apply(e, s, decode), decode) == Replay([g], s2, decode);
  }
}
