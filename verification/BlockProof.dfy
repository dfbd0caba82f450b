/** Branches and whole blocks: raw bytes, run from offset 0 until `ret`, have the
    effect of the IR block, within a bounded number of instructions. */
module BlockProof {
  import opened Words
  import opened Ir
  import opened Arm
  import opened State
  import opened X86
  import opened X86Props
  import opened Codegen
  import opened CodegenProof
  import Shifts

  // ----- condition tables ----------------------------------------------------------

  /** Entry `k` of a truth table is the condition on flag nibble `k`. */
  lemma {:induction false} TableEntry(cond: nat, n: nat, k: nat)
    requires k < n
    ensures TruthTable(cond, n) / Pow2(k) % 2 == if NibbleHolds(cond, k) then 1 else 0
  {
    hide NibbleHolds, Pow2;
    var on, rest := NibbleHolds(cond, n - 1), TruthTable(cond, n - 1);
    if k == n - 1 {
      DivModUnique(if on then Pow2(k) + rest else rest, Pow2(k), if on then 1 else 0, rest);
    } else {
      TableEntry(cond, n - 1, k);
      if on {
        Pow2Add(n - 1 - k, k);
        Pow2Step(n - 2 - k);
        HigherBit(rest, Pow2(n - 2 - k), Pow2(k));
      }
    }
  }

  /** Adding an even multiple of `p` leaves the bit of weight `p` alone. */
  lemma HigherBit(rest: nat, e: nat, p: nat)
    requires p > 0
    ensures (rest + (2 * e) * p) / p % 2 == rest / p % 2
  {
    var q, r := rest / p, rest % p;
    assert rest + (2 * e) * p == (q + 2 * e) * p + r by {
      assert rest == p * q + r;
      assert (q + 2 * e) * p == q * p + (2 * e) * p;
    }
    DivModUnique(rest + (2 * e) * p, p, q + 2 * e, r);
  }

  lemma NibbleBits(nzcv: u32)
    ensures var k := nzcv / 0x1000_0000;
            && k / 8 % 2 == nzcv / 0x8000_0000 % 2 && k / 4 % 2 == nzcv / 0x4000_0000 % 2
            && k / 2 % 2 == nzcv / 0x2000_0000 % 2 && k % 2 == nzcv / 0x1000_0000 % 2
  {
  }

  /** The backend's test on flags given one by one. */
  lemma FlagsCondition(cond: nat, nibble: nat, f: Nzcv)
    requires cond <= 15
    requires f == Nzcv(nibble / 8 % 2 == 1, nibble / 4 % 2 == 1, nibble / 2 % 2 == 1, nibble % 2 == 1)
    ensures NibbleHolds(cond, nibble) <==> cond != 15 && ConditionHolds(cond, f)
  {
  }

  /** The backend's test on a nibble is the architectural one, except that condition 15 never holds. */
  lemma NibbleIsCondition(cond: nat, nzcv: u32)
    requires cond <= 15
    ensures NibbleHolds(cond, nzcv / 0x1000_0000) <==> cond != 15 && ConditionHolds(cond, Unpack(nzcv))
  {
    hide NibbleHolds, ConditionHolds;
    NibbleBits(nzcv);
    FlagsCondition(cond, nzcv / 0x1000_0000, Unpack(nzcv));
  }

  /** The flags register, shifted down to a nibble, tested against the table by `bt`. */
  lemma ConditionTestRun(cond: u64, s: Cpu)
    requires cond <= 15
    ensures var t := LowerTest(Imm(cond), NoOperand).value;
            var out := RunSeq(t.code, s);
            AllStraight(t.code) && out.Next? && View(out.cpu) == View(s)
            && FlagOf(out.cpu.flags, t.skip) == Some(!(cond != 15 && ConditionHolds(cond, Unpack(s.regs.nzcv))))
  {
    hide RunSeq, StepInstr, Pow2, NibbleHolds, ConditionHolds, Unpack, TruthTable, ConditionTable;
    var load, shift := MovLoad(Rax, W32, OnRdi, NZCV_OFFSET), ShiftImm(Lsr, W32, Rax, 28);
    var table, test := MovImm(Rcx, W32, ConditionTable(cond)), Bt16(Rcx, Rax);
    var nibble := s.regs.nzcv / 0x1000_0000;
    NibbleRun(s);
    var s2 := RunSeq([load, shift], s).cpu;
    TableTestRun(cond, nibble, s2);
    NibbleIsCondition(cond, s.regs.nzcv);
    RunSeqConcat([load, shift], [table, test], s);
    assert [load, shift] + [table, test] == [load, shift, table, test];
  }

  lemma NibbleRun(s: Cpu)
    ensures var out := RunSeq([MovLoad(Rax, W32, OnRdi, NZCV_OFFSET), ShiftImm(Lsr, W32, Rax, 28)], s);
            out.Next? && OnlyReg(s, out.cpu, Rax) && out.cpu.rax == s.regs.nzcv / 0x1000_0000
  {
    hide RunSeq, StepInstr, ShiftMany, Pow2;
    var load, shift := MovLoad(Rax, W32, OnRdi, NZCV_OFFSET), ShiftImm(Lsr, W32, Rax, 28);
    RunTwo(load, shift, s);
    LoadNzcvRun(s);
    ShiftImmRun(Lsr, 28, StepInstr(load, s).cpu);
    Shifts.LsrMany(W32, s.regs.nzcv, 28);
    Pow2Nibble();
  }

  lemma LoadNzcvRun(s: Cpu)
    ensures StepInstr(MovLoad(Rax, W32, OnRdi, NZCV_OFFSET), s) == Next(s.(rax := s.regs.nzcv))
  {
  }

  lemma ShiftImmRun(kind: ShiftKind, n: u8, s: Cpu)
    requires n < 32 && s.rax < P32
    ensures StepInstr(ShiftImm(kind, W32, Rax, n), s) ==
            Next(s.(rax := ShiftMany(kind, W32, s.rax, n), flags := NO_FLAGS))
  {
    hide ShiftMany;
  }

  /** `bt cx, ax` copies the selected bit of the table to the carry flag. */
  lemma BitTestRun(table: u16, nibble: nat, s: Cpu)
    requires s.rcx == table && s.rax == nibble < 16
    ensures var out := StepInstr(Bt16(Rcx, Rax), s);
            out.Next? && View(out.cpu) == View(s)
            && FlagOf(out.cpu.flags, AboveEqual) == Some(table / Pow2(nibble) % 2 != 1)
  {
    hide Pow2;
    Mod16(table, nibble);
  }

  lemma Mod16(table: u16, nibble: nat)
    requires nibble < 16
    ensures table % 0x1_0000 == table && nibble % 16 == nibble
  {
  }

  lemma TableTestRun(cond: nat, nibble: nat, s: Cpu)
    requires s.rax == nibble < 16
    ensures var out := RunSeq([MovImm(Rcx, W32, ConditionTable(cond)), Bt16(Rcx, Rax)], s);
            out.Next? && View(out.cpu) == View(s)
            && FlagOf(out.cpu.flags, AboveEqual) == Some(!NibbleHolds(cond, nibble))
  {
    hide RunSeq, NibbleHolds, Pow2, TruthTable, FlagOf;
    var table := MovImm(Rcx, W32, ConditionTable(cond));
    RunTwo(table, Bt16(Rcx, Rax), s);
    assert StepInstr(table, s) == Next(s.(rcx := ConditionTable(cond)));
    BitTestRun(ConditionTable(cond), nibble, s.(rcx := ConditionTable(cond)));
    TableEntry(cond, 16, nibble);
  }

  /** `test r, r` sets ZF exactly for a zero register. */
  lemma CompareTestRun(r: GuestReg, kind: u64, s: Cpu)
    requires InRange(r) && kind <= 1
    ensures var t := LowerTest(Reg(r), Imm(kind)).value;
            var out := RunSeq(t.code, s);
            AllStraight(t.code) && out.Next? && View(out.cpu) == View(s)
            && FlagOf(out.cpu.flags, t.skip) == Some(!((Read(s.regs, r) == 0) == (kind == 0)))
  {
    hide RunSeq, LoadReg, AluValue, Bitwise;
    LoadRegRun(Rax, r, s);
    ReadBound(s.regs, r);
    var s1 := RunSeq(LoadReg(Rax, r), s).cpu;
    RunThen(LoadReg(Rax, r), Test(r.width, Rax, Rax), s);
    assert s1.rax == Get(s1, Rax);
    AndSelfZero(s1.rax, r.width);
  }

  lemma AndSelfZero(v: u64, w: RegWidth)
    requires v < Modulus(w)
    ensures AluValue(AluAnd, w, v, v).1.zf == Some(v == 0)
  {
    AndSelf(v);
  }

  lemma {:induction false} AndSelf(v: nat)
    ensures Bitwise(AndOp, v, v) == v
  {
    if v > 0 {
      AndSelf(v / 2);
    }
  }

  lemma TestRun(b: Operand, c: Operand, s: Cpu, inst: IRInst)
    requires inst.b == b && inst.c == c && InstInRange(inst) && LowerTest(b, c).Ok?
    ensures var t := LowerTest(b, c).value;
            var out := RunSeq(t.code, s);
            AllStraight(t.code) && out.Next? && View(out.cpu) == View(s)
            && Taken(inst, s.regs).Some?
            && FlagOf(out.cpu.flags, t.skip) == Some(!Taken(inst, s.regs).value)
  {
    hide RunSeq, ConditionHolds, Unpack, Read, AllStraight;
    match (b, c)
    case (Imm(cond), NoOperand) => ConditionTestRun(cond, s);
    case (Reg(r), Imm(kind)) => CompareTestRun(r, kind, s);
    case _ =>
  }

  // ----- leaving a block -----------------------------------------------------------

  lemma SetPcRun(pc: u64, s: Cpu)
    ensures AllStraight(SetPcCode(pc))
    ensures var out := RunSeq(SetPcCode(pc), s); out.Next? && View(out.cpu) == SetPc(View(s), pc)
  {
    hide RunSeq;
    RunTwo(MovImm(Rax, X64, pc), MovStore(Rax, X64, OnRdi, PC_OFFSET), s);
  }

  /** The conditional jump skips exactly one "set pc, return". */
  lemma SetPcRetLength(pc: u64)
    ensures |EncAll(SetPcRet(pc))| == SET_PC_RET_LEN as int
  {
    var a, b := MovImm(Rax, X64, pc), MovStore(Rax, X64, OnRdi, PC_OFFSET);
    hide Le, Enc;
    EncAllSnoc([a, b], RetI);
    EncAllSnoc([a], b);
    EncAllSnoc([], a);
    assert [] + [a] == [a] && [a] + [b] == [a, b] && [a, b] + [RetI] == SetPcRet(pc);
    SetPcRetPieces(pc);
  }

  lemma SetPcRetPieces(pc: u64)
    ensures |Enc(MovImm(Rax, X64, pc))| == 10
    ensures |Enc(MovStore(Rax, X64, OnRdi, PC_OFFSET))| == 7
    ensures |Enc(RetI)| == 1 && EncAll([]) == []
  {
  }

  /** Straight-line code followed by `ret`. */
  lemma ExecAndReturn(bytes: seq<u8>, at: nat, code: seq<Instr>, s: Cpu, fuel: nat)
    requires AllStraight(code) && RunSeq(code, s).Next? && fuel >= |code| + 1
    requires PlacedAt(bytes, at, EncAll(code + [RetI]))
    ensures Exec(bytes, at, s, fuel) == Returned(RunSeq(code, s).cpu)
  {
    hide RunSeq, Exec, EncAll, AllStraight;
    EncAllSnoc(code, RetI);
    PlacedSplit(bytes, at, EncAll(code), Enc(RetI));
    ExecSeq(bytes, at, code, s, fuel);
    ExecRet(bytes, at + |EncAll(code)|, RunSeq(code, s).cpu, fuel - |code|);
  }

  lemma SetPcRetExec(bytes: seq<u8>, at: nat, pc: u64, s: Cpu, fuel: nat)
    requires PlacedAt(bytes, at, EncAll(SetPcRet(pc))) && fuel >= 3
    ensures Observe(Exec(bytes, at, s, fuel)) == Goto(SetPc(View(s), pc))
  {
    hide RunSeq, Exec, EncAll, AllStraight;
    SetPcRun(pc, s);
    ExecAndReturn(bytes, at, SetPcCode(pc), s, fuel);
  }

  lemma ReturnExec(bytes: seq<u8>, at: nat, s: Cpu, fuel: nat)
    requires PlacedAt(bytes, at, EncAll(ReturnCode())) && fuel >= 3
    ensures Observe(Exec(bytes, at, s, fuel)) == Goto(SetPc(View(s), s.regs.gpr[30]))
  {
    hide Exec, EncAll, RunSeq;
    var load, store := LoadReg(Rax, XReg(30)), MovStore(Rax, X64, OnRdi, PC_OFFSET);
    LoadRegRun(Rax, XReg(30), s);
    RunThen(load, store, s);
    var s1 := RunSeq(load, s).cpu;
    assert s1.rax == Get(s1, Rax);
    assert load + [store, RetI] == (load + [store]) + [RetI];
    ExecAndReturn(bytes, at, load + [store], s, fuel);
  }

  /** A conditional exit goes to its target or to the fall-through address. */
  lemma ConditionalExec(inst: IRInst, next: u64, bytes: seq<u8>, at: nat, s: Cpu, fuel: nat)
    requires inst.a.GuestPc? && InstInRange(inst)
    requires var lowered := LowerConditional(inst.b, inst.c, inst.a.target, next);
             lowered.Ok? && PlacedAt(bytes, at, EncAll(lowered.value)) && fuel >= |lowered.value|
    ensures Taken(inst, s.regs).Some?
    ensures Observe(Exec(bytes, at, s, fuel)) ==
            Goto(SetPc(View(s), if Taken(inst, s.regs).value then inst.a.target else next))
  {
    hide Exec, EncAll, RunSeq, Taken, AllStraight, SetPcRet, LowerTest, FlagOf;
    var t := LowerTest(inst.b, inst.c).value;
    var jump := Jcc(t.skip, SET_PC_RET_LEN);
    var taken, fall := SetPcRet(inst.a.target), SetPcRet(next);
    TestRun(inst.b, inst.c, s, inst);
    var s1 := RunSeq(t.code, s).cpu;
    SplitConditional(bytes, at, t.code, jump, taken, fall);
    SetPcRetLength(inst.a.target);
    SetPcRetCount(inst.a.target);
    SetPcRetCount(next);
    ExecSeq(bytes, at, t.code, s, fuel);
    var at1, fuel1 := at + |EncAll(t.code)|, fuel - |t.code|;
    ExecJump(bytes, at1, t.skip, SET_PC_RET_LEN, s1, fuel1);
    if Taken(inst, s.regs).value {
      SetPcRetExec(bytes, at1 + 2, inst.a.target, s1, fuel1 - 1);
    } else {
      SetPcRetExec(bytes, at1 + 20, next, s1, fuel1 - 1);
    }
  }

  lemma SetPcRetCount(pc: u64)
    ensures |SetPcRet(pc)| == 3
  {
  }

  lemma SplitConditional(bytes: seq<u8>, at: nat, test: seq<Instr>, jump: Instr, taken: seq<Instr>, fall: seq<Instr>)
    requires PlacedAt(bytes, at, EncAll(test + [jump] + taken + fall)) && jump.Jcc?
    ensures var at1 := at + |EncAll(test)|;
            && PlacedAt(bytes, at, EncAll(test)) && PlacedAt(bytes, at1, Enc(jump))
            && PlacedAt(bytes, at1 + 2, EncAll(taken))
            && PlacedAt(bytes, at1 + 2 + |EncAll(taken)|, EncAll(fall))
  {
    hide EncAll, PlacedAt, Enc;
    JumpLength(jump);
    EncAllConcat(test + [jump] + taken, fall);
    EncAllConcat(test + [jump], taken);
    EncAllSnoc(test, jump);
    PlacedSplit(bytes, at, EncAll(test) + Enc(jump) + EncAll(taken), EncAll(fall));
    PlacedSplit(bytes, at, EncAll(test) + Enc(jump), EncAll(taken));
    PlacedSplit(bytes, at, EncAll(test), Enc(jump));
  }

  lemma JumpLength(i: Instr)
    requires i.Jcc?
    ensures |Enc(i)| == 2
  {
  }

  lemma ExitExec(inst: IRInst, pc: u64, bytes: seq<u8>, at: nat, s: Cpu, fuel: nat)
    requires EndsBlock(inst.opcode) && InstInRange(inst)
    requires var lowered := LowerExit(inst, AddPc(pc, 4));
             lowered.Ok? && PlacedAt(bytes, at, EncAll(lowered.value)) && fuel >= |lowered.value|
    ensures Observe(Exec(bytes, at, s, fuel)) == ExecInst(inst, pc, View(s))
  {
    hide Exec, EncAll, PlacedAt, LowerConditional, Taken, Observe;
    if inst.opcode == Branch {
      SetPcRetExec(bytes, at, inst.a.target, s, fuel);
    } else if inst.opcode == BranchCond {
      ConditionalExec(inst, AddPc(pc, 4), bytes, at, s, fuel);
    } else {
      ReturnExec(bytes, at, s, fuel);
    }
  }

  // ----- blocks --------------------------------------------------------------------

  lemma {:induction false} BlockExec(insts: seq<IRInst>, pc: u64, endPc: u64, bytes: seq<u8>, at: nat, s: Cpu, fuel: nat)
    requires AllWellFormed(insts) && endPc == AddPc(pc, 4 * |insts|)
    requires var lowered := Lower(insts, pc, endPc);
             lowered.Ok? && PlacedAt(bytes, at, EncAll(lowered.value)) && fuel >= |lowered.value|
    ensures Observe(Exec(bytes, at, s, fuel)) == RunBlock(insts, pc, View(s))
    decreases |insts|
  {
    hide Exec, EncAll, PlacedAt, SetPcRet, LowerStraight, LowerExit, ExecInst, RunSeq, AllStraight, WellFormed;
    if insts == [] {
      SetPcRetCount(endPc);
      SetPcRetExec(bytes, at, endPc, s, fuel);
    } else if EndsBlock(insts[0].opcode) {
      assert WellFormed(insts[0]);
      ExitRuns(insts[0], pc, bytes, at, s, fuel);
    } else {
      assert WellFormed(insts[0]);
      BlockStep(insts, pc, endPc, bytes, at, s, fuel);
    }
  }

  lemma ExitRuns(inst: IRInst, pc: u64, bytes: seq<u8>, at: nat, s: Cpu, fuel: nat)
    requires EndsBlock(inst.opcode) && WellFormed(inst)
    requires var lowered := LowerExit(inst, AddPc(pc, 4));
             lowered.Ok? && PlacedAt(bytes, at, EncAll(lowered.value)) && fuel >= |lowered.value|
    ensures Observe(Exec(bytes, at, s, fuel)) == ExecInst(inst, pc, View(s)) && !ExecInst(inst, pc, View(s)).Fall?
  {
    hide Exec, EncAll, PlacedAt, LowerExit, Taken, Observe;
    ExitExec(inst, pc, bytes, at, s, fuel);
  }

  lemma {:induction false} BlockStep(insts: seq<IRInst>, pc: u64, endPc: u64, bytes: seq<u8>, at: nat, s: Cpu, fuel: nat)
    requires insts != [] && !EndsBlock(insts[0].opcode)
    requires AllWellFormed(insts) && endPc == AddPc(pc, 4 * |insts|)
    requires var lowered := Lower(insts, pc, endPc);
             lowered.Ok? && PlacedAt(bytes, at, EncAll(lowered.value)) && fuel >= |lowered.value|
    ensures Observe(Exec(bytes, at, s, fuel)) == RunBlock(insts, pc, View(s))
    decreases |insts|, 0
  {
    hide Exec, EncAll, PlacedAt, SetPcRet, LowerStraight, LowerExit, ExecInst, RunSeq, AllStraight, WellFormed;
    var code, rest := LowerStraight(insts[0]).value, Lower(insts[1..], AddPc(pc, 4), endPc).value;
    EncAllConcat(code, rest);
    PlacedSplit(bytes, at, EncAll(code), EncAll(rest));
    assert WellFormed(insts[0]);
    StraightRun(insts[0], pc, s);
    ExecSeq(bytes, at, code, s, fuel);
    match RunSeq(code, s)
    case Next(s') =>
      AddPcTwice(pc, 4, 4 * |insts[1..]|);
      BlockExec(insts[1..], AddPc(pc, 4), endPc, bytes, at + |EncAll(code)|, s', fuel - |code|);
    case _ =>
  }

  /** A block whose byte span is four bytes per instruction: what `Block.Push` builds. */
  predicate SpansItsWords(insts: seq<IRInst>, byteLen: u64) {
    4 * |insts| < P64 && byteLen == ByteSpan(|insts|)
  }

  /** Codegen correctness.  From any scratch registers and flags, running the bytes
      of an accepted block from offset 0 returns with exactly the registers, NZCV,
      pc, padding and memory of the IR block, or faults exactly when it does, and
      needs no more steps than there are bytes. */
  lemma CodegenCorrect(guestPc: u64, insts: seq<IRInst>, byteLen: u64, s: Cpu, fuel: nat)
    requires AllWellFormed(insts) && SpansItsWords(insts, byteLen)
    requires LowerBlock(guestPc, insts, byteLen).Ok?
    requires fuel >= |EncAll(LowerBlock(guestPc, insts, byteLen).value)|
    ensures Observe(Exec(EncAll(LowerBlock(guestPc, insts, byteLen).value), 0, s, fuel))
            == RunBlock(insts, guestPc, View(s))
  {
    hide Exec, EncAll, Lower, RunBlock, AllWellFormed;
    var code := LowerBlock(guestPc, insts, byteLen).value;
    var bytes := EncAll(code);
    EncAllLength(code);
    assert bytes[0..0 + |bytes|] == bytes;
    assert PlacedAt(bytes, 0, bytes);
    assert AddPc(guestPc, 4 * 0) == guestPc;
    BlockExec(insts, guestPc, AddPc(guestPc, 4 * |insts|), bytes, 0, s, fuel);
  }
}
