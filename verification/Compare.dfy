/** Comparisons: SUBS followed by a conditional branch decides integer relations. */
module Compare {
  import opened Words
  import opened Ir
  import opened Arm
  import opened X86
  import opened X86Props
  import opened Codegen
  import opened CodegenProof
  import BlockProof

  /** The relation that a condition names after comparing `x` with `y`. */
  predicate Relation(cond: nat, w: RegWidth, x: u64, y: u64)
    requires cond <= 14
  {
    var sx, sy := Signed(w, x), Signed(w, y);
    var difference, half := sx - sy, Modulus(w) / 2;
    var overflow := difference < -half || difference >= half;
    match cond
    case 0 => x == y     // EQ
    case 1 => x != y     // NE
    case 2 => x >= y     // HS
    case 3 => x < y      // LO
    case 4 => (difference < 0) != overflow  // MI: overflow flips the sign
    case 5 => (difference < 0) == overflow  // PL
    case 6 => overflow   // VS
    case 7 => !overflow  // VC
    case 8 => x > y      // HI
    case 9 => x <= y     // LS
    case 10 => sx >= sy  // GE
    case 11 => sx < sy   // LT
    case 12 => sx > sy   // GT
    case 13 => sx <= sy  // LE
    case _ => true       // AL
  }

  /** The flags of a subtraction decide the unsigned and signed order of its operands, and
      the sign and signed overflow of their difference. */
  lemma ConditionAfterSub(cond: nat, w: RegWidth, x: u64, y: u64)
    requires cond <= 14
    requires x < Modulus(w) && y < Modulus(w)
    ensures ConditionHolds(cond, Arith(Sub, w, x, y).1) <==> Relation(cond, w, x, y)
  {
    hide ConditionHolds, Relation;
    SubDecides(w, x, y);
    DecidedConditions(cond, w, x, y, Arith(Sub, w, x, y).1);
  }

  ghost predicate Decides(f: Nzcv, w: RegWidth, x: u64, y: u64) {
    && (f.z <==> x == y) && (f.c <==> x >= y)
    && (f.n == f.v <==> Signed(w, x) >= Signed(w, y))
    && (f.v <==> SignedOverflow(w, Signed(w, x) - Signed(w, y)))
  }

  lemma SubDecides(w: RegWidth, x: u64, y: u64)
    requires x < Modulus(w) && y < Modulus(w)
    ensures Decides(Arith(Sub, w, x, y).1, w, x, y)
  {
    hide Arith, AddWithCarry;
    var f := AddWithCarry(w, x, Complement(w, y), true).1;
    assert Arith(Sub, w, x, y).1 == f by { SubIsAddition(w, x, y); }
    SubFlags(w, x, y);
    SubWrap(Modulus(w), x, y);
  }

  lemma SubIsAddition(w: RegWidth, x: u64, y: u64)
    requires x < Modulus(w) && y < Modulus(w)
    ensures Arith(Sub, w, x, y) == AddWithCarry(w, x, Complement(w, y), true)
  {
    hide AddWithCarry;
  }

  lemma DecidedConditions(cond: nat, w: RegWidth, x: u64, y: u64, f: Nzcv)
    requires cond <= 14
    requires x < Modulus(w) && y < Modulus(w) && Decides(f, w, x, y)
    ensures ConditionHolds(cond, f) <==> Relation(cond, w, x, y)
  {
  }

  /** `subs d, l, r; b.cond target` at address `pc`. */
  function CompareBlock(d: GuestReg, l: GuestReg, r: GuestReg, cond: u64, target: u64): seq<IRInst> {
    [IRInst(Sub, FLAG_WRITES_NZCV, Reg(d), Reg(l), Reg(r)),
     IRInst(BranchCond, 0, GuestPc(target), Imm(cond), NoOperand)]
  }

  /** Registers of one width, of which the destination may be the zero register or an operand. */
  predicate Comparable(w: RegWidth, d: GuestReg, l: GuestReg, r: GuestReg) {
    InRange(d) && InRange(l) && InRange(r) && d.width == l.width == r.width == w
  }

  /** Everything but NZCV and pc. */
  function Untested(g: Regs): Regs {
    g.(nzcv := 0, pc := 0)
  }

  /** The guest went to the target exactly when the relation holds between the operands as
      they were, and otherwise differs only by the difference in the destination. */
  ghost predicate Compared(cond: nat, w: RegWidth, d: GuestReg, l: GuestReg, r: GuestReg,
                           target: u64, pc: u64, m: Machine, out: Flow)
    requires cond <= 14
    requires Comparable(w, d, l, r)
  {
    var x, y := Read(m.regs, l), Read(m.regs, r);
    && out.Goto? && out.jump.mem == m.mem
    && out.jump.regs.pc == (if Relation(cond, w, x, y) then target else AddPc(pc, 8))
    && Untested(out.jump.regs) == Untested(Write(m.regs, d, (x - y) % Modulus(w)))
  }

  /** The emitted bytes of a compare-and-branch are accepted and, run on any guest
      state, go to the target exactly when the named relation holds. */
  lemma CompareAndBranch(w: RegWidth, d: GuestReg, l: GuestReg, r: GuestReg, cond: u64, target: u64, pc: u64, s: Cpu)
    requires cond <= 14 && Comparable(w, d, l, r)
    ensures var lowered := LowerBlock(pc, CompareBlock(d, l, r, cond, target), 8);
            lowered.Ok? &&
            var bytes := EncAll(lowered.value);
            Compared(cond, w, d, l, r, target, pc, View(s), Observe(Exec(bytes, 0, s, |bytes|)))
  {
    hide Exec, EncAll, LowerBlock, Observe, RunBlock, Compared, Comparable;
    var insts := CompareBlock(d, l, r, cond, target);
    CompareAccepted(d, l, r, cond, target, pc);
    CompareWellFormed(w, d, l, r, cond, target);
    BlockProof.CodegenCorrect(pc, insts, 8, s, |EncAll(LowerBlock(pc, insts, 8).value)|);
    CompareRuns(w, d, l, r, cond, target, pc, View(s));
  }

  lemma CompareAccepted(d: GuestReg, l: GuestReg, r: GuestReg, cond: u64, target: u64, pc: u64)
    requires cond <= 15
    ensures LowerBlock(pc, CompareBlock(d, l, r, cond, target), 8).Ok?
  {
    hide LoadReg, StoreReg, Materialize, ConditionTable, SetPcRet;
    var insts := CompareBlock(d, l, r, cond, target);
    assert insts[1..] == [insts[1]];
    assert LowerStraight(insts[0]).Ok?;
    assert LowerExit(insts[1], AddPc(AddPc(pc, 4), 4)).Ok?;
    assert Lower([insts[1]], AddPc(pc, 4), AddPc(pc, 8)).Ok?;
  }

  lemma CompareWellFormed(w: RegWidth, d: GuestReg, l: GuestReg, r: GuestReg, cond: u64, target: u64)
    requires Comparable(w, d, l, r)
    ensures AllWellFormed(CompareBlock(d, l, r, cond, target)) && AllInRange(CompareBlock(d, l, r, cond, target))
    ensures BlockProof.SpansItsWords(CompareBlock(d, l, r, cond, target), 8)
  {
  }

  lemma SubtractExec(w: RegWidth, d: GuestReg, l: GuestReg, r: GuestReg, pc: u64, m: Machine)
    requires Comparable(w, d, l, r)
    ensures var x, y := Read(m.regs, l), Read(m.regs, r);
            x < Modulus(w) && y < Modulus(w) &&
            var (v, f) := Arith(Sub, w, x, y);
            var sub := IRInst(Sub, FLAG_WRITES_NZCV, Reg(d), Reg(l), Reg(r));
            ExecInst(sub, pc, m) == Fall(Machine(Write(m.regs, d, v).(nzcv := Pack(f)), m.mem))
  {
    hide Arith, Pack, Read, Write;
    ReadBound(m.regs, l);
    ReadBound(m.regs, r);
  }

  lemma BranchExec(cond: u64, target: u64, pc: u64, m: Machine)
    requires cond < 15
    ensures ExecInst(IRInst(BranchCond, 0, GuestPc(target), Imm(cond), NoOperand), pc, m) ==
            Goto(SetPc(m, if ConditionHolds(cond, Unpack(m.regs.nzcv)) then target else AddPc(pc, 4)))
  {
    hide ConditionHolds, Unpack;
  }

  lemma RunPair(i: IRInst, j: IRInst, pc: u64, m: Machine)
    requires InstInRange(i) && InstInRange(j) && ExecInst(i, pc, m).Fall? && EndsBlock(j.opcode)
    ensures AllInRange([i, j]) && RunBlock([i, j], pc, m) == ExecInst(j, AddPc(pc, 4), ExecInst(i, pc, m).next)
  {
    hide ExecInst;
    var m' := ExecInst(i, pc, m).next;
    assert [i, j][1..] == [j] && [j][1..] == [];
    assert !ExecInst(j, AddPc(pc, 4), m').Fall? by { ExitNeverFalls(j, AddPc(pc, 4), m'); }
    assert RunBlock([j], AddPc(pc, 4), m') == ExecInst(j, AddPc(pc, 4), m');
  }

  lemma CompareRuns(w: RegWidth, d: GuestReg, l: GuestReg, r: GuestReg, cond: u64, target: u64, pc: u64, m: Machine)
    requires cond <= 14 && Comparable(w, d, l, r)
    ensures var insts := CompareBlock(d, l, r, cond, target);
            AllInRange(insts) && Compared(cond, w, d, l, r, target, pc, m, RunBlock(insts, pc, m))
  {
    hide Relation, ConditionHolds, Arith, Pack, Unpack, Read, ExecInst, RunBlock, AddWithCarry, Signed, AddPc, Write;
    var insts := CompareBlock(d, l, r, cond, target);
    SubtractExec(w, d, l, r, pc, m);
    var x, y := Read(m.regs, l), Read(m.regs, r);
    var (v, f) := Arith(Sub, w, x, y);
    var m' := Machine(Write(m.regs, d, v).(nzcv := Pack(f)), m.mem);
    BranchExec(cond, target, AddPc(pc, 4), m');
    RunPair(insts[0], insts[1], pc, m);
    UnpackPack(f);
    ConditionAfterSub(cond, w, x, y);
    AddPcTwice(pc, 4, 4);
    SubtractValue(w, x, y);
  }

  lemma SubtractValue(w: RegWidth, x: u64, y: u64)
    requires x < Modulus(w) && y < Modulus(w)
    ensures Arith(Sub, w, x, y).0 == (x - y) % Modulus(w)
  {
    hide Signed;
    SubWrap(Modulus(w), x, y);
    assert x + Complement(w, y) + 1 == x - y + Modulus(w);
  }

  // ----- moves that narrow ---------------------------------------------------------

  /** A 64-bit register moved into a W register. */
  function Narrowing(dst: GuestReg, src: GuestReg): IRInst {
    IRInst(Mov, 0, Reg(dst), Reg(src), NoOperand)
  }

  /** A 64-bit register moved into a W register: the code stores all 64 bits, so it is
      right exactly when the upper half of the source happens to be zero. */
  lemma NarrowingMove(dst: GuestReg, src: GuestReg, pc: u64, s: Cpu)
    requires InRange(dst) && InRange(src) && dst.kind != Zero && src.kind != Zero
    requires dst.width == W32 && src.width == X64
    ensures var inst := Narrowing(dst, src);
            && !WellFormed(inst) && LowerStraight(inst).Ok?
            && (Matches(RunSeq(LowerStraight(inst).value, s), ExecInst(inst, pc, View(s)))
                <==> Read(s.regs, src) < P32)
  {
    hide RunSeq, LowerStraight, ExecInst, StepInstr, Read, Write;
    NarrowingRun(dst, src, s);
    NarrowingExec(dst, src, pc, View(s));
    WritesDiffer(s.regs, dst, Read(s.regs, src));
  }

  lemma NarrowingRun(dst: GuestReg, src: GuestReg, s: Cpu)
    requires InRange(dst) && InRange(src) && dst.kind != Zero && src.kind != Zero && src.width == X64
    ensures var code := LowerStraight(Narrowing(dst, src));
            code.Ok? && var out := RunSeq(code.value, s);
            out.Next? && View(out.cpu) == Machine(Write(s.regs, dst.(width := X64), Read(s.regs, src)), s.mem)
  {
    hide RunSeq, LoadReg, StoreReg, StepInstr, Write, Read;
    var load, store := LoadReg(Rax, src), StoreReg(dst, Rax);
    LoadRegRun(Rax, src, s);
    var s1 := RunSeq(load, s).cpu;
    assert s1.rax == Get(s1, Rax);
    StoreRegRun(dst.(width := X64), Rax, s1);
    SameOffset(dst);
    RunSeqConcat(load, store, s);
  }

  lemma NarrowingExec(dst: GuestReg, src: GuestReg, pc: u64, m: Machine)
    requires InRange(dst) && InRange(src) && dst.kind != Zero
    requires dst.width == W32 && src.width == X64
    ensures !WellFormed(Narrowing(dst, src))
    ensures ExecInst(Narrowing(dst, src), pc, m) == Fall(Machine(Write(m.regs, dst, Read(m.regs, src)), m.mem))
  {
    hide Read;
  }

  lemma SameOffset(dst: GuestReg)
    requires dst.kind != Zero
    ensures StoreReg(dst, Rax) == StoreReg(dst.(width := X64), Rax)
  {
  }

  lemma WritesDiffer(g: Regs, dst: GuestReg, v: u64)
    requires InRange(dst) && dst.kind != Zero && dst.width == W32
    ensures Write(g, dst.(width := X64), v) == Write(g, dst, v) <==> v < P32
  {
    if dst.kind == General {
      assert Write(g, dst, v).gpr[dst.num] == v % P32;
      assert Write(g, dst.(width := X64), v).gpr[dst.num] == v;
    }
  }
}
