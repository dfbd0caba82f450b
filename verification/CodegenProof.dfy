/** Emitted code does to the guest exactly what the IR says.  One lemma per piece
    of lowered code, then one per instruction, then whole blocks as raw bytes. */
module CodegenProof {
  import opened Words
  import opened Ir
  import opened Arm
  import opened State
  import opened X86
  import opened X86Props
  import opened Isel
  import opened Codegen
  import Shifts

  function View(s: Cpu): Machine {
    Machine(s.regs, s.mem)
  }

  /** `s'` differs from `s` in register `reg` and in the flags only. */
  ghost predicate OnlyReg(s: Cpu, s': Cpu, reg: Gpr) {
    View(s') == View(s) && forall r :: r != reg ==> Get(s', r) == Get(s, r)
  }

  // ----- operands ------------------------------------------------------------------

  lemma ClearRun(d: Gpr, w: RegWidth, s: Cpu)
    ensures var out := StepInstr(AluReg(AluXor, w, d, d), s);
            out.Next? && OnlyReg(s, out.cpu, d) && Get(out.cpu, d) == 0
  {
    hide Bitwise;
    BitwiseZero(Mask(Get(s, d), w));
  }

  lemma StateLoadRun(reg: Gpr, guest: GuestReg, s: Cpu)
    requires InRange(guest) && guest.kind != Zero
    ensures var out := StepInstr(MovLoad(reg, guest.width, OnRdi, RegOffset(guest)), s);
            out.Next? && OnlyReg(s, out.cpu, reg) && Get(out.cpu, reg) == Read(s.regs, guest)
  {
    hide LoadState, RegOffset, Read;
    RegOffsetAddressesRegister(s.regs, guest, 0);
  }

  lemma LoadRegRun(reg: Gpr, guest: GuestReg, s: Cpu)
    requires InRange(guest)
    ensures AllStraight(LoadReg(reg, guest))
    ensures var out := RunSeq(LoadReg(reg, guest), s);
            out.Next? && OnlyReg(s, out.cpu, reg) && Get(out.cpu, reg) == Read(s.regs, guest)
  {
    hide RunSeq, StepInstr, OnlyReg, Get, RegOffset;
    RunOne(LoadReg(reg, guest)[0], s);
    if guest.kind == Zero {
      ClearRun(reg, guest.width, s);
    } else {
      StateLoadRun(reg, guest, s);
    }
  }

  lemma RunOne(i: Instr, s: Cpu)
    ensures RunSeq([i], s) == StepInstr(i, s)
  {
    hide StepInstr;
    assert [i][1..] == [];
    match StepInstr(i, s)
    case Next(s') => assert RunSeq([], s') == Next(s');
    case _ =>
  }

  function Then(first: Step, i: Instr): Step {
    match first
    case Next(s) => StepInstr(i, s)
    case _ => first
  }

  /** Running `a` and then the single instruction `i`. */
  lemma RunThen(a: seq<Instr>, i: Instr, s: Cpu)
    ensures RunSeq(a + [i], s) == Then(RunSeq(a, s), i)
  {
    hide StepInstr, RunSeq;
    RunSeqConcat(a, [i], s);
    match RunSeq(a, s)
    case Next(s') => RunOne(i, s');
    case _ =>
  }

  lemma ShiftByRun(reg: Gpr, kind: ShiftKind, n: u8, w: RegWidth, s: Cpu)
    requires n < Bits(w) && Get(s, reg) < Modulus(w)
    ensures AllStraight(ShiftBy(reg, kind, n, w))
    ensures var out := RunSeq(ShiftBy(reg, kind, n, w), s);
            out.Next? && OnlyReg(s, out.cpu, reg) && Get(out.cpu, reg) == ShiftValue(kind, w, Get(s, reg), n)
  {
    hide ShiftMany, ShiftValue;
    var v := Get(s, reg);
    Shifts.ShiftManyIsShift(kind, w, v, n);
    if n == 0 {
      NoShift(kind, w, v);
    } else {
      RunOne(ShiftImm(kind, w, reg, n), s);
    }
  }

  lemma NoShift(kind: ShiftKind, w: RegWidth, v: u64)
    requires v < Modulus(w)
    ensures ShiftMany(kind, w, v, 0) == v
  {
  }

  /** Loading an operand leaves its value in the register. */
  lemma LoadOperandRun(op: Operand, reg: Gpr, w: RegWidth, s: Cpu)
    requires OperandInRange(op) && OperandFits(op, w) && LoadOperand(op, reg, w).Ok?
    ensures AllStraight(LoadOperand(op, reg, w).value)
    ensures var out := RunSeq(LoadOperand(op, reg, w).value, s);
            out.Next? && OnlyReg(s, out.cpu, reg) && Eval(op, w, s.regs) == Some(Get(out.cpu, reg))
  {
    hide RunSeq, StepInstr, ShiftValue, Straight;
    match op
    case Reg(g) =>
      LoadRegRun(reg, g, s);
      ReadBound(s.regs, g);
    case ShiftedReg(g, kind, n) =>
      LoadRegRun(reg, g, s);
      ReadBound(s.regs, g);
      var s' := RunSeq(LoadReg(reg, g), s).cpu;
      ShiftByRun(reg, kind, n, w, s');
      RunSeqConcat(LoadReg(reg, g), ShiftBy(reg, kind, n, w), s);
    case _ =>
      LoadConstantRun(op, reg, w, s);
  }

  lemma MovImmRun(reg: Gpr, w: RegWidth, v: u64, s: Cpu)
    requires v < Modulus(w)
    ensures AllStraight([MovImm(reg, w, v)])
    ensures var out := RunSeq([MovImm(reg, w, v)], s);
            out.Next? && OnlyReg(s, out.cpu, reg) && Get(out.cpu, reg) == v
  {
    hide RunSeq;
    RunOne(MovImm(reg, w, v), s);
  }

  lemma MaskedWord(v: nat, w: RegWidth)
    ensures Mask(v % P64, w) == Mask(v, w) < Modulus(w)
  {
    ModMod(v, Modulus(w), P64 / Modulus(w));
  }

  lemma LoadConstantRun(op: Operand, reg: Gpr, w: RegWidth, s: Cpu)
    requires op.Imm? || op.ShiftedImm?
    requires OperandFits(op, w)
    ensures AllStraight(LoadOperand(op, reg, w).value)
    ensures var out := RunSeq(LoadOperand(op, reg, w).value, s);
            out.Next? && OnlyReg(s, out.cpu, reg) && Eval(op, w, s.regs) == Some(Get(out.cpu, reg))
  {
    hide RunSeq, OnlyReg, AllStraight, Mask, Scale;
    if op.Imm? {
      MaskedWord(op.imm, w);
      MovImmRun(reg, w, Mask(op.imm, w), s);
    } else {
      var v := Scale(op.base16, op.immShift);
      MaskedWord(v, w);
      MovImmRun(reg, w, Mask(v % P64, w), s);
    }
  }

  lemma ReadBound(g: Regs, r: GuestReg)
    requires InRange(r)
    ensures Read(g, r) < Modulus(r.width)
    ensures forall w :: r.width == W32 || w == X64 ==> Mask(Read(g, r), w) == Read(g, r)
  {
  }

  lemma EvalBound(op: Operand, w: RegWidth, g: Regs)
    requires OperandInRange(op) && Eval(op, w, g).Some?
    ensures Eval(op, w, g).value < Modulus(w)
  {
  }

  lemma StoreRegRun(guest: GuestReg, reg: Gpr, s: Cpu)
    requires InRange(guest) && Get(s, reg) < Modulus(guest.width)
    ensures AllStraight(StoreReg(guest, reg))
    ensures RunSeq(StoreReg(guest, reg), s) == Next(s.(regs := Write(s.regs, guest, Get(s, reg))))
  {
    hide StoreState, Write, RunSeq, RegOffset;
    WriteFits(s.regs, guest, Get(s, reg));
    if guest.kind != Zero {
      RegOffsetAddressesRegister(s.regs, guest, Get(s, reg));
      RunOne(MovStore(reg, X64, OnRdi, RegOffset(guest)), s);
    } else {
      assert RunSeq([], s) == Next(s) by { RunNothing(s); }
    }
  }

  lemma RunNothing(s: Cpu)
    ensures RunSeq([], s) == Next(s)
  {
  }

  /** A value that fits the register is written as it is. */
  lemma WriteFits(g: Regs, r: GuestReg, v: u64)
    requires InRange(r) && v < Modulus(r.width)
    ensures Write(g, r, v) == if r.kind == Zero then g else Write(g, r.(width := X64), v)
  {
    assert Mask(v, r.width) == v == Mask(v, X64);
  }

  // ----- arithmetic and flags ------------------------------------------------------

  /** How processor flags correspond to NZCV after an operation. */
  predicate FlagsAgree(op: Opcode, f: Flags, a: Nzcv) {
    && f.sf == Some(a.n) && f.zf == Some(a.z)
    && (op == Add ==> f.cf == Some(a.c) && f.of == Some(a.v))
    && (op == Sub ==> f.cf == Some(!a.c) && f.of == Some(a.v))
    && (op == And ==> !a.c && !a.v)
  }

  /** x86 carry is Arm carry for additions and its complement for subtractions. */
  lemma AluMatchesArith(op: Opcode, w: RegWidth, x: u64, y: u64)
    requires IsBinop(op) && x < Modulus(w) && y < Modulus(w)
    ensures AluValue(AluFor(op), w, x, y).0 == Arith(op, w, x, y).0
    ensures FlagsAgree(op, AluValue(AluFor(op), w, x, y).1, Arith(op, w, x, y).1)
  {
    if op == Add {
      AddFlags(w, x, y);
    } else if op == Sub {
      SubFlags(w, x, y);
    } else {
      LogicFlags(op, w, x, y);
    }
  }

  lemma AddFlags(w: RegWidth, x: u64, y: u64)
    requires x < Modulus(w) && y < Modulus(w)
    ensures var (r, f) := AluValue(AluAdd, w, x, y);
            var (r', a) := AddWithCarry(w, x, y, false);
            r == r' && f == Flags(Some(a.c), Some(a.z), Some(a.n), Some(a.v))
  {
    hide Signed, SignedOverflow;
    var m := Modulus(w);
    var r := (x + y) % m;
    AddWrap(m, x, y);
    SignBit(w, r);
    SumInWindow(w, x, y, 0);
    WrapDetects(w, r, Signed(w, x) + Signed(w, y));
  }

  /** The sign flag is the top bit. */
  lemma SignBit(w: RegWidth, r: u64)
    requires r < Modulus(w)
    ensures Signed(w, r) < 0 <==> r >= Modulus(w) / 2
  {
  }

  /** The exact signed sum and the wrapped unsigned sum differ by a small multiple of the modulus. */
  lemma SumInWindow(w: RegWidth, x: u64, y: u64, carry: nat)
    requires x < Modulus(w) && y < Modulus(w) && carry <= 1
    ensures var m := Modulus(w);
            var r := (x + y + carry) % m;
            var exact := Signed(w, x) + Signed(w, y) + carry;
            exact == r || exact == r - m || exact == r + m || exact == r - 2 * m
  {
    var m := Modulus(w);
    var q := if x + y + carry < m then 0 else 1;
    DivModUnique(x + y + carry, m, q, x + y + carry - q * m);
  }

  lemma AddWrap(m: nat, x: nat, y: nat)
    requires x < m && y < m
    ensures (x + y) % m == if x + y < m then x + y else x + y - m
  {
    DivModUnique(x + y, m, if x + y < m then 0 else 1, if x + y < m then x + y else x + y - m);
  }

  lemma SubFlags(w: RegWidth, x: u64, y: u64)
    requires x < Modulus(w) && y < Modulus(w)
    ensures var (r, f) := AluValue(AluSub, w, x, y);
            var (r', a) := AddWithCarry(w, x, Complement(w, y), true);
            r == r' && f == Flags(Some(!a.c), Some(a.z), Some(a.n), Some(a.v))
  {
    hide Signed, SignedOverflow;
    var m := Modulus(w);
    var r := (x - y) % m;
    SubWrap(m, x, y);
    assert x + Complement(w, y) + 1 == x - y + m;
    SignedComplement(w, y);
    SignBit(w, r);
    SumInWindow(w, x, Complement(w, y), 1);
    WrapDetects(w, r, Signed(w, x) - Signed(w, y));
  }

  lemma SignedComplement(w: RegWidth, y: u64)
    requires y < Modulus(w)
    ensures Signed(w, Complement(w, y)) == -Signed(w, y) - 1
  {
  }

  lemma SubWrap(m: nat, x: nat, y: nat)
    requires x < m && y < m
    ensures (x - y) % m == (x - y + m) % m == if x < y then x - y + m else x - y
  {
    DivModUnique(x - y, m, if x < y then -1 else 0, if x < y then x - y + m else x - y);
    DivModUnique(x - y + m, m, if x < y then 0 else 1, if x < y then x - y + m else x - y);
  }

  /** A signed result fits exactly when the wrapped word reads back as it. */
  lemma WrapDetects(w: RegWidth, r: u64, exact: int)
    requires r < Modulus(w)
    requires exact == r || exact == r - Modulus(w) || exact == r + Modulus(w) || exact == r - 2 * Modulus(w)
    ensures SignedOverflow(w, exact) <==> Signed(w, r) != exact
  {
  }

  lemma LogicFlags(op: Opcode, w: RegWidth, x: u64, y: u64)
    requires op == And || op == Orr || op == Eor
    requires x < Modulus(w) && y < Modulus(w)
    ensures AluValue(AluFor(op), w, x, y).0 == Arith(op, w, x, y).0
    ensures FlagsAgree(op, AluValue(AluFor(op), w, x, y).1, Arith(op, w, x, y).1)
  {
    hide Bitwise;
  }

  function BitOf(on: bool): nat {
    if on then 1 else 0
  }

  lemma RunTwo(i: Instr, j: Instr, s: Cpu)
    ensures RunSeq([i, j], s) == Then(StepInstr(i, s), j)
  {
    hide StepInstr;
    assert [i, j] == [i] + [j];
    RunThen([i], j, s);
    RunOne(i, s);
  }

  lemma SetccRun(cc: Cc, d: Gpr, s: Cpu, on: bool)
    requires FlagOf(s.flags, cc) == Some(on)
    ensures var out := StepInstr(Setcc(cc, d), s);
            out.Next? && OnlyReg(s, out.cpu, d) && out.cpu.flags == s.flags && Get(out.cpu, d) % 256 == BitOf(on)
  {
  }

  /** SETcc leaves N, Z, C and V in the low bytes of rdx, rcx, rax and rsi. */
  lemma CaptureRun(op: Opcode, s: Cpu, a: Nzcv)
    requires op == Add || op == Sub || op == And
    requires FlagsAgree(op, s.flags, a)
    ensures AllStraight(CaptureFlags(op))
    ensures var out := RunSeq(CaptureFlags(op), s);
            out.Next? && View(out.cpu) == View(s)
            && out.cpu.rdx % 256 == BitOf(a.n) && out.cpu.rcx % 256 == BitOf(a.z)
            && out.cpu.rax % 256 == BitOf(a.c) && out.cpu.rsi % 256 == BitOf(a.v)
  {
    hide RunSeq, StepInstr;
    SetccRun(Sign, Rdx, s, a.n);
    var s1 := StepInstr(Setcc(Sign, Rdx), s).cpu;
    SetccRun(Equal, Rcx, s1, a.z);
    var s2 := StepInstr(Setcc(Equal, Rcx), s1).cpu;
    var carry, over := CarryAndOverflow(op)[0], CarryAndOverflow(op)[1];
    if op == And {
      ClearRun(Rax, W32, s2);
      ClearRun(Rsi, W32, StepInstr(carry, s2).cpu);
    } else {
      SetccRun(if op == Add then Below else AboveEqual, Rax, s2, a.c);
      SetccRun(Overflow, Rsi, StepInstr(carry, s2).cpu, a.v);
    }
    var s4 := StepInstr(over, StepInstr(carry, s2).cpu).cpu;
    assert s4.rdx == Get(s4, Rdx) == Get(s1, Rdx) && s4.rcx == Get(s4, Rcx) == Get(s2, Rcx);
    assert s4.rax == Get(s4, Rax) && s4.rsi == Get(s4, Rsi);
    RunTwo(Setcc(Sign, Rdx), Setcc(Equal, Rcx), s);
    RunTwo(carry, over, s2);
    assert CarryAndOverflow(op) == [carry, over];
    RunSeqConcat([Setcc(Sign, Rdx), Setcc(Equal, Rcx)], CarryAndOverflow(op), s);
  }

  lemma ShlBit(b: nat, k: nat)
    requires b <= 1 && k < 32
    ensures ShiftMany(Lsl, W32, b, k) == b * Pow2(k)
  {
    hide Pow2;
    Shifts.LslMany(W32, b, k);
    ModulusIsPow2(W32);
    Pow2Mono(k, 31);
    assert Pow2(31) < P32 by { Pow2Values(); }
  }

  /** `movzx r, r; shl r, k`: the low byte, as a bit of weight 2^k. */
  lemma PlaceBit(r: Gpr, k: u8, s: Cpu)
    requires Get(s, r) % 256 <= 1 && 28 <= k <= 31
    ensures var out := RunSeq([Movzx(r, r), ShiftImm(Lsl, W32, r, k)], s);
            out.Next? && OnlyReg(s, out.cpu, r)
            && Get(out.cpu, r) == if Get(s, r) % 256 == 1 then Pow2(k) else 0
  {
    hide ShiftMany, Pow2, RunSeq;
    RunTwo(Movzx(r, r), ShiftImm(Lsl, W32, r, k), s);
    ShlBit(Get(s, r) % 256, k);
  }

  lemma OrValue(x: u64, y: u64)
    requires x < P32 && y < P32
    ensures AluValue(AluOr, W32, x, y).0 == Bitwise(OrOp, x, y)
  {
  }

  /** `or edx, r` */
  lemma MergeBit(r: Gpr, s: Cpu)
    requires r != Rdx && s.rdx < P32 && Get(s, r) < P32
    ensures var out := StepInstr(AluReg(AluOr, W32, Rdx, r), s);
            out.Next? && OnlyReg(s, out.cpu, Rdx) && out.cpu.rdx == Bitwise(OrOp, s.rdx, Get(s, r))
  {
    hide Bitwise, AluValue;
    OrValue(s.rdx, Get(s, r));
  }

  lemma PackNZRun(s: Cpu, n: bool, z: bool)
    requires s.rdx % 256 == BitOf(n) && s.rcx % 256 == BitOf(z)
    ensures AllStraight(PackNZ())
    ensures var out := RunSeq(PackNZ(), s);
            out.Next? && View(out.cpu) == View(s) && out.cpu.rax == s.rax && out.cpu.rsi == s.rsi
            && out.cpu.rdx == BitOf(n) * 0x8000_0000 + BitOf(z) * 0x4000_0000
  {
    hide RunSeq, StepInstr, Pow2, Bitwise;
    Pow2Nibble();
    var a, b := [Movzx(Rdx, Rdx), ShiftImm(Lsl, W32, Rdx, 31)], [Movzx(Rcx, Rcx), ShiftImm(Lsl, W32, Rcx, 30)];
    var i := AluReg(AluOr, W32, Rdx, Rcx);
    assert PackNZ() == (a + b) + [i];
    PlaceBit(Rdx, 31, s);
    var s1 := RunSeq(a, s).cpu;
    PlaceBit(Rcx, 30, s1);
    var s2 := RunSeq(b, s1).cpu;
    assert s2.rdx == Get(s2, Rdx) == Get(s1, Rdx) && s2.rcx == Get(s2, Rcx);
    OrDisjoint(s2.rdx, Get(s2, Rcx), 31);
    MergeBit(Rcx, s2);
    var s3 := StepInstr(i, s2).cpu;
    assert s3.rax == Get(s3, Rax) == Get(s, Rax) && s3.rsi == Get(s3, Rsi) == Get(s, Rsi);
    RunSeqConcat(a, b, s);
    RunThen(a + b, i, s);
  }

  lemma PackCVRun(s: Cpu, c: bool, v: bool)
    requires s.rax % 256 == BitOf(c) && s.rsi % 256 == BitOf(v)
    requires s.rdx < P32 && s.rdx % 0x4000_0000 == 0
    ensures AllStraight(PackCV())
    ensures var out := RunSeq(PackCV(), s);
            out.Next? && View(out.cpu) == View(s)
            && out.cpu.rdx == s.rdx + BitOf(c) * 0x2000_0000 + BitOf(v) * 0x1000_0000
  {
    hide RunSeq, StepInstr, Pow2, Bitwise;
    Pow2Nibble();
    var a, b := [Movzx(Rax, Rax), ShiftImm(Lsl, W32, Rax, 29)], [Movzx(Rsi, Rsi), ShiftImm(Lsl, W32, Rsi, 28)];
    var i, j := AluReg(AluOr, W32, Rdx, Rax), AluReg(AluOr, W32, Rdx, Rsi);
    assert PackCV() == (a + [i]) + (b + [j]);
    PlaceBit(Rax, 29, s);
    var s1 := RunSeq(a, s).cpu;
    assert s1.rdx == Get(s1, Rdx) == s.rdx && s1.rax == Get(s1, Rax);
    OrDisjoint(s1.rdx, Get(s1, Rax), 30);
    MergeBit(Rax, s1);
    var s2 := StepInstr(i, s1).cpu;
    assert Get(s2, Rsi) == s.rsi;
    PlaceBit(Rsi, 28, s2);
    var s3 := RunSeq(b, s2).cpu;
    assert s3.rdx == Get(s3, Rdx) == s2.rdx && s3.rdx % 0x2000_0000 == 0;
    OrDisjoint(s3.rdx, Get(s3, Rsi), 29);
    MergeBit(Rsi, s3);
    RunThen(a, i, s);
    RunThen(b, j, s2);
    RunSeqConcat(a + [i], b + [j], s);
  }

  lemma StoreNzcvRun(s: Cpu)
    requires s.rdx < P32
    ensures StepInstr(MovStore(Rdx, W32, OnRdi, NZCV_OFFSET), s) == Next(s.(regs := s.regs.(nzcv := s.rdx)))
  {
  }

  /** The word stored after a flag-setting operation is exactly N:Z:C:V at bits 31..28. */
  lemma MaterializeRun(op: Opcode, s: Cpu, a: Nzcv)
    requires op == Add || op == Sub || op == And
    requires FlagsAgree(op, s.flags, a)
    ensures AllStraight(Materialize(op))
    ensures var out := RunSeq(Materialize(op), s);
            out.Next? && View(out.cpu) == Machine(s.regs.(nzcv := Pack(a)), s.mem)
  {
    hide RunSeq, StepInstr, CaptureFlags, PackNZ, PackCV, FlagsAgree;
    var store := MovStore(Rdx, W32, OnRdi, NZCV_OFFSET);
    var x, y, z := CaptureFlags(op), PackNZ(), PackCV();
    CaptureRun(op, s, a);
    var s1 := RunSeq(x, s).cpu;
    PackNZRun(s1, a.n, a.z);
    var s2 := RunSeq(y, s1).cpu;
    PackCVRun(s2, a.c, a.v);
    var s3 := RunSeq(z, s2).cpu;
    assert s3.rdx == Pack(a);
    RunSeqConcat(x, y, s);
    RunSeqConcat(x + y, z, s);
    RunThen(x + y + z, store, s);
    StoreNzcvRun(s3);
  }

  // ----- two-operand instructions --------------------------------------------------

  /** The sign-extended 32-bit field carries the immediate's value. */
  lemma CandidateValue(inst: IRInst)
    requires IsImmediateCandidate(inst)
    ensures SignExtend32(inst.c.imm % P32, inst.a.reg.width) == Mask(inst.c.imm, inst.a.reg.width)
  {
    var v := inst.c.imm;
    if inst.a.reg.width == X64 && (inst.opcode == Add || inst.opcode == Sub) {
      AddSubImmediateRange(inst);
      if P64 - P31 <= v {
        DivModUnique(v, P32, P32 - 1, v - (P64 - P32));
      }
    }
  }

  /** What the operation leaves behind: its result in rax and matching flags. */
  ghost predicate Computed(inst: IRInst, s: Cpu, s': Cpu)
    requires InstInRange(inst) && inst.a.Reg?
  {
    var w := inst.a.reg.width;
    && View(s') == View(s)
    && match (Eval(inst.b, w, s.regs), Eval(inst.c, w, s.regs))
       case (Some(x), Some(y)) =>
         var (r, f) := Arith(inst.opcode, w, x, y);
         s'.rax == r && FlagsAgree(inst.opcode, s'.flags, f)
       case _ => false
  }

  lemma AluRegRun(op: Opcode, w: RegWidth, s: Cpu)
    requires IsBinop(op) && s.rax < Modulus(w) && s.rcx < Modulus(w)
    ensures var out := StepInstr(AluReg(AluFor(op), w, Rax, Rcx), s);
            var (r, f) := Arith(op, w, s.rax, s.rcx);
            out.Next? && View(out.cpu) == View(s) && out.cpu.rax == r && FlagsAgree(op, out.cpu.flags, f)
  {
    hide AluValue, Arith, FlagsAgree, AluFor;
    AluMatchesArith(op, w, s.rax, s.rcx);
  }

  lemma AluImmRun(op: Opcode, w: RegWidth, imm: u32, s: Cpu)
    requires IsBinop(op) && s.rax < Modulus(w)
    ensures SignExtend32(imm, w) < Modulus(w)
    ensures var out := StepInstr(AluImm(AluFor(op), w, Rax, imm), s);
            var (r, f) := Arith(op, w, s.rax, SignExtend32(imm, w));
            out.Next? && View(out.cpu) == View(s) && out.cpu.rax == r && FlagsAgree(op, out.cpu.flags, f)
  {
    hide AluValue, Arith, FlagsAgree, AluFor;
    AluMatchesArith(op, w, s.rax, SignExtend32(imm, w));
  }

  lemma BinopCoreRun(inst: IRInst, s: Cpu)
    requires WellFormed(inst) && IsBinop(inst.opcode) && inst.a.Reg?
    requires BinopCore(inst, inst.a.reg.width).Ok?
    ensures var code := BinopCore(inst, inst.a.reg.width).value;
            AllStraight(code) && RunSeq(code, s).Next? && Computed(inst, s, RunSeq(code, s).cpu)
  {
    hide RunSeq, StepInstr, Arith, FlagsAgree, LoadOperand, IsImmediateCandidate, SignExtend32, AluFor;
    var w := inst.a.reg.width;
    if IsImmediateCandidate(inst) && inst.b.Reg? {
      ImmediateCoreRun(inst, s);
    } else {
      var x, y := LoadOperand(inst.b, Rax, w).value, LoadOperand(inst.c, Rcx, w).value;
      var op := AluReg(AluFor(inst.opcode), w, Rax, Rcx);
      LoadOperandRun(inst.b, Rax, w, s);
      EvalBound(inst.b, w, s.regs);
      var s1 := RunSeq(x, s).cpu;
      LoadOperandRun(inst.c, Rcx, w, s1);
      EvalBound(inst.c, w, s.regs);
      var s2 := RunSeq(y, s1).cpu;
      assert s2.rax == Get(s2, Rax) == Get(s1, Rax) && s2.rcx == Get(s2, Rcx);
      AluRegRun(inst.opcode, w, s2);
      RunSeqConcat(x, y, s);
      RunThen(x + y, op, s);
    }
  }

  /** The imm32 form computes what the generic form would, flags included. */
  lemma ImmediateCoreRun(inst: IRInst, s: Cpu)
    requires WellFormed(inst) && IsBinop(inst.opcode) && IsImmediateCandidate(inst) && inst.b.Reg?
    ensures var code := BinopCore(inst, inst.a.reg.width).value;
            AllStraight(code) && RunSeq(code, s).Next? && Computed(inst, s, RunSeq(code, s).cpu)
  {
    hide RunSeq, StepInstr, Arith, FlagsAgree, SignExtend32, AluFor;
    var w := inst.a.reg.width;
    var load := LoadReg(Rax, inst.b.reg);
    LoadRegRun(Rax, inst.b.reg, s);
    ReadBound(s.regs, inst.b.reg);
    var s1 := RunSeq(load, s).cpu;
    assert s1.rax == Get(s1, Rax) == Read(s.regs, inst.b.reg);
    AluImmRun(inst.opcode, w, inst.c.imm % P32, s1);
    CandidateValue(inst);
    RunThen(load, AluImm(AluFor(inst.opcode), w, Rax, inst.c.imm % P32), s);
  }

  // ----- guest memory --------------------------------------------------------------

  lemma GuestAddressRun(base: GuestReg, s: Cpu)
    requires InRange(base)
    ensures AllStraight(GuestAddress(base))
    ensures var out := RunSeq(GuestAddress(base), s);
            out.Next? && View(out.cpu) == View(s) && out.cpu.rcx == s.rcx
            && out.cpu.rax == AddPc(Read(s.regs, base), HOST_BASE)
  {
    hide RunSeq, StepInstr, LoadReg;
    var load := LoadReg(Rax, base);
    var add := [MovImm(Rdx, X64, HOST_BASE), AluReg(AluAdd, X64, Rax, Rdx)];
    LoadRegRun(Rax, base, s);
    var s1 := RunSeq(load, s).cpu;
    assert s1.rcx == Get(s1, Rcx) && s1.rax == Get(s1, Rax);
    AddHostBaseRun(s1);
    RunSeqConcat(load, add, s);
  }

  lemma AddValue(x: u64, y: u64)
    ensures AluValue(AluAdd, X64, x, y).0 == AddPc(x, y)
  {
  }

  lemma AddHostBaseRun(s: Cpu)
    ensures var out := RunSeq([MovImm(Rdx, X64, HOST_BASE), AluReg(AluAdd, X64, Rax, Rdx)], s);
            out.Next? && View(out.cpu) == View(s) && out.cpu.rcx == s.rcx && out.cpu.rax == AddPc(s.rax, HOST_BASE)
  {
    hide RunSeq, AluValue;
    AddValue(s.rax, HOST_BASE);
    RunTwo(MovImm(Rdx, X64, HOST_BASE), AluReg(AluAdd, X64, Rax, Rdx), s);
  }

  /** Adding the host base and the displacement reaches the guest address. */
  lemma HostAddressing(base: u64, offset: i32, s: Cpu)
    requires s.rax == AddPc(base, HOST_BASE)
    ensures EffectiveAddress(s, Disp(offset)) == AddPc(base, offset)
  {
    var d := SignExtend32(Disp(offset), X64);
    assert d == offset || d == offset + P64;
    AddPcTwice(base, HOST_BASE, d);
    AddPcTwice(base, HOST_BASE + d, 0 - HOST_BASE);
    ModAddMultiple(base + offset, 1, P64);
  }

  lemma AddPcTwice(pc: u64, a: int, b: int)
    ensures AddPc(AddPc(pc, a), b) == AddPc(pc, a + b)
  {
    var k := (pc + a) / P64;
    assert pc + a + b == AddPc(pc, a) + b + k * P64;
    ModAddMultiple(AddPc(pc, a) + b, k, P64);
  }

  lemma StoreWordTruncates(mem: Memory, addr: u64, v: u64, w: RegWidth)
    ensures StoreWord(mem, addr, Mask(v, w), w) == StoreWord(mem, addr, v, w)
  {
    ModulusIsPow2(w);
    LeTruncates(v, Bytes(w));
  }

  // ----- instructions --------------------------------------------------------------

  /** The machine did what the flow says. */
  ghost predicate Matches(out: Step, flow: Flow) {
    match flow
    case Fall(m) => out.Next? && View(out.cpu) == m
    case Fault => out.Crash?
    case _ => false
  }

  lemma ArithBound(op: Opcode, w: RegWidth, x: u64, y: u64)
    requires x < Modulus(w) && y < Modulus(w)
    ensures Arith(op, w, x, y).0 < Modulus(w)
  {
  }

  lemma BinopRun(inst: IRInst, pc: u64, s: Cpu)
    requires WellFormed(inst) && IsBinop(inst.opcode) && LowerStraight(inst).Ok?
    ensures AllStraight(LowerStraight(inst).value)
    ensures Matches(RunSeq(LowerStraight(inst).value, s), ExecInst(inst, pc, View(s)))
  {
    hide RunSeq, BinopCore, StoreReg, Arith, FlagsAgree, Materialize, Write;
    assert LowerStraight(inst) == LowerBinop(inst) && ExecInst(inst, pc, View(s)) == ExecBinop(inst, View(s));
    var w, dest := inst.a.reg.width, inst.a.reg;
    var core, store := BinopCore(inst, w).value, StoreReg(dest, Rax);
    BinopCoreRun(inst, s);
    var s1 := RunSeq(core, s).cpu;
    var x, y := Eval(inst.b, w, s.regs).value, Eval(inst.c, w, s.regs).value;
    EvalBound(inst.b, w, s.regs);
    EvalBound(inst.c, w, s.regs);
    ArithBound(inst.opcode, w, x, y);
    StoreRegRun(dest, Rax, s1);
    var s2 := RunSeq(store, s1).cpu;
    RunSeqConcat(core, store, s);
    if inst.WritesNzcv() {
      var f := Arith(inst.opcode, w, x, y).1;
      MaterializeRun(inst.opcode, s2, f);
      RunSeqConcat(core + store, Materialize(inst.opcode), s);
      assert LowerStraight(inst).value == core + store + Materialize(inst.opcode);
    } else {
      assert LowerStraight(inst).value == core + store;
    }
  }

  lemma MovRun(inst: IRInst, pc: u64, s: Cpu)
    requires WellFormed(inst) && inst.opcode == Mov && LowerStraight(inst).Ok?
    ensures AllStraight(LowerStraight(inst).value)
    ensures Matches(RunSeq(LowerStraight(inst).value, s), ExecInst(inst, pc, View(s)))
  {
    hide RunSeq, StepInstr, StoreReg, LoadOperand, Write;
    var w, dest := inst.a.reg.width, inst.a.reg;
    var load, store := LoadOperand(inst.b, Rax, w).value, StoreReg(dest, Rax);
    LoadOperandRun(inst.b, Rax, w, s);
    EvalBound(inst.b, w, s.regs);
    var s1 := RunSeq(load, s).cpu;
    StoreRegRun(dest, Rax, s1);
    RunSeqConcat(load, store, s);
  }

  /** Only the low byte of rcx counts, which loses nothing for either width. */
  lemma CountMasked(n: u64, w: RegWidth)
    ensures ShiftCount(w, n % 256) == n % Bits(w)
  {
    ModMod(n, Bits(w), 256 / Bits(w));
  }

  lemma ShiftClRun(kind: ShiftKind, w: RegWidth, s: Cpu)
    requires s.rax < Modulus(w)
    ensures var out := StepInstr(ShiftCl(kind, w, Rax), s);
            out.Next? && OnlyReg(s, out.cpu, Rax) && out.cpu.rax == ShiftValue(kind, w, s.rax, s.rcx % Bits(w))
            && out.cpu.rax < Modulus(w)
  {
    hide ShiftMany, ShiftValue;
    CountMasked(s.rcx, w);
    Shifts.ShiftManyIsShift(kind, w, s.rax, s.rcx % Bits(w));
  }

  lemma ShiftRun(inst: IRInst, pc: u64, s: Cpu)
    requires WellFormed(inst) && inst.opcode == Shift && LowerStraight(inst).Ok?
    ensures AllStraight(LowerStraight(inst).value)
    ensures Matches(RunSeq(LowerStraight(inst).value, s), ExecInst(inst, pc, View(s)))
  {
    hide RunSeq, StepInstr, StoreReg, LoadReg, LoadOperand, Write, ShiftValue;
    var w, dest := inst.a.reg.width, inst.a.reg;
    var load, amount := LoadOperand(inst.b, Rax, w).value, LoadReg(Rcx, inst.c.amount);
    var shift, store := ShiftCl(inst.c.kind, w, Rax), StoreReg(dest, Rax);
    LoadOperandRun(inst.b, Rax, w, s);
    EvalBound(inst.b, w, s.regs);
    var s1 := RunSeq(load, s).cpu;
    LoadRegRun(Rcx, inst.c.amount, s1);
    var s2 := RunSeq(amount, s1).cpu;
    assert s2.rax == Get(s2, Rax) == Get(s1, Rax) && s2.rcx == Get(s2, Rcx);
    ShiftClRun(inst.c.kind, w, s2);
    var s3 := StepInstr(shift, s2).cpu;
    StoreRegRun(dest, Rax, s3);
    RunSeqConcat(load, amount, s);
    RunThen(load + amount, shift, s);
    RunSeqConcat(load + amount + [shift], store, s);
  }

  lemma LoadRun(inst: IRInst, pc: u64, s: Cpu)
    requires WellFormed(inst) && inst.opcode == Load && LowerStraight(inst).Ok?
    ensures AllStraight(LowerStraight(inst).value)
    ensures Matches(RunSeq(LowerStraight(inst).value, s), ExecInst(inst, pc, View(s)))
  {
    hide RunSeq, StoreReg, GuestAddress, Write, LoadWord, EffectiveAddress;
    var mem, dest := inst.b.mem, inst.a.reg;
    var address, store := GuestAddress(mem.base), StoreReg(dest, Rax);
    var access := MovLoad(Rax, mem.width, OnRax, Disp(mem.offset));
    GuestAddressRun(mem.base, s);
    var s1 := RunSeq(address, s).cpu;
    HostAddressing(Read(s.regs, mem.base), mem.offset, s1);
    RunThen(address, access, s);
    RunSeqConcat(address + [access], store, s);
    StoreRegStraight(dest, Rax);
    match LoadWord(s.mem, Address(mem, s.regs), mem.width)
    case None =>
    case Some(v) =>
      LoadWordBound(s.mem, Address(mem, s.regs), mem.width);
      StoreRegRun(dest, Rax, StepInstr(access, s1).cpu);
  }

  lemma StoreRegStraight(guest: GuestReg, reg: Gpr)
    ensures AllStraight(StoreReg(guest, reg))
  {
  }

  lemma LoadWordBound(mem: Memory, addr: u64, w: RegWidth)
    requires LoadWord(mem, addr, w).Some?
    ensures LoadWord(mem, addr, w).value < Modulus(w)
  {
  }

  lemma StoreRun(inst: IRInst, pc: u64, s: Cpu)
    requires WellFormed(inst) && inst.opcode == Store && LowerStraight(inst).Ok?
    ensures AllStraight(LowerStraight(inst).value)
    ensures Matches(RunSeq(LowerStraight(inst).value, s), ExecInst(inst, pc, View(s)))
  {
    hide RunSeq, LoadReg, GuestAddress, Read, StoreWord, EffectiveAddress;
    var mem, src := inst.a.mem, inst.b.reg;
    var load, address := LoadReg(Rcx, src), GuestAddress(mem.base);
    var access := MovStore(Rcx, mem.width, OnRax, Disp(mem.offset));
    LoadRegRun(Rcx, src, s);
    var s1 := RunSeq(load, s).cpu;
    GuestAddressRun(mem.base, s1);
    var s2 := RunSeq(address, s1).cpu;
    assert s2.rcx == Get(s1, Rcx) == Read(s.regs, src);
    HostAddressing(Read(s.regs, mem.base), mem.offset, s2);
    StoreWordTruncates(s.mem, Address(mem, s.regs), Read(s.regs, src), mem.width);
    RunSeqConcat(load, address, s);
    RunThen(load + address, access, s);
  }

  /** Every instruction that falls through. */
  lemma StraightRun(inst: IRInst, pc: u64, s: Cpu)
    requires WellFormed(inst) && !EndsBlock(inst.opcode) && LowerStraight(inst).Ok?
    ensures AllStraight(LowerStraight(inst).value)
    ensures Matches(RunSeq(LowerStraight(inst).value, s), ExecInst(inst, pc, View(s)))
  {
    match inst.opcode
    case Nop => RunOne(NopI, s);
    case Mov => MovRun(inst, pc, s);
    case Add => BinopRun(inst, pc, s);
    case Sub => BinopRun(inst, pc, s);
    case And => BinopRun(inst, pc, s);
    case Orr => BinopRun(inst, pc, s);
    case Eor => BinopRun(inst, pc, s);
    case Shift => ShiftRun(inst, pc, s);
    case Load => LoadRun(inst, pc, s);
    case Store => StoreRun(inst, pc, s);
    case _ =>
  }
}
