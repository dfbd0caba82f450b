/** The part of x86-64 that translated blocks use: instructions, their encodings
    (Intel SDM Volume 2, sections 2.1.5 and 2.2.1), a decoder working on raw
    bytes, and an interpreter with a byte-indexed instruction pointer. */
module X86 {
  import opened Words
  import opened Ir
  import opened Arm
  import State

  datatype Gpr = Rax | Rcx | Rdx | Rsi

  datatype AluOp = AluAdd | AluOr | AluAnd | AluSub | AluXor

  /** Conditions of SETcc and Jcc. */
  datatype Cc = Overflow | Below | AboveEqual | Equal | NotEqual | Sign

  /** Memory operands are `[rdi + disp32]` (guest state) or `[rax + disp32]`. */
  datatype Base = OnRdi | OnRax

  datatype Instr =
    | NopI
    | MovImm(dst: Gpr, w: RegWidth, value: u64)
    | MovLoad(dst: Gpr, w: RegWidth, base: Base, disp: u32)
    | MovStore(src: Gpr, w: RegWidth, base: Base, disp: u32)
    | AluReg(op: AluOp, w: RegWidth, dst: Gpr, src: Gpr)
    | AluImm(op: AluOp, w: RegWidth, dst: Gpr, imm32: u32)
    | ShiftImm(kind: ShiftKind, w: RegWidth, dst: Gpr, count: u8)
    | ShiftCl(kind: ShiftKind, w: RegWidth, dst: Gpr)
    | Setcc(cc: Cc, dst: Gpr)
    | Movzx(dst: Gpr, src: Gpr)
    | Test(w: RegWidth, dst: Gpr, src: Gpr)
    | Bt16(dst: Gpr, index: Gpr)
    | Jcc(cc: Cc, rel: u8)
    | RetI

  // ----- encoding ----------------------------------------------------------------

  function RegNum(r: Gpr): nat {
    match r case Rax => 0 case Rcx => 1 case Rdx => 2 case Rsi => 6
  }

  function RegOf(n: nat): Option<Gpr> {
    if n == 0 then Some(Rax) else if n == 1 then Some(Rcx)
    else if n == 2 then Some(Rdx) else if n == 6 then Some(Rsi) else None
  }

  function AluExt(op: AluOp): nat {
    match op case AluAdd => 0 case AluOr => 1 case AluAnd => 4 case AluSub => 5 case AluXor => 6
  }

  function AluOf(n: nat): Option<AluOp> {
    if n == 0 then Some(AluAdd) else if n == 1 then Some(AluOr) else if n == 4 then Some(AluAnd)
    else if n == 5 then Some(AluSub) else if n == 6 then Some(AluXor) else None
  }

  function ShiftExt(k: ShiftKind): nat {
    match k case Ror => 1 case Lsl => 4 case Lsr => 5 case Asr => 7
  }

  function ShiftOf(n: nat): Option<ShiftKind> {
    if n == 1 then Some(Ror) else if n == 4 then Some(Lsl)
    else if n == 5 then Some(Lsr) else if n == 7 then Some(Asr) else None
  }

  function CcNum(cc: Cc): nat {
    match cc
    case Overflow => 0 case Below => 2 case AboveEqual => 3
    case Equal => 4 case NotEqual => 5 case Sign => 8
  }

  function CcOf(n: nat): Option<Cc> {
    if n == 0 then Some(Overflow) else if n == 2 then Some(Below) else if n == 3 then Some(AboveEqual)
    else if n == 4 then Some(Equal) else if n == 5 then Some(NotEqual) else if n == 8 then Some(Sign) else None
  }

  function ModRm(mode: nat, reg: nat, rm: nat): u8
    requires mode < 4 && reg < 8 && rm < 8
  {
    mode * 64 + reg * 8 + rm
  }

  function Rex(w: RegWidth): seq<u8> {
    if w == X64 then [0x48] else []
  }

  /** `sil` needs a REX prefix; without one the same number names `dh`. */
  function RexByte(r: Gpr): seq<u8> {
    if r == Rsi then [0x40] else []
  }

  function BaseNum(b: Base): nat {
    if b == OnRdi then 7 else 0
  }

  /** Operand values that fit their fields. */
  predicate Encodable(i: Instr) {
    i.MovImm? ==> i.value < Modulus(i.w)
  }

  function Enc(i: Instr): seq<u8> {
    match i
    case NopI => [0x90]
    case MovImm(d, w, v) => Rex(w) + [0xB8 + RegNum(d)] + Le(v, Bytes(w))
    case MovLoad(d, w, b, disp) => Rex(w) + [0x8B, ModRm(2, RegNum(d), BaseNum(b))] + Le(disp, 4)
    case MovStore(r, w, b, disp) => Rex(w) + [0x89, ModRm(2, RegNum(r), BaseNum(b))] + Le(disp, 4)
    case AluReg(op, w, d, r) => Rex(w) + [AluExt(op) * 8 + 1, ModRm(3, RegNum(r), RegNum(d))]
    case AluImm(op, w, d, v) => Rex(w) + [0x81, ModRm(3, AluExt(op), RegNum(d))] + Le(v, 4)
    case ShiftImm(k, w, d, n) => Rex(w) + [0xC1, ModRm(3, ShiftExt(k), RegNum(d)), n]
    case ShiftCl(k, w, d) => Rex(w) + [0xD3, ModRm(3, ShiftExt(k), RegNum(d))]
    case Setcc(cc, d) => RexByte(d) + [0x0F, 0x90 + CcNum(cc), ModRm(3, 0, RegNum(d))]
    case Movzx(d, r) => RexByte(r) + [0x0F, 0xB6, ModRm(3, RegNum(d), RegNum(r))]
    case Test(w, d, r) => Rex(w) + [0x85, ModRm(3, RegNum(r), RegNum(d))]
    case Bt16(d, r) => [0x66, 0x0F, 0xA3, ModRm(3, RegNum(r), RegNum(d))]
    case Jcc(cc, rel) => [0x70 + CcNum(cc), rel]
    case RetI => [0xC3]
  }

  function EncAll(code: seq<Instr>): seq<u8> {
    if code == [] then [] else Enc(code[0]) + EncAll(code[1..])
  }

  // ----- decoding ----------------------------------------------------------------

  type Decoded = Option<(Instr, nat)>

  /** The instruction at the head of `bs` and its length in bytes. */
  function Decode(bs: seq<u8>): Decoded {
    if bs == [] then None
    else if bs[0] == 0x66 then DecodeBt(bs)
    else if bs[0] == 0x40 || bs[0] == 0x48 then
      match DecodeBody(bs[1..], true, if bs[0] == 0x48 then X64 else W32)
      case None => None
      case Some((i, n)) => Some((i, n + 1))
    else DecodeBody(bs, false, W32)
  }

  function DecodeBt(bs: seq<u8>): Decoded {
    if |bs| < 4 || bs[1] != 0x0F || bs[2] != 0xA3 || bs[3] / 64 != 3 then None
    else
      match (RegOf(bs[3] % 8), RegOf(bs[3] / 8 % 8))
      case (Some(d), Some(r)) => Some((Bt16(d, r), 4))
      case _ => None
  }

  /** Opcode, ModR/M byte and immediate, after any REX prefix. */
  function DecodeBody(bs: seq<u8>, rex: bool, w: RegWidth): Decoded {
    if bs == [] then None
    else if bs[0] == 0x90 then Some((NopI, 1))
    else if bs[0] == 0xC3 then Some((RetI, 1))
    else if 0x70 <= bs[0] < 0x80 then
      match CcOf(bs[0] - 0x70)
      case Some(cc) => if |bs| >= 2 then Some((Jcc(cc, bs[1]), 2)) else None
      case None => None
    else if 0xB8 <= bs[0] < 0xC0 then
      match RegOf(bs[0] - 0xB8)
      case Some(d) =>
        var n := Bytes(w);
        if |bs| >= 1 + n then Some((MovImm(d, w, Mask(FromLe(bs[1..1 + n]), w)), 1 + n)) else None
      case None => None
    else if bs[0] == 0x0F then DecodeTwoByte(bs, rex)
    else if |bs| < 2 then None
    else DecodeModRm(bs, w, bs[1] / 64, bs[1] / 8 % 8, bs[1] % 8)
  }

  function DecodeTwoByte(bs: seq<u8>, rex: bool): Decoded
    requires |bs| >= 1
  {
    if |bs| < 3 || bs[2] / 64 != 3 then None
    else if bs[1] == 0xB6 then
      match (RegOf(bs[2] / 8 % 8), ByteReg(bs[2] % 8, rex))
      case (Some(d), Some(r)) => Some((Movzx(d, r), 3))
      case _ => None
    else if 0x90 <= bs[1] < 0xA0 then
      match (CcOf(bs[1] - 0x90), ByteReg(bs[2] % 8, rex))
      case (Some(cc), Some(d)) => Some((Setcc(cc, d), 3))
      case _ => None
    else None
  }

  function ByteReg(n: nat, rex: bool): Option<Gpr> {
    if n == 6 && !rex then None else RegOf(n)
  }

  function Imm32(bs: seq<u8>): u32
    requires |bs| >= 4
  {
    FromLe(bs[..4]) % P32
  }

  function DecodeModRm(bs: seq<u8>, w: RegWidth, mode: nat, reg: nat, rm: nat): Decoded
    requires |bs| >= 2
  {
    if bs[0] == 0x8B || bs[0] == 0x89 then
      if mode != 2 || |bs| < 6 || (rm != 7 && rm != 0) then None
      else
        var base := if rm == 7 then OnRdi else OnRax;
        match RegOf(reg)
        case None => None
        case Some(r) =>
          Some((if bs[0] == 0x8B then MovLoad(r, w, base, Imm32(bs[2..])) else MovStore(r, w, base, Imm32(bs[2..])), 6))
    else if mode != 3 then None
    else
      match RegOf(rm)
      case None => None
      case Some(d) =>
        if bs[0] == 0x81 then
          match AluOf(reg)
          case Some(op) => if |bs| >= 6 then Some((AluImm(op, w, d, Imm32(bs[2..])), 6)) else None
          case None => None
        else if bs[0] == 0xC1 then
          match ShiftOf(reg)
          case Some(k) => if |bs| >= 3 then Some((ShiftImm(k, w, d, bs[2]), 3)) else None
          case None => None
        else if bs[0] == 0xD3 then
          match ShiftOf(reg)
          case Some(k) => Some((ShiftCl(k, w, d), 2))
          case None => None
        else
          match RegOf(reg)
          case None => None
          case Some(r) =>
            if bs[0] == 0x85 then Some((Test(w, d, r), 2))
            else if bs[0] % 8 == 1 then
              match AluOf(bs[0] / 8)
              case Some(op) => Some((AluReg(op, w, d, r), 2))
              case None => None
            else None
  }

  // ----- execution ---------------------------------------------------------------

  /** An undefined flag is `None`; an instruction that reads one has no meaning. */
  datatype Flags = Flags(cf: Option<bool>, zf: Option<bool>, sf: Option<bool>, of: Option<bool>)

  const NO_FLAGS := Flags(None, None, None, None)

  /** Scratch registers, flags, the guest state behind `rdi`, and guest memory. */
  datatype Cpu = Cpu(rax: u64, rcx: u64, rdx: u64, rsi: u64, flags: Flags, regs: Regs, mem: Memory)

  function Get(s: Cpu, r: Gpr): u64 {
    match r case Rax => s.rax case Rcx => s.rcx case Rdx => s.rdx case Rsi => s.rsi
  }

  function Set(s: Cpu, r: Gpr, v: u64): Cpu {
    match r
    case Rax => s.(rax := v)
    case Rcx => s.(rcx := v)
    case Rdx => s.(rdx := v)
    case Rsi => s.(rsi := v)
  }

  function FlagOf(f: Flags, cc: Cc): Option<bool> {
    match cc
    case Overflow => f.of
    case Below => f.cf
    case AboveEqual => if f.cf == None then None else Some(!f.cf.value)
    case Equal => f.zf
    case NotEqual => if f.zf == None then None else Some(!f.zf.value)
    case Sign => f.sf
  }

  /** Whether a signed result leaves the range of the width. */
  predicate SignedOverflow(w: RegWidth, v: int) {
    !(-(Modulus(w) / 2) <= v < Modulus(w) / 2)
  }

  function AluBit(op: AluOp): BitOp {
    match op case AluAnd => AndOp case AluOr => OrOp case _ => XorOp
  }

  /** Result and flags of the two-operand instructions. */
  function AluValue(op: AluOp, w: RegWidth, x: u64, y: u64): (r: (nat, Flags))
    requires x < Modulus(w) && y < Modulus(w)
    ensures r.0 < Modulus(w)
  {
    var m := Modulus(w);
    match op
    case AluAdd =>
      var r := (x + y) % m;
      (r, Flags(Some(x + y >= m), Some(r == 0), Some(r >= m / 2), Some(SignedOverflow(w, Signed(w, x) + Signed(w, y)))))
    case AluSub =>
      var r := (x - y) % m;
      (r, Flags(Some(x < y), Some(r == 0), Some(r >= m / 2), Some(SignedOverflow(w, Signed(w, x) - Signed(w, y)))))
    case _ =>
      var r := Bitwise(AluBit(op), x, y);
      ModulusIsPow2(w);
      BitwiseBound(AluBit(op), x, y, Bits(w));
      (r, Flags(Some(false), Some(r == 0), Some(r >= m / 2), Some(false)))
  }

  /** imm32 operands of 64-bit instructions are sign-extended. */
  function SignExtend32(v: u32, w: RegWidth): u64 {
    if w == X64 && v >= P31 then v + (P64 - P32) else v
  }

  /** One step of the SDM's shift loops. */
  function ShiftOnce(kind: ShiftKind, w: RegWidth, v: u64): u64
    requires v < Modulus(w)
  {
    var half := Modulus(w) / 2;
    match kind
    case Lsl => (v * 2) % Modulus(w)
    case Lsr => v / 2
    case Asr => v / 2 + (if v >= half then half else 0)
    case Ror => v / 2 + (if v % 2 == 1 then half else 0)
  }

  function ShiftMany(kind: ShiftKind, w: RegWidth, v: u64, n: nat): (r: u64)
    requires v < Modulus(w)
    ensures r < Modulus(w)
  {
    if n == 0 then v else ShiftOnce(kind, w, ShiftMany(kind, w, v, n - 1))
  }

  /** The count is masked to 5 or 6 bits. */
  function ShiftCount(w: RegWidth, n: nat): nat {
    n % Bits(w)
  }

  function EffectiveAddress(s: Cpu, disp: u32): u64 {
    State.HostToGuest(AddPc(s.rax, SignExtend32(disp, X64)))
  }

  datatype Step = Next(cpu: Cpu) | Crash | Undefined

  /** The instructions that do not transfer control.  Writing a 32-bit register clears its upper half. */
  function StepInstr(i: Instr, s: Cpu): Step {
    match i
    case NopI => Next(s)
    case MovImm(d, w, v) => Next(Set(s, d, v))
    case MovLoad(d, w, OnRdi, disp) =>
      (match State.LoadState(s.regs, disp, w)
       case Some(v) => Next(Set(s, d, v))
       case None => Undefined)
    case MovLoad(d, w, OnRax, disp) =>
      (match LoadWord(s.mem, EffectiveAddress(s, disp), w)
       case Some(v) => Next(Set(s, d, v))
       case None => Crash)
    case MovStore(r, w, OnRdi, disp) =>
      (match State.StoreState(s.regs, disp, Get(s, r), w)
       case Some(g) => Next(s.(regs := g))
       case None => Undefined)
    case MovStore(r, w, OnRax, disp) =>
      (match StoreWord(s.mem, EffectiveAddress(s, disp), Get(s, r), w)
       case Some(m) => Next(s.(mem := m))
       case None => Crash)
    case AluReg(op, w, d, r) =>
      var (v, f) := AluValue(op, w, Mask(Get(s, d), w), Mask(Get(s, r), w));
      Next(Set(s, d, v).(flags := f))
    case AluImm(op, w, d, imm) =>
      var (v, f) := AluValue(op, w, Mask(Get(s, d), w), SignExtend32(imm, w));
      Next(Set(s, d, v).(flags := f))
    case ShiftImm(k, w, d, n) =>
      Next(Set(s, d, ShiftMany(k, w, Mask(Get(s, d), w), ShiftCount(w, n))).(flags := NO_FLAGS))
    case ShiftCl(k, w, d) =>
      Next(Set(s, d, ShiftMany(k, w, Mask(Get(s, d), w), ShiftCount(w, s.rcx % 256))).(flags := NO_FLAGS))
    case Setcc(cc, d) =>
      (match FlagOf(s.flags, cc)
       case Some(on) => Next(Set(s, d, Get(s, d) / 256 * 256 + if on then 1 else 0))
       case None => Undefined)
    case Movzx(d, r) => Next(Set(s, d, Get(s, r) % 256))
    case Test(w, d, r) =>
      Next(s.(flags := AluValue(AluAnd, w, Mask(Get(s, d), w), Mask(Get(s, r), w)).1))
    case Bt16(d, r) =>
      var bit := Get(s, d) % 0x1_0000 / Pow2(Get(s, r) % 16) % 2;
      Next(s.(flags := NO_FLAGS.(cf := Some(bit == 1), zf := s.flags.zf)))
    case Jcc(_, _) => Undefined
    case RetI => Undefined
  }

  datatype Outcome = Returned(cpu: Cpu) | Crashed | Invalid | OutOfFuel

  /** Target of a short jump: the displacement is a signed byte. */
  function JumpTarget(next: nat, rel: u8): int {
    if rel < 128 then next + rel else next + rel - 256
  }

  /** Runs raw bytes from `ip` until `ret`, for at most `fuel` instructions. */
  function Exec(code: seq<u8>, ip: nat, s: Cpu, fuel: nat): Outcome
    decreases fuel
  {
    if fuel == 0 then OutOfFuel
    else if ip > |code| then Invalid
    else
      match Decode(code[ip..])
      case None => Invalid
      case Some((RetI, _)) => Returned(s)
      case Some((Jcc(cc, rel), n)) =>
        (match FlagOf(s.flags, cc)
         case None => Invalid
         case Some(taken) =>
           var target := if taken then JumpTarget(ip + n, rel) else ip + n;
           if target < 0 then Invalid else Exec(code, target, s, fuel - 1))
      case Some((i, n)) =>
        match StepInstr(i, s)
        case Next(s') => Exec(code, ip + n, s', fuel - 1)
        case Crash => Crashed
        case Undefined => Invalid
  }

  /** What the guest can see of a finished run. */
  function Observe(out: Outcome): Flow {
    match out
    case Returned(s) => Goto(Machine(s.regs, s.mem))
    case Crashed => Fault
    case _ => Stuck
  }
}
