/** The decoder inverts the encoder, and running encoded straight-line code is
    running its instructions one after the other. */
module X86Props {
  import opened Words
  import opened Ir
  import opened Arm
  import opened X86

  lemma RegNumRoundTrip(r: Gpr)
    ensures RegOf(RegNum(r)) == Some(r) && RegNum(r) < 8
  {
  }

  lemma Imm32RoundTrip(v: u32, post: seq<u8>)
    ensures Imm32(Le(v, 4) + post) == v
  {
    assert (Le(v, 4) + post)[..4] == Le(v, 4);
    Pow2Values();
    LeRoundTrip(v, 4);
  }

  lemma ImmRoundTrip(v: u64, w: RegWidth, head: u8, post: seq<u8>)
    requires v < Modulus(w)
    ensures var bs := [head] + Le(v, Bytes(w)) + post;
            |bs| >= 1 + Bytes(w) && Mask(FromLe(bs[1..1 + Bytes(w)]), w) == v
  {
    var bs := [head] + Le(v, Bytes(w)) + post;
    assert bs[1..1 + Bytes(w)] == Le(v, Bytes(w));
    ModulusIsPow2(w);
    LeRoundTrip(v, Bytes(w));
  }

  /** The part of an encoding after any prefix byte. */
  function Body(i: Instr): seq<u8> {
    match i
    case MovImm(d, w, v) => [0xB8 + RegNum(d)] + Le(v, Bytes(w))
    case MovLoad(d, w, b, disp) => [0x8B, ModRm(2, RegNum(d), BaseNum(b))] + Le(disp, 4)
    case MovStore(r, w, b, disp) => [0x89, ModRm(2, RegNum(r), BaseNum(b))] + Le(disp, 4)
    case AluReg(op, w, d, r) => [AluExt(op) * 8 + 1, ModRm(3, RegNum(r), RegNum(d))]
    case AluImm(op, w, d, v) => [0x81, ModRm(3, AluExt(op), RegNum(d))] + Le(v, 4)
    case ShiftImm(k, w, d, n) => [0xC1, ModRm(3, ShiftExt(k), RegNum(d)), n]
    case ShiftCl(k, w, d) => [0xD3, ModRm(3, ShiftExt(k), RegNum(d))]
    case Setcc(cc, d) => [0x0F, 0x90 + CcNum(cc), ModRm(3, 0, RegNum(d))]
    case Movzx(d, r) => [0x0F, 0xB6, ModRm(3, RegNum(d), RegNum(r))]
    case Test(w, d, r) => [0x85, ModRm(3, RegNum(r), RegNum(d))]
    case _ => Enc(i)
  }

  lemma ModRmFields(mode: nat, reg: nat, rm: nat)
    requires mode < 4 && reg < 8 && rm < 8
    ensures var b := ModRm(mode, reg, rm); b / 64 == mode && b / 8 % 8 == reg && b % 8 == rm
  {
    var b := ModRm(mode, reg, rm);
    assert b == 8 * (8 * mode + reg) + rm;
    assert b / 8 == 8 * mode + reg;
  }

  lemma DecodeMovImm(i: Instr, rex: bool, post: seq<u8>)
    requires i.MovImm? && Encodable(i)
    ensures DecodeBody(Body(i) + post, rex, i.w) == Some((i, |Body(i)|))
  {
    ImmRoundTrip(i.value, i.w, 0xB8 + RegNum(i.dst), post);
    RegNumRoundTrip(i.dst);
    assert (Body(i) + post)[0] == 0xB8 + RegNum(i.dst);
  }

  lemma DecodeMovLoad(i: Instr, rex: bool, post: seq<u8>)
    requires i.MovLoad?
    ensures DecodeBody(Body(i) + post, rex, i.w) == Some((i, |Body(i)|))
  {
    hide Le, FromLe, Imm32, ModRm;
    var bs := Body(i) + post;
    ModRmFields(2, RegNum(i.dst), BaseNum(i.base));
    RegNumRoundTrip(i.dst);
    assert bs[0] == 0x8B && bs[2..] == Le(i.disp, 4) + post;
    Imm32RoundTrip(i.disp, post);
  }

  lemma DecodeMovStore(i: Instr, rex: bool, post: seq<u8>)
    requires i.MovStore?
    ensures DecodeBody(Body(i) + post, rex, i.w) == Some((i, |Body(i)|))
  {
    hide Le, FromLe, Imm32, ModRm;
    var bs := Body(i) + post;
    ModRmFields(2, RegNum(i.src), BaseNum(i.base));
    RegNumRoundTrip(i.src);
    assert bs[0] == 0x89 && bs[2..] == Le(i.disp, 4) + post;
    Imm32RoundTrip(i.disp, post);
  }

  lemma DecodeAluImm(i: Instr, rex: bool, post: seq<u8>)
    requires i.AluImm?
    ensures DecodeBody(Body(i) + post, rex, i.w) == Some((i, |Body(i)|))
  {
    hide Le, FromLe, Imm32, ModRm;
    var bs := Body(i) + post;
    ModRmFields(3, AluExt(i.op), RegNum(i.dst));
    RegNumRoundTrip(i.dst);
    assert bs[0] == 0x81 && bs[2..] == Le(i.imm32, 4) + post;
    assert AluOf(AluExt(i.op)) == Some(i.op);
    Imm32RoundTrip(i.imm32, post);
  }

  lemma DecodeAluReg(i: Instr, rex: bool, post: seq<u8>)
    requires i.AluReg?
    ensures DecodeBody(Body(i) + post, rex, i.w) == Some((i, |Body(i)|))
  {
    var bs := Body(i) + post;
    ModRmFields(3, RegNum(i.src), RegNum(i.dst));
    RegNumRoundTrip(i.dst);
    RegNumRoundTrip(i.src);
    assert bs[0] == AluExt(i.op) * 8 + 1 && bs[0] / 8 == AluExt(i.op) && bs[0] % 8 == 1;
    assert AluOf(AluExt(i.op)) == Some(i.op);
  }

  lemma DecodeShift(i: Instr, rex: bool, post: seq<u8>)
    requires i.ShiftImm? || i.ShiftCl?
    ensures DecodeBody(Body(i) + post, rex, i.w) == Some((i, |Body(i)|))
  {
    var bs := Body(i) + post;
    ModRmFields(3, ShiftExt(i.kind), RegNum(i.dst));
    RegNumRoundTrip(i.dst);
    assert bs[0] == if i.ShiftImm? then 0xC1 else 0xD3;
    assert ShiftOf(ShiftExt(i.kind)) == Some(i.kind);
  }

  lemma DecodeTest(i: Instr, rex: bool, post: seq<u8>)
    requires i.Test?
    ensures DecodeBody(Body(i) + post, rex, i.w) == Some((i, |Body(i)|))
  {
    var bs := Body(i) + post;
    ModRmFields(3, RegNum(i.src), RegNum(i.dst));
    RegNumRoundTrip(i.dst);
    RegNumRoundTrip(i.src);
    assert bs[0] == 0x85;
  }

  lemma DecodeByteForm(i: Instr, rex: bool, w: RegWidth, post: seq<u8>)
    requires (i.Setcc? && (i.dst == Rsi ==> rex)) || (i.Movzx? && (i.src == Rsi ==> rex))
    ensures DecodeBody(Body(i) + post, rex, w) == Some((i, |Body(i)|))
  {
    var bs := Body(i) + post;
    assert bs[0] == 0x0F;
    RegNumRoundTrip(i.dst);
    if i.Setcc? {
      ModRmFields(3, 0, RegNum(i.dst));
      assert CcOf(CcNum(i.cc)) == Some(i.cc);
    } else {
      ModRmFields(3, RegNum(i.dst), RegNum(i.src));
      RegNumRoundTrip(i.src);
    }
  }

  lemma DecodeShort(i: Instr, rex: bool, w: RegWidth, post: seq<u8>)
    requires i.NopI? || i.RetI? || i.Jcc?
    ensures DecodeBody(Body(i) + post, rex, w) == Some((i, |Body(i)|))
  {
    if i.Jcc? {
      assert CcOf(CcNum(i.cc)) == Some(i.cc);
    }
  }

  lemma DecodeBtForm(i: Instr, post: seq<u8>)
    requires i.Bt16?
    ensures Decode(Enc(i) + post) == Some((i, |Enc(i)|))
  {
    ModRmFields(3, RegNum(i.index), RegNum(i.dst));
    RegNumRoundTrip(i.dst);
    RegNumRoundTrip(i.index);
    assert (Enc(i) + post)[0] == 0x66;
  }

  lemma DecodeBodyBody(i: Instr, w: RegWidth, rex: bool, post: seq<u8>)
    requires Encodable(i) && !i.Bt16?
    requires Sized(i) ==> i.w == w
    requires (i.Setcc? && i.dst == Rsi) || (i.Movzx? && i.src == Rsi) ==> rex
    ensures DecodeBody(Body(i) + post, rex, w) == Some((i, |Body(i)|))
  {
    match i
    case MovImm(_, _, _) => DecodeMovImm(i, rex, post);
    case MovLoad(_, _, _, _) => DecodeMovLoad(i, rex, post);
    case MovStore(_, _, _, _) => DecodeMovStore(i, rex, post);
    case AluImm(_, _, _, _) => DecodeAluImm(i, rex, post);
    case AluReg(_, _, _, _) => DecodeAluReg(i, rex, post);
    case ShiftImm(_, _, _, _) => DecodeShift(i, rex, post);
    case ShiftCl(_, _, _) => DecodeShift(i, rex, post);
    case Test(_, _, _) => DecodeTest(i, rex, post);
    case Setcc(_, _) => DecodeByteForm(i, rex, w, post);
    case Movzx(_, _) => DecodeByteForm(i, rex, w, post);
    case NopI => DecodeShort(i, rex, w, post);
    case RetI => DecodeShort(i, rex, w, post);
    case Jcc(_, _) => DecodeShort(i, rex, w, post);
  }

  /** Instructions with an operand size. */
  predicate Sized(i: Instr) {
    i.MovImm? || i.MovLoad? || i.MovStore? || i.AluReg? || i.AluImm? || i.ShiftImm? || i.ShiftCl? || i.Test?
  }

  function Prefix(i: Instr): seq<u8> {
    if Sized(i) then Rex(i.w)
    else if i.Setcc? then RexByte(i.dst)
    else if i.Movzx? then RexByte(i.src)
    else []
  }

  lemma EncIsPrefixBody(i: Instr)
    ensures Enc(i) == Prefix(i) + Body(i)
  {
    hide Le, ModRm;
  }

  lemma BodyIsNoPrefix(i: Instr)
    requires !i.Bt16?
    ensures Body(i) != [] && Body(i)[0] != 0x40 && Body(i)[0] != 0x48 && Body(i)[0] != 0x66
  {
    hide Le, ModRm;
  }

  /** Every emitted encoding decodes to the instruction it was made from. */
  lemma {:induction false} DecodeEnc(i: Instr, post: seq<u8>)
    requires Encodable(i)
    ensures Decode(Enc(i) + post) == Some((i, |Enc(i)|))
  {
    if i.Bt16? {
      DecodeBtForm(i, post);
    } else {
      var pre := Prefix(i);
      EncIsPrefixBody(i);
      BodyIsNoPrefix(i);
      var w := if Sized(i) then i.w else W32;
      DecodeBodyBody(i, w, pre != [], post);
      DecodePrefixed(pre, Body(i), post, w);
    }
  }

  lemma DecodePrefixed(pre: seq<u8>, body: seq<u8>, post: seq<u8>, w: RegWidth)
    requires pre == [] || pre == [0x40] || pre == [0x48]
    requires pre == [] ==> w == W32 && body != [] && body[0] != 0x40 && body[0] != 0x48 && body[0] != 0x66
    requires pre == [0x40] ==> w == W32
    requires pre == [0x48] ==> w == X64
    ensures Decode(pre + body + post) ==
            match DecodeBody(body + post, pre != [], w)
            case None => None
            case Some((i, n)) => Some((i, n + |pre|))
  {
    var bs := pre + body + post;
    if pre == [] {
      assert bs == body + post;
    } else {
      assert bs[1..] == body + post;
    }
  }

  lemma {:induction false} EncAllConcat(a: seq<Instr>, b: seq<Instr>)
    ensures EncAll(a + b) == EncAll(a) + EncAll(b)
  {
    if a == [] {
      assert a + b == b;
    } else {
      assert (a + b)[1..] == a[1..] + b;
      EncAllConcat(a[1..], b);
    }
  }

  /** No encoding is empty, so a program has at least as many bytes as instructions. */
  lemma {:induction false} EncAllLength(code: seq<Instr>)
    ensures |EncAll(code)| >= |code|
  {
    if code != [] {
      EncAllLength(code[1..]);
    }
  }

  // ----- straight-line code ------------------------------------------------------

  predicate Straight(i: Instr) {
    Encodable(i) && !i.Jcc? && !i.RetI?
  }

  predicate AllStraight(code: seq<Instr>) {
    forall k :: 0 <= k < |code| ==> Straight(code[k])
  }

  function RunSeq(code: seq<Instr>, s: Cpu): Step {
    if code == [] then Next(s)
    else
      match StepInstr(code[0], s)
      case Next(s') => RunSeq(code[1..], s')
      case out => out
  }

  lemma {:induction false} RunSeqConcat(a: seq<Instr>, b: seq<Instr>, s: Cpu)
    ensures RunSeq(a + b, s) ==
            match RunSeq(a, s) case Next(s') => RunSeq(b, s') case out => out
    decreases |a|
  {
    if a == [] {
      assert a + b == b;
    } else {
      assert (a + b)[0] == a[0] && (a + b)[1..] == a[1..] + b;
      match StepInstr(a[0], s)
      case Next(s') => RunSeqConcat(a[1..], b, s');
      case _ =>
    }
  }

  /** The instruction `i` sits at offset `at` of `bytes`. */
  ghost predicate PlacedAt(bytes: seq<u8>, at: nat, enc: seq<u8>) {
    at + |enc| <= |bytes| && bytes[at..at + |enc|] == enc
  }

  lemma DecodePlaced(bytes: seq<u8>, at: nat, i: Instr)
    requires Encodable(i) && PlacedAt(bytes, at, Enc(i))
    ensures Decode(bytes[at..]) == Some((i, |Enc(i)|))
  {
    assert bytes[at..] == Enc(i) + bytes[at + |Enc(i)|..];
    DecodeEnc(i, bytes[at + |Enc(i)|..]);
  }

  lemma ExecStep(bytes: seq<u8>, at: nat, i: Instr, s: Cpu, fuel: nat)
    requires Straight(i) && fuel > 0 && PlacedAt(bytes, at, Enc(i))
    ensures Exec(bytes, at, s, fuel) ==
            match StepInstr(i, s)
            case Next(s') => Exec(bytes, at + |Enc(i)|, s', fuel - 1)
            case Crash => Crashed
            case Undefined => Invalid
  {
    hide Decode, StepInstr, Enc;
    DecodePlaced(bytes, at, i);
  }

  function Finish(out: Step): Outcome
    requires !out.Next?
  {
    if out.Crash? then Crashed else Invalid
  }

  lemma PlacedSplit(bytes: seq<u8>, at: nat, a: seq<u8>, b: seq<u8>)
    requires PlacedAt(bytes, at, a + b)
    ensures PlacedAt(bytes, at, a) && PlacedAt(bytes, at + |a|, b)
  {
    var ab := bytes[at..at + |a + b|];
    assert bytes[at..at + |a|] == ab[..|a|];
    assert bytes[at + |a|..at + |a| + |b|] == ab[|a|..];
  }

  /** A run of straight-line code inside a byte string. */
  lemma {:induction false} ExecSeq(bytes: seq<u8>, at: nat, code: seq<Instr>, s: Cpu, fuel: nat)
    requires AllStraight(code) && fuel >= |code| && PlacedAt(bytes, at, EncAll(code))
    ensures Exec(bytes, at, s, fuel) ==
            match RunSeq(code, s)
            case Next(s') => Exec(bytes, at + |EncAll(code)|, s', fuel - |code|)
            case out => Finish(out)
    decreases |code|
  {
    hide Exec, PlacedAt, StepInstr, Enc, Straight;
    if code != [] {
      PlacedSplit(bytes, at, Enc(code[0]), EncAll(code[1..]));
      ExecStep(bytes, at, code[0], s, fuel);
      match StepInstr(code[0], s)
      case Next(s') => ExecSeq(bytes, at + |Enc(code[0])|, code[1..], s', fuel - 1);
      case _ =>
    }
  }

  lemma ExecRet(bytes: seq<u8>, at: nat, s: Cpu, fuel: nat)
    requires fuel > 0 && PlacedAt(bytes, at, Enc(RetI))
    ensures Exec(bytes, at, s, fuel) == Returned(s)
  {
    hide Decode, StepInstr;
    DecodePlaced(bytes, at, RetI);
  }

  /** A forward jump is taken exactly when its condition holds. */
  lemma ExecJump(bytes: seq<u8>, at: nat, cc: Cc, rel: u8, s: Cpu, fuel: nat)
    requires fuel > 0 && rel < 128 && FlagOf(s.flags, cc).Some?
    requires PlacedAt(bytes, at, Enc(Jcc(cc, rel)))
    ensures Exec(bytes, at, s, fuel) ==
            Exec(bytes, at + 2 + (if FlagOf(s.flags, cc).value then rel else 0), s, fuel - 1)
  {
    hide Decode, StepInstr;
    DecodePlaced(bytes, at, Jcc(cc, rel));
  }
}
