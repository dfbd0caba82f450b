/** Block formation: where a window of guest words ends (src/lift/block.rs). */
module Windows {
  import opened Ir
  import opened Words
  import opened Fields
  import opened Lift
  import opened Splitting

  /** Words that end a block: those that cannot be decoded and the eight branch opcodes. */
  predicate StopsBlock(word: bv32, decode: Decoder) {
    match decode(word)
    case None => true
    case Some(d) =>
      match d.opcode
      case A64_B => true
      case A64_BR => true
      case A64_Bcc(_) => true
      case A64_BL => true
      case A64_BLR => true
      case A64_CBZ => true
      case A64_CBNZ => true
      case A64_RET => true
      case _ => false
  }

  lemma TerminalStops(word: bv32, decode: Decoder)
    ensures Terminal(word, decode) <==> StopsBlock(word, decode)
  {
  }

  /** A block takes words up to and including the first that stops it, and all of them if
      none does. */
  lemma {:induction false} ConsumedExact(words: seq<bv32>, decode: Decoder)
    ensures var n := Consumed(words, decode);
            && (forall i :: 0 <= i < n - 1 ==> !StopsBlock(words[i], decode))
            && (words != [] ==> n > 0)
            && (n < |words| ==> n > 0 && StopsBlock(words[n - 1], decode))
    decreases |words|
  {
    hide Terminal, StopsBlock;
    if words != [] {
      TerminalStops(words[0], decode);
      ConsumedExact(words[1..], decode);
      var n := Consumed(words, decode);
      forall i | 0 <= i < n - 1
        ensures !StopsBlock(words[i], decode)
      {
        if i > 0 {
          assert words[i] == words[1..][i - 1];
        }
      }
    }
  }

  // ----- decoders that agree on the branches -----------------------------------------------

  /** The decoder names the branches that are lifted from their bits by their own opcodes. */
  ghost predicate BranchesAgree(decode: Decoder) {
    && (forall word :: IsBCond(word) ==> decode(word).Some? && decode(word).value.opcode.A64_Bcc?)
    && (forall word :: IsCbz(word) ==> decode(word).Some? && decode(word).value.opcode == A64_CBZ)
    && (forall word :: IsCbnz(word) ==> decode(word).Some? && decode(word).value.opcode == A64_CBNZ)
  }

  /** Then every branch that is lifted from its bits ends its block. */
  lemma BranchesTerminal(word: bv32, decode: Decoder)
    requires BranchesAgree(decode)
    ensures IsBCond(word) || IsCbz(word) || IsCbnz(word) ==> Terminal(word, decode)
  {
    hide IsBCond, IsCbz, IsCbnz;
  }

  /** And so does every other word that is lifted to an exit. */
  lemma ExitIsTerminal(word: bv32, pc: u64, decode: Decoder)
    requires BranchesAgree(decode) && EndsBlock(LiftInst(word, pc, decode).opcode)
    ensures Terminal(word, decode)
  {
    hide IsBCond, IsCbz, IsCbnz, MoveWide, UnsignedMem, DecodedInst, BranchesAgree;
    BranchesTerminal(word, decode);
    if !(IsBCond(word) || IsCbz(word) || IsCbnz(word)) {
      MoveIsNoExit(word);
      if decode(word).Some? {
        DecodedExit(word, pc, decode(word).value);
      }
    }
  }

  lemma MoveIsNoExit(word: bv32)
    ensures MoveWide(word).Some? ==> !EndsBlock(MoveWide(word).value.opcode)
    ensures !EndsBlock(UnsupportedInst(word).opcode)
  {
    hide IsMovz, IsMovn, Bit31, Hw, Imm16, Rt, RegOfWidth, WideConstant;
  }

  lemma DecodedExit(word: bv32, pc: u64, d: A64Inst)
    requires EndsBlock(DecodedInst(word, pc, d).opcode)
    ensures d.opcode == A64_B || d.opcode == A64_RET
  {
    hide LowerOperand;
  }

  /** Words that do not end a block are lifted to instructions that fall through. */
  lemma {:induction false} NonTerminalsFallThrough(words: seq<bv32>, pc: u64, decode: Decoder)
    requires BranchesAgree(decode) && NoTerminal(words, decode)
    ensures NoExit(LiftAll(words, pc, decode))
    decreases |words|
  {
    hide LiftInst, Terminal, EndsBlock, BranchesAgree;
    if words != [] {
      NonTerminalsFallThrough(words[1..], AddPc(pc, 4), decode);
      if EndsBlock(LiftInst(words[0], pc, decode).opcode) {
        ExitIsTerminal(words[0], pc, decode);
      }
    }
  }
}
