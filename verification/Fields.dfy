/** Bit fields of the AArch64 words that are decoded by hand: extraction, the
    encodings of the Arm Architecture Reference Manual (chapter C4), and their
    round trips.  Everything here is 32-bit vectors. */
module Fields {

  // ----- extraction (src/lift/mod.rs) ------------------------------------------------

  function Imm19(word: bv32): bv19 {
    ((word >> 5) & 0x7_ffff) as bv19
  }

  function Imm16(word: bv32): bv16 {
    ((word >> 5) & 0xffff) as bv16
  }

  function Imm12(word: bv32): bv12 {
    ((word >> 10) & 0xfff) as bv12
  }

  function Rt(word: bv32): bv5 {
    (word & 0x1f) as bv5
  }

  function Rn(word: bv32): bv5 {
    ((word >> 5) & 0x1f) as bv5
  }

  function Hw(word: bv32): bv2 {
    ((word >> 21) & 3) as bv2
  }

  function Size(word: bv32): bv2 {
    ((word >> 30) & 3) as bv2
  }

  function Cond(word: bv32): bv4 {
    (word & 0xf) as bv4
  }

  predicate Bit31(word: bv32) {
    word & 0x8000_0000 != 0
  }

  predicate IsBCond(word: bv32) {
    word & 0xff00_0010 == 0x5400_0000
  }

  predicate IsCbz(word: bv32) {
    word & 0x7f00_0000 == 0x3400_0000
  }

  predicate IsCbnz(word: bv32) {
    word & 0x7f00_0000 == 0x3500_0000
  }

  predicate IsMovz(word: bv32) {
    word & 0x7f80_0000 == 0x5280_0000
  }

  predicate IsMovn(word: bv32) {
    word & 0x7f80_0000 == 0x1280_0000
  }

  predicate IsLdr(word: bv32) {
    word & 0x3fc0_0000 == 0x3940_0000 && Size(word) >= 2
  }

  predicate IsStr(word: bv32) {
    word & 0x3fc0_0000 == 0x3900_0000 && Size(word) >= 2
  }

  // ----- encodings -------------------------------------------------------------------

  function EncodeBCond(imm19: bv19, cond: bv4): bv32 {
    0x5400_0000 | ((imm19 as bv32) << 5) | (cond as bv32)
  }

  /** `sf` selects the 64-bit register, `op` CBNZ. */
  function EncodeCompareBranch(sf: bv1, op: bv1, imm19: bv19, rt: bv5): bv32 {
    ((sf as bv32) << 31) | 0x3400_0000 | ((op as bv32) << 24) | ((imm19 as bv32) << 5) | (rt as bv32)
  }

  /** `z` is the high bit of `opc`: 1 for MOVZ, 0 for MOVN. */
  function EncodeMoveWide(sf: bv1, z: bv1, hw: bv2, imm16: bv16, rd: bv5): bv32 {
    ((sf as bv32) << 31) | ((z as bv32) << 30) | 0x1280_0000 | ((hw as bv32) << 21) | ((imm16 as bv32) << 5) | (rd as bv32)
  }

  /** `x` is the low bit of `size` (32 or 64 bits), `load` the low bit of `opc`. */
  function EncodeUnsignedMem(x: bv1, load: bv1, imm12: bv12, rn: bv5, rt: bv5): bv32 {
    0x8000_0000 | ((x as bv32) << 30) | 0x3900_0000 | ((load as bv32) << 22)
    | ((imm12 as bv32) << 10) | ((rn as bv32) << 5) | (rt as bv32)
  }

  lemma BCondFields(imm19: bv19, cond: bv4)
    ensures IsBCond(EncodeBCond(imm19, cond))
    ensures Imm19(EncodeBCond(imm19, cond)) == imm19
    ensures Cond(EncodeBCond(imm19, cond)) == cond
  {
  }

  lemma CompareBranchFields(sf: bv1, op: bv1, imm19: bv19, rt: bv5)
    ensures !IsBCond(EncodeCompareBranch(sf, op, imm19, rt))
    ensures IsCbnz(EncodeCompareBranch(sf, op, imm19, rt)) <==> op == 1
    ensures IsCbz(EncodeCompareBranch(sf, op, imm19, rt)) <==> op == 0
    ensures Bit31(EncodeCompareBranch(sf, op, imm19, rt)) <==> sf == 1
    ensures Imm19(EncodeCompareBranch(sf, op, imm19, rt)) == imm19
    ensures Rt(EncodeCompareBranch(sf, op, imm19, rt)) == rt
  {
  }

  lemma MoveWideFields(sf: bv1, z: bv1, hw: bv2, imm16: bv16, rd: bv5)
    ensures !IsBCond(EncodeMoveWide(sf, z, hw, imm16, rd)) && !IsCbz(EncodeMoveWide(sf, z, hw, imm16, rd)) && !IsCbnz(EncodeMoveWide(sf, z, hw, imm16, rd))
    ensures IsMovz(EncodeMoveWide(sf, z, hw, imm16, rd)) <==> z == 1
    ensures IsMovn(EncodeMoveWide(sf, z, hw, imm16, rd)) <==> z == 0
    ensures Bit31(EncodeMoveWide(sf, z, hw, imm16, rd)) <==> sf == 1
    ensures Imm16(EncodeMoveWide(sf, z, hw, imm16, rd)) == imm16
    ensures Hw(EncodeMoveWide(sf, z, hw, imm16, rd)) == hw
    ensures Rt(EncodeMoveWide(sf, z, hw, imm16, rd)) == rd
  {
  }

  lemma UnsignedMemFields(x: bv1, load: bv1, imm12: bv12, rn: bv5, rt: bv5)
    ensures !IsBCond(EncodeUnsignedMem(x, load, imm12, rn, rt)) && !IsCbz(EncodeUnsignedMem(x, load, imm12, rn, rt)) && !IsCbnz(EncodeUnsignedMem(x, load, imm12, rn, rt)) && !IsMovz(EncodeUnsignedMem(x, load, imm12, rn, rt)) && !IsMovn(EncodeUnsignedMem(x, load, imm12, rn, rt))
    ensures IsLdr(EncodeUnsignedMem(x, load, imm12, rn, rt)) <==> load == 1
    ensures IsStr(EncodeUnsignedMem(x, load, imm12, rn, rt)) <==> load == 0
    ensures Size(EncodeUnsignedMem(x, load, imm12, rn, rt)) == 3 <==> x == 1
    ensures Imm12(EncodeUnsignedMem(x, load, imm12, rn, rt)) == imm12
    ensures Rn(EncodeUnsignedMem(x, load, imm12, rn, rt)) == rn
    ensures Rt(EncodeUnsignedMem(x, load, imm12, rn, rt)) == rt
  {
  }

  /** No word belongs to two classes, so the order in which they are tried is immaterial. */
  lemma ClassesDisjoint(word: bv32)
    ensures IsBCond(word) ==> !IsCbz(word) && !IsCbnz(word) && !IsMovz(word) && !IsMovn(word) && !IsLdr(word) && !IsStr(word)
    ensures IsCbz(word) || IsCbnz(word) ==> !IsMovz(word) && !IsMovn(word) && !IsLdr(word) && !IsStr(word)
    ensures IsMovz(word) || IsMovn(word) ==> !IsLdr(word) && !IsStr(word)
    ensures !(IsCbz(word) && IsCbnz(word)) && !(IsMovz(word) && IsMovn(word)) && !(IsLdr(word) && IsStr(word))
  {
  }

  // Conversely, every word of a class is the encoding of its own fields.

  lemma BCondIsEncoding(word: bv32)
    requires IsBCond(word)
    ensures word == EncodeBCond(Imm19(word), Cond(word))
  {
  }

  lemma CompareBranchIsEncoding(word: bv32)
    requires IsCbz(word) || IsCbnz(word)
    ensures word == EncodeCompareBranch(((word >> 31) & 1) as bv1, ((word >> 24) & 1) as bv1, Imm19(word), Rt(word))
  {
  }

  lemma MoveWideIsEncoding(word: bv32)
    requires IsMovz(word) || IsMovn(word)
    ensures word == EncodeMoveWide(((word >> 31) & 1) as bv1, ((word >> 30) & 1) as bv1, Hw(word), Imm16(word), Rt(word))
  {
  }

  lemma UnsignedMemIsEncoding(word: bv32)
    requires IsLdr(word) || IsStr(word)
    ensures word == EncodeUnsignedMem(((word >> 30) & 1) as bv1, ((word >> 22) & 1) as bv1, Imm12(word), Rn(word), Rt(word))
  {
  }

  // ----- field values as numbers -----------------------------------------------------

  function N2(b: bv2): (n: nat) ensures n < 4 { b as int }

  function N4(b: bv4): (n: nat) ensures n < 16 { b as int }

  function N5(b: bv5): (n: nat) ensures n < 32 { b as int }

  function N12(b: bv12): (n: nat) ensures n < 0x1000 { b as int }

  function N16(b: bv16): (n: nat) ensures n < 0x1_0000 { b as int }

  function N19(b: bv19): (n: nat) ensures n < 0x8_0000 { b as int }
}
