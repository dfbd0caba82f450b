/** What the shared bit and byte arithmetic means, bit by bit, byte by byte and address by
    address: the logical operations, little-endian words, and guest loads and stores. */
module Bits {
  import opened Words
  import opened Ir
  import opened Arm

  // ----- bits --------------------------------------------------------------------------

  predicate BitSet(v: nat, k: nat) {
    v / Pow2(k) % 2 == 1
  }

  lemma BitZero(v: nat)
    ensures BitSet(v, 0) <==> v % 2 == 1
  {
    Pow2Zero();
  }

  /** Higher bits of a number are the bits of its half. */
  lemma BitAbove(v: nat, k: nat)
    requires k > 0
    ensures BitSet(v, k) <==> BitSet(v / 2, k - 1)
  {
    DivDiv(v, 2, Pow2(k - 1));
  }

  lemma BitwiseHalves(op: BitOp, a: nat, b: nat)
    ensures Bitwise(op, a, b) / 2 == Bitwise(op, a / 2, b / 2)
    ensures Bitwise(op, a, b) % 2 == Bit(op, a % 2, b % 2)
  {
    hide Bitwise;
    BitwiseStep(op, a, b);
    EvenPlusBit(Bitwise(op, a / 2, b / 2), Bit(op, a % 2, b % 2));
  }

  /** Bit `k` of a logical operation is the Boolean operation on the bits `k` of its operands. */
  lemma {:induction false} BitwiseBits(op: BitOp, a: nat, b: nat, k: nat)
    ensures BitSet(Bitwise(op, a, b), k) <==>
            match op
            case AndOp => BitSet(a, k) && BitSet(b, k)
            case OrOp => BitSet(a, k) || BitSet(b, k)
            case XorOp => BitSet(a, k) != BitSet(b, k)
    decreases k
  {
    hide BitSet, Bitwise;
    BitwiseHalves(op, a, b);
    if k == 0 {
      BitZero(a);
      BitZero(b);
      BitZero(Bitwise(op, a, b));
    } else {
      BitAbove(a, k);
      BitAbove(b, k);
      BitAbove(Bitwise(op, a, b), k);
      BitwiseBits(op, a / 2, b / 2, k - 1);
    }
  }

  /** AND, ORR and EOR, at either width. */
  lemma LogicBits(op: Opcode, w: RegWidth, x: u64, y: u64, k: nat)
    requires (op == And || op == Orr || op == Eor) && x < Modulus(w) && y < Modulus(w)
    ensures BitSet(Arith(op, w, x, y).0, k) <==>
            match op
            case And => BitSet(x, k) && BitSet(y, k)
            case Orr => BitSet(x, k) || BitSet(y, k)
            case _ => BitSet(x, k) != BitSet(y, k)
  {
    hide BitSet, Bitwise, Signed;
    BitwiseBits(if op == And then AndOp else if op == Orr then OrOp else XorOp, x, y, k);
  }

  // ----- little-endian words -------------------------------------------------------------

  /** Byte `i` of a little-endian word. */
  lemma {:induction false} LeByte(v: nat, n: nat, i: nat)
    requires i < n
    ensures Le(v, n)[i] == v / Pow2(8 * i) % 256
    decreases i
  {
    hide Pow2;
    if i == 0 {
      Pow2Zero();
    } else {
      LeByte(v / 256, n - 1, i - 1);
      Pow2Add(8, 8 * (i - 1));
      Pow2Values();
      DivDiv(v, 256, Pow2(8 * (i - 1)));
    }
  }

  /** Appending a byte adds it at the next weight. */
  lemma {:induction false} FromLeSnoc(bs: seq<u8>, b: u8)
    ensures FromLe(bs + [b]) == FromLe(bs) + b * Pow2(8 * |bs|)
    decreases |bs|
  {
    hide Pow2;
    if bs == [] {
      Pow2Zero();
      assert bs + [b] == [b] && [b][1..] == [];
    } else {
      assert (bs + [b])[1..] == bs[1..] + [b];
      FromLeSnoc(bs[1..], b);
      Pow2Add(8, 8 * (|bs| - 1));
      Pow2Values();
      Associate(b, Pow2(8 * (|bs| - 1)));
    }
  }

  lemma Associate(b: nat, p: nat)
    ensures 256 * (b * p) == b * (256 * p)
  {
  }

  // ----- guest memory ----------------------------------------------------------------------

  /** All `n` bytes at an address are mapped. */
  predicate AllMapped(mem: Memory, addr: u64, n: nat) {
    forall i :: 0 <= i < n ==> AddPc(addr, i) in mem
  }

  /** The sum of the `n` bytes at an address, byte `i` weighing 256^i. */
  function SumOfBytes(mem: Memory, addr: u64, n: nat): nat
    requires AllMapped(mem, addr, n)
  {
    if n == 0 then 0 else SumOfBytes(mem, addr, n - 1) + mem[AddPc(addr, n - 1)] * Pow2(8 * (n - 1))
  }

  lemma NextByte(addr: u64, i: nat)
    ensures AddPc(AddPc(addr, 1), i) == AddPc(addr, i + 1) && AddPc(addr, 0) == addr
  {
    var k := (addr + 1) / P64;
    assert addr + 1 + i == AddPc(addr, 1) + i + k * P64;
    ModAddMultiple(AddPc(addr, 1) + i, k, P64);
  }

  /** Loading succeeds exactly on mapped bytes, and byte `i` is the one at `addr + i`. */
  lemma {:induction false} LoadBytesExact(mem: Memory, addr: u64, n: nat)
    ensures LoadBytes(mem, addr, n).Some? <==> AllMapped(mem, addr, n)
    ensures LoadBytes(mem, addr, n).Some? ==>
              var bs := LoadBytes(mem, addr, n).value;
              |bs| == n && forall i :: 0 <= i < n ==> AddPc(addr, i) in mem && bs[i] == mem[AddPc(addr, i)]
    decreases n
  {
    hide AddPc;
    NextByte(addr, 0);
    if n > 0 {
      LoadBytesExact(mem, AddPc(addr, 1), n - 1);
      forall i: nat
        ensures AddPc(AddPc(addr, 1), i) == AddPc(addr, i + 1)
      {
        NextByte(addr, i);
      }
      if AllMapped(mem, addr, n) {
        assert AddPc(addr, 0) in mem;
        assert AllMapped(mem, AddPc(addr, 1), n - 1);
      }
      if LoadBytes(mem, addr, n).Some? {
        var bs := LoadBytes(mem, addr, n).value;
        forall i | 0 <= i < n
          ensures AddPc(addr, i) in mem && bs[i] == mem[AddPc(addr, i)]
        {
          if i > 0 {
            assert AddPc(AddPc(addr, 1), i - 1) == AddPc(addr, i);
          }
        }
      }
    }
  }

  lemma {:induction false} FromLeIsSum(mem: Memory, addr: u64, bs: seq<u8>)
    requires AllMapped(mem, addr, |bs|) && forall i :: 0 <= i < |bs| ==> bs[i] == mem[AddPc(addr, i)]
    ensures FromLe(bs) == SumOfBytes(mem, addr, |bs|)
    decreases |bs|
  {
    hide Pow2, AddPc;
    if bs != [] {
      var n := |bs| - 1;
      FromLeIsSum(mem, addr, bs[..n]);
      FromLeSnoc(bs[..n], bs[n]);
      assert bs[..n] + [bs[n]] == bs;
    }
  }

  /** A load succeeds exactly when all its bytes are mapped, and reads them little-endian. */
  lemma LoadWordExact(mem: Memory, addr: u64, w: RegWidth)
    ensures LoadWord(mem, addr, w).Some? <==> AllMapped(mem, addr, Bytes(w))
    ensures AllMapped(mem, addr, Bytes(w)) ==> LoadWord(mem, addr, w) == Some(SumOfBytes(mem, addr, Bytes(w)))
  {
    hide LoadBytes, AddPc, FromLe, SumOfBytes;
    LoadBytesExact(mem, addr, Bytes(w));
    if AllMapped(mem, addr, Bytes(w)) {
      var bs := LoadBytes(mem, addr, Bytes(w)).value;
      FromLeIsSum(mem, addr, bs);
      FromLeBound(bs);
      ModulusIsPow2(w);
    }
  }

  /** The addresses of `n` consecutive bytes. */
  predicate Covered(addr: u64, n: nat, x: u64) {
    exists i: nat :: i < n && x == AddPc(addr, i)
  }

  /** What `n` consecutive bytes hold, and everything else keeps. */
  ghost predicate Written(before: Memory, after: Memory, addr: u64, bs: seq<u8>) {
    && after.Keys == before.Keys
    && (forall i :: 0 <= i < |bs| ==> AddPc(addr, i) in after && after[AddPc(addr, i)] == bs[i])
    && (forall x: u64 :: x in before && !Covered(addr, |bs|, x) ==> after[x] == before[x])
  }

  lemma FirstNotLater(addr: u64, n: nat)
    requires n < P64
    ensures !Covered(AddPc(addr, 1), n, addr)
  {
    forall i: nat | i < n
      ensures addr != AddPc(AddPc(addr, 1), i)
    {
      NextByte(addr, i);
      OtherAddress(addr, i + 1);
    }
  }

  lemma OtherAddress(addr: u64, d: nat)
    requires 0 < d < P64
    ensures AddPc(addr, d) != addr
  {
  }

  lemma CoveredLater(addr: u64, n: nat, x: u64)
    ensures Covered(AddPc(addr, 1), n, x) ==> Covered(addr, n + 1, x)
    ensures n > 0 ==> Covered(addr, n, addr)
  {
    hide AddPc;
    NextByte(addr, 0);
    if Covered(AddPc(addr, 1), n, x) {
      var i: nat :| i < n && x == AddPc(AddPc(addr, 1), i);
      NextByte(addr, i);
      assert i + 1 < n + 1 && x == AddPc(addr, i + 1);
    }
    if n > 0 {
      assert addr == AddPc(addr, 0);
    }
  }

  /** Storing succeeds exactly on mapped bytes, and writes those bytes and no others. */
  lemma {:induction false} StoreBytesExact(mem: Memory, addr: u64, bs: seq<u8>)
    requires |bs| <= P64
    ensures StoreBytes(mem, addr, bs).Some? <==> AllMapped(mem, addr, |bs|)
    ensures StoreBytes(mem, addr, bs).Some? ==> Written(mem, StoreBytes(mem, addr, bs).value, addr, bs)
    decreases |bs|
  {
    hide AddPc, Covered;
    NextByte(addr, 0);
    if bs != [] {
      var n := |bs| - 1;
      forall i: nat
        ensures AddPc(AddPc(addr, 1), i) == AddPc(addr, i + 1)
      {
        NextByte(addr, i);
      }
      if addr in mem {
        var mem' := mem[addr := bs[0]];
        assert mem'.Keys == mem.Keys;
        StoreBytesExact(mem', AddPc(addr, 1), bs[1..]);
        MappedRest(mem, mem', addr, n);
        if AllMapped(mem', AddPc(addr, 1), n) {
          WrittenMore(mem, mem', StoreBytes(mem', AddPc(addr, 1), bs[1..]).value, addr, bs);
        }
      } else {
        assert AllMapped(mem, addr, |bs|) ==> AddPc(addr, 0) in mem;
      }
    }
  }

  lemma MappedRest(mem: Memory, mem': Memory, addr: u64, n: nat)
    requires mem.Keys == mem'.Keys && addr in mem
    ensures AllMapped(mem, addr, n + 1) <==> AllMapped(mem', AddPc(addr, 1), n)
  {
    hide AddPc;
    NextByte(addr, 0);
    if AllMapped(mem, addr, n + 1) {
      forall i | 0 <= i < n
        ensures AddPc(AddPc(addr, 1), i) in mem'
      {
        NextByte(addr, i);
        assert AddPc(addr, i + 1) in mem;
      }
    }
    if AllMapped(mem', AddPc(addr, 1), n) {
      forall i | 0 <= i < n + 1
        ensures AddPc(addr, i) in mem
      {
        if i > 0 {
          NextByte(addr, i - 1);
          assert AddPc(AddPc(addr, 1), i - 1) in mem';
        }
      }
    }
  }

  lemma WrittenMore(mem: Memory, mem': Memory, after: Memory, addr: u64, bs: seq<u8>)
    requires bs != [] && |bs| <= P64 && addr in mem && mem' == mem[addr := bs[0]]
    requires Written(mem', after, AddPc(addr, 1), bs[1..])
    ensures Written(mem, after, addr, bs)
  {
    hide AddPc, Covered;
    var n := |bs| - 1;
    NextByte(addr, 0);
    FirstNotLater(addr, n);
    CoveredLater(addr, |bs|, addr);
    forall i | 0 <= i < |bs|
      ensures AddPc(addr, i) in after && after[AddPc(addr, i)] == bs[i]
    {
      if i > 0 {
        NextByte(addr, i - 1);
        assert bs[1..][i - 1] == bs[i];
        assert AddPc(AddPc(addr, 1), i - 1) in after && after[AddPc(AddPc(addr, 1), i - 1)] == bs[1..][i - 1];
      }
    }
    forall x: u64 | x in mem && !Covered(addr, |bs|, x)
      ensures after[x] == mem[x]
    {
      CoveredLater(addr, n, x);
    }
  }

  /** A store succeeds exactly when all its bytes are mapped; it writes byte `i` of the value
      at `addr + i`, keeps every other byte, and maps nothing new. */
  lemma StoreWordExact(mem: Memory, addr: u64, v: u64, w: RegWidth)
    ensures StoreWord(mem, addr, v, w).Some? <==> AllMapped(mem, addr, Bytes(w))
    ensures StoreWord(mem, addr, v, w).Some? ==>
              var after := StoreWord(mem, addr, v, w).value;
              && after.Keys == mem.Keys
              && (forall i :: 0 <= i < Bytes(w) ==>
                    AddPc(addr, i) in after && after[AddPc(addr, i)] == v / Pow2(8 * i) % 256)
              && (forall x: u64 :: x in mem && !Covered(addr, Bytes(w), x) ==> after[x] == mem[x])
  {
    hide StoreBytes, AddPc, Covered, Le, Pow2;
    var n := Bytes(w);
    StoreBytesExact(mem, addr, Le(v, n));
    if StoreWord(mem, addr, v, w).Some? {
      forall i | 0 <= i < n
        ensures Le(v, n)[i] == v / Pow2(8 * i) % 256
      {
        LeByte(v, n, i);
      }
    }
  }

  /** The bytes of a value read back as its truncation. */
  lemma WordReadsBack(v: u64, w: RegWidth)
    ensures Mask(FromLe(Le(v, Bytes(w))), w) == Mask(v, w)
  {
    hide Le, FromLe, Pow2;
    var n := Bytes(w);
    assert Pow2(8 * n) == Modulus(w) by { ModulusIsPow2(w); }
    LeTruncates(v, n);
    LeRoundTrip(Mask(v, w), n);
    ModSmall(Mask(v, w), Modulus(w));
  }

  lemma BytesReadBack(mem: Memory, addr: u64, bs: seq<u8>)
    requires |bs| <= P64 && AllMapped(mem, addr, |bs|)
    ensures StoreBytes(mem, addr, bs).Some?
    ensures LoadBytes(StoreBytes(mem, addr, bs).value, addr, |bs|) == Some(bs)
  {
    hide StoreBytes, LoadBytes, AddPc, Covered;
    StoreBytesExact(mem, addr, bs);
    var after := StoreBytes(mem, addr, bs).value;
    LoadBytesExact(after, addr, |bs|);
    assert AllMapped(after, addr, |bs|);
    assert LoadBytes(after, addr, |bs|).value == bs;
  }

  /** What was stored is loaded back, truncated to the width. */
  lemma LoadAfterStore(mem: Memory, addr: u64, v: u64, w: RegWidth)
    requires AllMapped(mem, addr, Bytes(w))
    ensures StoreWord(mem, addr, v, w).Some?
    ensures LoadWord(StoreWord(mem, addr, v, w).value, addr, w) == Some(Mask(v, w))
  {
    hide StoreBytes, LoadBytes, AllMapped, Le, FromLe, Mask;
    BytesReadBack(mem, addr, Le(v, Bytes(w)));
    WordReadsBack(v, w);
  }
}
