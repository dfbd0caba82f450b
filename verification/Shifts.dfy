/** The processor shifts bit by bit; the architecture describes shifts by powers
    of two.  Both give the same value for every operand and amount. */
module Shifts {
  import opened Words
  import opened Ir
  import opened Arm
  import opened X86

  lemma {:induction false} LslMany(w: RegWidth, v: u64, n: nat)
    requires v < Modulus(w)
    ensures ShiftMany(Lsl, w, v, n) == Scale(v, n) % Modulus(w)
  {
    hide Scale, Pow2;
    var m := Modulus(w);
    if n == 0 {
      ModSmall(v, m);
      ScaleZero(v);
    } else {
      LslMany(w, v, n - 1);
      ScaleStep(v, n - 1);
      DoubleMod(Scale(v, n - 1), m);
    }
  }

  lemma ScaleZero(v: nat)
    ensures Scale(v, 0) == v
  {
  }

  lemma DoubleMod(x: nat, m: nat)
    requires m > 0
    ensures ((x % m) * 2) % m == (2 * x) % m
  {
    var q, r := x / m, x % m;
    assert x == m * q + r;
    assert 2 * x == 2 * r + (2 * q) * m;
    ModAddMultiple(2 * r, 2 * q, m);
  }

  lemma {:induction false} LsrMany(w: RegWidth, v: u64, n: nat)
    requires v < Modulus(w)
    ensures ShiftMany(Lsr, w, v, n) == v / Pow2(n)
  {
    if n > 0 {
      LsrMany(w, v, n - 1);
      DivDiv(v, Pow2(n - 1), 2);
    }
  }

  lemma {:induction false} AsrMany(w: RegWidth, v: u64, n: nat)
    requires v < Modulus(w)
    ensures Signed(w, ShiftMany(Asr, w, v, n)) == Signed(w, v) / Pow2(n)
  {
    if n > 0 {
      AsrMany(w, v, n - 1);
      DivDiv(Signed(w, v), Pow2(n - 1), 2);
      AsrOnce(w, ShiftMany(Asr, w, v, n - 1));
    }
  }

  lemma AsrOnce(w: RegWidth, v: u64)
    requires v < Modulus(w)
    ensures Signed(w, ShiftOnce(Asr, w, v)) == Signed(w, v) / 2
  {
  }

  lemma SignedMod(w: RegWidth, v: u64)
    requires v < Modulus(w)
    ensures Signed(w, v) % Modulus(w) == v
  {
  }

  lemma {:induction false} RorMany(w: RegWidth, v: u64, n: nat)
    requires v < Modulus(w) && n < Bits(w)
    ensures ShiftMany(Ror, w, v, n) == v / Pow2(n) + Scale(v % Pow2(n), Bits(w) - n)
  {
    hide Pow2, Scale;
    if n == 0 {
      RorNothing(w, v);
    } else {
      RorMany(w, v, n - 1);
      var p, k := Pow2(n - 1), Bits(w) - n;
      var q, t := v / p, v % p;
      Pow2Step(n - 1);
      DivDiv(v, p, 2);
      HalveSum(q, t, k);
      RotatedBit(w, q % 2, t, n);
    }
  }

  lemma RorNothing(w: RegWidth, v: u64)
    requires v < Modulus(w)
    ensures ShiftMany(Ror, w, v, 0) == v / Pow2(0) + Scale(v % Pow2(0), Bits(w))
  {
  }

  /** The bit that falls out on the right re-enters at the top. */
  lemma RotatedBit(w: RegWidth, b: nat, t: nat, n: nat)
    requires b <= 1 && 0 < n < Bits(w)
    ensures Scale(b * Pow2(n - 1) + t, Bits(w) - n) == (if b == 1 then Modulus(w) / 2 else 0) + Scale(t, Bits(w) - n)
  {
    hide Pow2;
    var p, k := Pow2(n - 1), Pow2(Bits(w) - n);
    Pow2Add(n - 1, Bits(w) - n);
    ModulusIsPow2(w);
    Distribute(b, p, t, k);
  }

  lemma HalveSum(q: nat, t: nat, k: nat)
    ensures (q + Scale(t, k + 1)) / 2 == q / 2 + Scale(t, k)
    ensures (q + Scale(t, k + 1)) % 2 == q % 2
  {
    ScaleStep(t, k);
  }

  lemma Distribute(b: nat, p: nat, t: nat, k: nat)
    requires b <= 1
    ensures (b * p + t) * k == (if b == 1 then p * k else 0) + t * k
  {
    if b == 1 {
      assert (p + t) * k == p * k + t * k;
    }
  }

  /** Bit-by-bit shifting is the architectural shift. */
  lemma ShiftManyIsShift(kind: ShiftKind, w: RegWidth, v: u64, n: nat)
    requires v < Modulus(w) && n < Bits(w)
    ensures ShiftMany(kind, w, v, n) == ShiftValue(kind, w, v, n)
  {
    hide Pow2, Scale, ShiftMany;
    var r := ShiftMany(kind, w, v, n);
    ModSmall(r, Modulus(w));
    match kind
    case Lsl => LslMany(w, v, n);
    case Lsr => LsrMany(w, v, n);
    case Asr => AsrMany(w, v, n); SignedMod(w, r);
    case Ror => RorMany(w, v, n);
  }
}
