/** Machine words as bounded integers: powers of two, little-endian bytes and
    bitwise operators.  Every wrap-around is written out as a `%`. */
module Words {

  const P31: nat := 0x8000_0000
  const P32: nat := 0x1_0000_0000
  const P63: nat := 0x8000_0000_0000_0000
  const P64: nat := 0x1_0000_0000_0000_0000

  type u8 = x: nat | x < 0x100
  type u16 = x: nat | x < 0x1_0000
  type u32 = x: nat | x < 0x1_0000_0000
  type u64 = x: nat | x < 0x1_0000_0000_0000_0000
  type i32 = x: int | -0x8000_0000 <= x < 0x8000_0000
  type i64 = x: int | -0x8000_0000_0000_0000 <= x < 0x8000_0000_0000_0000

  datatype Option<+T> = None | Some(value: T)

  datatype Result<+T, +E> = Ok(value: T) | Err(error: E)

  function Pow2(n: nat): (r: nat)
    ensures r >= 1
  {
    if n == 0 then 1 else 2 * Pow2(n - 1)
  }

  lemma {:induction false} Pow2Add(m: nat, n: nat)
    ensures Pow2(m + n) == Pow2(m) * Pow2(n)
  {
    if m > 0 {
      Pow2Add(m - 1, n);
      assert 2 * (Pow2(m - 1) * Pow2(n)) == (2 * Pow2(m - 1)) * Pow2(n);
    }
  }

  /** `v` shifted left by `n` places, without truncation. */
  function Scale(v: nat, n: nat): (r: nat)
    ensures r == v * Pow2(n)
  {
    MulNonNegative(v, Pow2(n));
    v * Pow2(n)
  }

  /** `v` shifted right by `n` places, and the bits shifted out. */
  function Unscale(v: nat, n: nat): (r: nat)
    ensures r == v / Pow2(n)
  {
    DivNonNegative(v, Pow2(n));
    v / Pow2(n)
  }

  function LowBits(v: nat, n: nat): (r: nat)
    ensures r == v % Pow2(n)
  {
    v % Pow2(n)
  }

  lemma DivNonNegative(a: nat, d: nat)
    requires d > 0
    ensures a / d >= 0
  {
  }

  lemma ScaleStep(v: nat, n: nat)
    ensures Scale(v, n + 1) == 2 * Scale(v, n)
  {
    hide Pow2;
    Pow2Step(n);
    assert v * (2 * Pow2(n)) == 2 * (v * Pow2(n));
  }

  lemma Pow2Step(n: nat)
    ensures Pow2(n + 1) == 2 * Pow2(n)
  {
  }

  lemma MulNonNegative(a: nat, b: nat)
    ensures a * b >= 0
  {
  }

  lemma {:induction false} Pow2Mono(m: nat, n: nat)
    requires m <= n
    ensures Pow2(m) <= Pow2(n)
    decreases n
  {
    if m < n {
      Pow2Mono(m, n - 1);
    }
  }

  lemma Pow2Small()
    ensures Pow2(1) == 2 && Pow2(8) == 0x100
  {
  }

  lemma Pow2Values()
    ensures Pow2(8) == 0x100 && Pow2(16) == 0x1_0000 && Pow2(31) == P31
    ensures Pow2(32) == P32 && Pow2(63) == P63 && Pow2(64) == P64
  {
    hide Pow2;
    Pow2Small();
    Pow2Add(8, 8);
    Pow2Add(16, 16);
    Pow2Add(32, 32);
    Pow2Add(1, 31);
    Pow2Add(1, 63);
  }

  lemma Pow2Nibble()
    ensures Pow2(28) == 0x1000_0000 && Pow2(29) == 0x2000_0000
    ensures Pow2(30) == 0x4000_0000 && Pow2(31) == 0x8000_0000
  {
    hide Pow2;
    Pow2Values();
    Pow2Small();
    Pow2Add(1, 30);
    Pow2Add(1, 29);
    Pow2Add(1, 28);
  }

  // ----- division and remainder ---------------------------------------------

  /** Quotient and remainder are determined by the division equation. */
  lemma DivModUnique(x: int, d: int, q: int, r: int)
    requires d > 0 && x == q * d + r && 0 <= r < d
    ensures x / d == q && x % d == r
  {
    var q', r' := x / d, x % d;
    assert x == q' * d + r' by {
      assert x == d * q' + r';
    }
    assert (q - q') * d == r' - r && (q' - q) * d == r - r';
    if q - q' >= 1 {
      MulAtLeast(q - q', d);
    } else if q' - q >= 1 {
      MulAtLeast(q' - q, d);
    }
  }

  lemma MulAtLeast(k: int, d: int)
    requires k >= 1 && d > 0
    ensures k * d >= d
  {
    assert (k - 1) * d >= 0;
    assert k * d == (k - 1) * d + d;
  }

  /** A multiple of the modulus can be added without changing the remainder. */
  lemma ModAddMultiple(x: int, k: int, d: int)
    requires d > 0
    ensures (x + k * d) % d == x % d
  {
    assert x + k * d == (x / d + k) * d + x % d by {
      assert x == (x / d) * d + x % d;
    }
    DivModUnique(x + k * d, d, x / d + k, x % d);
  }

  /** Dividing by a product is dividing twice. */
  lemma DivDiv(x: int, a: int, b: int)
    requires a > 0 && b > 0
    ensures a * b > 0 && x / (a * b) == (x / a) / b
    ensures x % (a * b) == ((x / a) % b) * a + x % a
  {
    var q, r := x / a, x % a;
    var qq, rr := q / b, q % b;
    MulAtLeast(b, a);
    assert (a * b) == b * a;
    assert x == qq * (a * b) + (rr * a + r) by {
      assert x == a * q + r && q == b * qq + rr;
      Regroup(qq, b, rr, a);
    }
    assert 0 <= rr * a + r < a * b by {
      RowBound(rr, a, b);
    }
    DivModUnique(x, a * b, qq, rr * a + r);
  }

  lemma Regroup(q: int, b: int, r: int, a: int)
    ensures a * (b * q + r) == q * (a * b) + r * a
  {
    assert a * (b * q + r) == a * (b * q) + a * r;
    assert a * (b * q) == (a * b) * q;
  }

  lemma RowBound(r: int, a: int, b: int)
    requires 0 <= r < b && a > 0
    ensures 0 <= r * a && r * a + a <= a * b
  {
    MulAtLeast(b - r, a);
    assert (b - r) * a == a * b - r * a;
  }

  /** Reducing modulo a multiple first does not change the remainder. */
  lemma ModMod(x: int, a: int, b: int)
    requires a > 0 && b > 0
    ensures a * b > 0 && (x % (a * b)) % a == x % a
  {
    DivDiv(x, a, b);
    var k, r := (x / a) % b, x % a;
    ModAddMultiple(r, k, a);
    ModSmall(r, a);
  }

  lemma ModSmall(r: int, a: int)
    requires 0 <= r < a
    ensures r % a == r
  {
  }

  // ----- little-endian bytes -------------------------------------------------

  /** The `n` low bytes of `v`, least significant first (`to_le_bytes`). */
  function Le(v: nat, n: nat): (bs: seq<u8>)
    ensures |bs| == n
  {
    if n == 0 then [] else [v % 256] + Le(v / 256, n - 1)
  }

  function FromLe(bs: seq<u8>): nat {
    if bs == [] then 0 else bs[0] + 256 * FromLe(bs[1..])
  }

  lemma {:induction false} LeRoundTrip(v: nat, n: nat)
    requires v < Pow2(8 * n)
    ensures FromLe(Le(v, n)) == v
  {
    if n > 0 {
      Pow2Add(8, 8 * (n - 1));
      Pow2Values();
      assert v / 256 < Pow2(8 * (n - 1));
      LeRoundTrip(v / 256, n - 1);
      assert Le(v, n)[1..] == Le(v / 256, n - 1);
    }
  }

  /** Only the low bytes of a word are written. */
  lemma {:induction false} LeTruncates(v: nat, n: nat)
    ensures Le(v % Pow2(8 * n), n) == Le(v, n)
  {
    if n > 0 {
      Pow2Add(8, 8 * (n - 1));
      Pow2Small();
      var p := Pow2(8 * (n - 1));
      DivDiv(v, 256, p);
      var x := v % (256 * p);
      assert x == ((v / 256) % p) * 256 + v % 256;
      assert x / 256 == (v / 256) % p && x % 256 == v % 256;
      LeTruncates(v / 256, n - 1);
    }
  }

  lemma {:induction false} FromLeBound(bs: seq<u8>)
    ensures FromLe(bs) < Pow2(8 * |bs|)
  {
    if bs != [] {
      FromLeBound(bs[1..]);
      Pow2Add(8, 8 * (|bs| - 1));
      Pow2Values();
    }
  }

  // ----- bitwise operators ---------------------------------------------------

  datatype BitOp = AndOp | OrOp | XorOp

  function Bit(op: BitOp, x: nat, y: nat): (r: nat)
    ensures r <= 1
  {
    match op
    case AndOp => if x == 1 && y == 1 then 1 else 0
    case OrOp => if x == 1 || y == 1 then 1 else 0
    case XorOp => if x != y then 1 else 0
  }

  /** Applies `op` to every pair of bits of equal weight. */
  function Bitwise(op: BitOp, a: nat, b: nat): nat
    decreases a + b
  {
    if a == 0 && b == 0 then 0
    else 2 * Bitwise(op, a / 2, b / 2) + Bit(op, a % 2, b % 2)
  }

  lemma {:induction false} BitwiseBound(op: BitOp, a: nat, b: nat, n: nat)
    requires a < Pow2(n) && b < Pow2(n)
    ensures Bitwise(op, a, b) < Pow2(n)
    decreases n
  {
    if n > 0 && !(a == 0 && b == 0) {
      BitwiseBound(op, a / 2, b / 2, n - 1);
    }
  }

  /** Truncating to one more bit keeps the low bit and truncates the rest. */
  lemma ModHalf(a: nat, n: nat)
    requires n > 0
    ensures a % Pow2(n) == 2 * ((a / 2) % Pow2(n - 1)) + a % 2
    ensures a % Pow2(n) / 2 == (a / 2) % Pow2(n - 1) && a % Pow2(n) % 2 == a % 2
  {
    DivDiv(a, 2, Pow2(n - 1));
  }

  /** Truncation to `n` bits commutes with every bitwise operator. */
  lemma {:induction false} BitwiseMask(op: BitOp, a: nat, b: nat, n: nat)
    ensures Bitwise(op, a, b) % Pow2(n) == Bitwise(op, a % Pow2(n), b % Pow2(n))
    decreases n
  {
    hide Pow2, Bitwise;
    if n == 0 {
      Pow2Zero();
      BitwiseNothing(op);
    } else {
      var p := Pow2(n);
      BitwiseMask(op, a / 2, b / 2, n - 1);
      ModHalf(a, n);
      ModHalf(b, n);
      BitwiseStep(op, a, b);
      BitwiseStep(op, a % p, b % p);
      EvenPlusBit(Bitwise(op, a / 2, b / 2), Bit(op, a % 2, b % 2));
      ModHalf(Bitwise(op, a, b), n);
    }
  }

  lemma BitwiseNothing(op: BitOp)
    ensures Bitwise(op, 0, 0) == 0
  {
  }

  lemma EvenPlusBit(r: nat, bit: nat)
    requires bit <= 1
    ensures (2 * r + bit) / 2 == r && (2 * r + bit) % 2 == bit
  {
  }

  lemma {:induction false} BitwiseZero(a: nat)
    ensures Bitwise(AndOp, a, 0) == 0
    ensures Bitwise(OrOp, a, 0) == a
    ensures Bitwise(XorOp, a, 0) == a
    ensures Bitwise(XorOp, a, a) == 0
  {
    if a > 0 {
      BitwiseZero(a / 2);
    }
  }

  lemma {:induction false} AndOnes(a: nat, n: nat)
    ensures Bitwise(AndOp, a, Pow2(n) - 1) == a % Pow2(n)
    decreases n
  {
    hide Bitwise, Pow2;
    Pow2Zero();
    if n == 0 {
      BitwiseZero(a);
    } else {
      var p := Pow2(n - 1);
      AndOnes(a / 2, n - 1);
      Pow2Step(n - 1);
      OnesStep(AndOp, a, p);
      DivDiv(a, 2, p);
    }
  }

  lemma {:induction false} OrOnes(a: nat, n: nat)
    requires a < Pow2(n)
    ensures Bitwise(OrOp, a, Pow2(n) - 1) == Pow2(n) - 1
    decreases n
  {
    hide Bitwise, Pow2;
    Pow2Zero();
    if n == 0 {
      BitwiseZero(a);
    } else {
      Pow2Step(n - 1);
      OrOnes(a / 2, n - 1);
      OnesStep(OrOp, a, Pow2(n - 1));
    }
  }

  lemma OnesStep(op: BitOp, a: nat, p: nat)
    requires p >= 1
    ensures Bitwise(op, a, 2 * p - 1) == 2 * Bitwise(op, a / 2, p - 1) + Bit(op, a % 2, 1)
  {
    BitwiseStep(op, a, 2 * p - 1);
  }

  lemma Pow2Zero()
    ensures Pow2(0) == 1
  {
  }

  lemma BitwiseStep(op: BitOp, a: nat, b: nat)
    ensures Bitwise(op, a, b) == 2 * Bitwise(op, a / 2, b / 2) + Bit(op, a % 2, b % 2)
  {
  }

  /** `or` of a word with low zero bits and a word that fits in them is a sum. */
  lemma {:induction false} OrDisjoint(hi: nat, lo: nat, k: nat)
    requires hi % Pow2(k) == 0 && lo < Pow2(k)
    ensures Bitwise(OrOp, hi, lo) == hi + lo
    decreases k
  {
    if k == 0 {
      BitwiseZero(hi);
    } else if !(hi == 0 && lo == 0) {
      DivDiv(hi, 2, Pow2(k - 1));
      OrDisjoint(hi / 2, lo / 2, k - 1);
    }
  }
}
