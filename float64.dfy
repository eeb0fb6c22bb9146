/**
 * IEEE-754 binary64 values. A value is kept as its three fields (sign,
 * biased exponent, fraction), which is the 64-bit pattern `to_bits` gives
 * split at its field boundaries; the level file stores that pattern with
 * `to_be_bytes`. `Value` reads a finite pattern as the real it denotes.
 */
module Float64 {
  import opened Bytes

  const FRACTION_SCALE: nat := 0x10_0000_0000_0000
  const EXPONENT_LIMIT: nat := 0x800
  const EXPONENT_BIAS: nat := 1023

  type Sign = s: nat | s < 2
  type Exponent = e: nat | e < 0x800
  type Fraction = m: nat | m < 0x10_0000_0000_0000

  datatype F64 = F64(sign: Sign, exponent: Exponent, fraction: Fraction)

  /** The constants the program assigns. */
  const ZERO: F64 := F64(0, 0, 0)
  const ONE: F64 := F64(0, 1023, 0)
  const NEG_ONE: F64 := F64(1, 1023, 0)
  const TWO: F64 := F64(0, 1024, 0)
  const NEG_TWO: F64 := F64(1, 1024, 0)

  /** `f64::to_bits`: fraction in bits 0..51, biased exponent in bits 52..62, sign in bit 63. */
  function ToBits(f: F64): (bits: u64)
    ensures bits % FRACTION_SCALE == f.fraction
    ensures (bits / FRACTION_SCALE) % EXPONENT_LIMIT == f.exponent
    ensures bits / (EXPONENT_LIMIT * FRACTION_SCALE) == f.sign
  {
    var high := f.sign * EXPONENT_LIMIT + f.exponent;
    var bits := high * FRACTION_SCALE + f.fraction;
    assert bits / FRACTION_SCALE == high;
    assert bits % FRACTION_SCALE == f.fraction;
    assert high % EXPONENT_LIMIT == f.exponent;
    bits
  }

  /** `f64::from_bits`: the fields of a pattern. */
  function FromBits(bits: u64): (f: F64)
    ensures ToBits(f) == bits
  {
    F64(bits / (EXPONENT_LIMIT * FRACTION_SCALE), (bits / FRACTION_SCALE) % EXPONENT_LIMIT, bits % FRACTION_SCALE)
  }

  /** Every value survives `to_bits` followed by `from_bits`. */
  lemma FromToBits(f: F64)
    ensures FromBits(ToBits(f)) == f
  {
  }

  /** Neither an infinity nor a NaN. */
  predicate IsFinite(f: F64) { f.exponent != EXPONENT_LIMIT - 1 }

  function TwoTo(n: nat): (r: nat)
    ensures r >= 1
  {
    if n == 0 then 1 else 2 * TwoTo(n - 1)
  }

  /** 2 raised to any integer power, as a real. */
  ghost function Pow2(e: int): (r: real)
  {
    if e >= 0 then TwoTo(e) as real else 1.0 / TwoTo(-e) as real
  }

  /** The integer significand: the fraction, with the hidden leading 1 of a normal number. */
  function Significand(f: F64): nat
  {
    if f.exponent == 0 then f.fraction else FRACTION_SCALE + f.fraction
  }

  /** The power of two the significand is scaled by (subnormals share the smallest one). */
  function Scale(f: F64): int
  {
    if f.exponent == 0 then 1 - EXPONENT_BIAS - 52 else f.exponent - EXPONENT_BIAS - 52
  }

  /** The real number a finite pattern denotes. */
  ghost function Value(f: F64): real
    requires IsFinite(f)
  {
    var magnitude := Significand(f) as real * Pow2(Scale(f));
    if f.sign == 1 then -magnitude else magnitude
  }

  lemma {:induction false} TwoToAdd(a: nat, b: nat)
    ensures TwoTo(a) * TwoTo(b) == TwoTo(a + b)
  {
    if b > 0 {
      TwoToAdd(a, b - 1);
    }
  }

  lemma {:induction false} TwoToMonotonic(a: nat, b: nat)
    requires a <= b
    ensures TwoTo(a) <= TwoTo(b)
  {
    if a < b {
      TwoToMonotonic(a, b - 1);
    }
  }

  lemma TwoTo52()
    ensures TwoTo(52) == FRACTION_SCALE
  {
    assert TwoTo(4) == 16;
    TwoToAdd(4, 4);
    TwoToAdd(8, 8);
    TwoToAdd(16, 16);
    TwoToAdd(32, 16);
    TwoToAdd(48, 4);
  }

  /** The number of binary digits of `m`, less one. */
  function Log2(m: nat): (r: nat)
    requires m >= 1
    ensures TwoTo(r) <= m < TwoTo(r + 1)
  {
    if m == 1 then 0 else 1 + Log2(m / 2)
  }

  lemma MulStrictMonotonic(a: int, b: int, k: int)
    requires a < b && k > 0
    ensures a * k < b * k
  {
  }

  lemma MulDistributes(a: int, b: int, k: int)
    ensures (a - b) * k == a * k - b * k
  {
  }

  lemma RealOfProduct(a: int, b: int)
    ensures (a * b) as real == a as real * b as real
  {
  }

  const HALF_CELL_LIMIT: int := 0x10_0000_0000_0000

  /** `c as f64 + 0.5`, which is exact for every `|c| < 2^52`. */
  function HalfCell(c: int): (f: F64)
    requires -HALF_CELL_LIMIT < c < HALF_CELL_LIMIT
    ensures IsFinite(f) && Value(f) == c as real + 0.5
  {
    // c + 0.5 == ±m / 2 with m odd, and m / 2 == 1.fraction * 2^(e - 1) where e == Log2(m)
    var m: nat := if c < 0 then -(2 * c + 1) else 2 * c + 1;
    var e := Log2(m);
    var fraction := HalfCellFraction(m, e);
    var f := F64(if c < 0 then 1 else 0, e + EXPONENT_BIAS - 1, fraction);
    var k := TwoTo(52 - e);
    assert Significand(f) == m * k by {
      HalfCellSignificand(m, e, fraction);
    }
    assert Pow2(Scale(f)) == 1.0 / (2 * k) as real by {
      assert Scale(f) == e - 53;
    }
    HalfMagnitude(f, m, k);
    SignedHalf(f, c, m);
    f
  }

  lemma HalfMagnitude(f: F64, m: nat, k: nat)
    requires k > 0 && Significand(f) == m * k && Pow2(Scale(f)) == 1.0 / (2 * k) as real
    ensures Significand(f) as real * Pow2(Scale(f)) == m as real / 2.0
  {
    ScaledHalf(Significand(f), m, k);
  }

  lemma SignedHalf(f: F64, c: int, m: nat)
    requires IsFinite(f) && f.sign == (if c < 0 then 1 else 0)
    requires m == (if c < 0 then -(2 * c + 1) else 2 * c + 1)
    requires Significand(f) as real * Pow2(Scale(f)) == m as real / 2.0
    ensures Value(f) == c as real + 0.5
  {
  }

  /** The fraction field of m / 2 when 2^e <= m < 2^(e+1). */
  function HalfCellFraction(m: nat, e: nat): (fraction: Fraction)
    requires 1 <= m < 2 * FRACTION_SCALE && TwoTo(e) <= m < TwoTo(e + 1)
    ensures e <= 52
    ensures fraction == (m - TwoTo(e)) * TwoTo(52 - e)
  {
    HalfCellFractionBound(m, e);
    (m - TwoTo(e)) * TwoTo(52 - e)
  }

  lemma HalfCellFractionBound(m: nat, e: nat)
    requires 1 <= m < 2 * FRACTION_SCALE && TwoTo(e) <= m < TwoTo(e + 1)
    ensures e <= 52
    ensures 0 <= (m - TwoTo(e)) * TwoTo(52 - e) < FRACTION_SCALE
  {
    assert e <= 52 by {
      TwoTo52();
      if e > 52 {
        TwoToMonotonic(53, e);
      }
    }
    var x, k := TwoTo(e), TwoTo(52 - e);
    assert x * k == FRACTION_SCALE by {
      TwoToAdd(e, 52 - e);
      TwoTo52();
    }
    assert m - x < x by {
      assert TwoTo(e + 1) == 2 * x;
    }
    MulStrictMonotonic(m - x, x, k);
    assert 0 <= (m - x) * k;
  }

  lemma HalfCellSignificand(m: nat, e: nat, fraction: nat)
    requires e <= 52 && TwoTo(e) <= m
    requires fraction == (m - TwoTo(e)) * TwoTo(52 - e)
    ensures FRACTION_SCALE + fraction == m * TwoTo(52 - e)
  {
    var x, k := TwoTo(e), TwoTo(52 - e);
    assert x * k == FRACTION_SCALE by {
      TwoToAdd(e, 52 - e);
      TwoTo52();
    }
    MulDistributes(m, x, k);
  }

  lemma ScaledHalf(n: int, m: int, k: int)
    requires k > 0 && n == m * k
    ensures n as real * (1.0 / (2 * k) as real) == m as real / 2.0
  {
    RealOfProduct(m, k);
    var K := k as real;
    assert (2 * k) as real == 2.0 * K;
    assert (m as real * K) / (2.0 * K) == m as real / 2.0;
  }

  /** What the constants the program assigns stand for. */
  lemma ConstantValues()
    ensures Value(ZERO) == 0.0
    ensures Value(ONE) == 1.0 && Value(NEG_ONE) == -1.0
    ensures Value(TWO) == 2.0 && Value(NEG_TWO) == -2.0
  {
    assert Significand(ZERO) == 0;
    assert Pow2(-52) == 1.0 / FRACTION_SCALE as real by { TwoTo52(); }
    assert TwoTo(51) * 2 == FRACTION_SCALE by { TwoTo52(); }
  }
}
