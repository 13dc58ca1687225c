/** The order-preserving key of a double (crates/quiver-core/src/sec.rs, `encode_f64`),
    proved against the numbers that binary64 patterns denote. */
module Doubles {
  import opened ByteStrings
  import opened Words

  const SIGN: nat := 0x8000_0000_0000_0000
  const ALL_ONES: nat := 0xFFFF_FFFF_FFFF_FFFF
  const MANTISSA: nat := 0x10_0000_0000_0000

  /** A binary64 bit pattern. */
  type Double = b: int | 0 <= b <= 0xFFFF_FFFF_FFFF_FFFF

  function Exponent(b: Double): nat { (b / MANTISSA) % 2048 }
  function Fraction(b: Double): nat { b % MANTISSA }
  predicate Negative(b: Double) { b >= SIGN }
  predicate IsNaN(b: Double) { Exponent(b) == 2047 && Fraction(b) != 0 }

  /** An extended number. `Fin(v)` stands for v * 2^-1074: every finite double is a
      whole multiple of the smallest subnormal. */
  datatype Num = NegInf | Fin(v: int) | PosInf

  predicate NumLess(a: Num, b: Num) {
    match (a, b)
    case (Fin(x), Fin(y)) => x < y
    case (NegInf, _) => !b.NegInf?
    case (_, PosInf) => !a.PosInf?
    case (_, _) => false
  }

  /** In units of the smallest subnormal; subnormal patterns carry no hidden bit. */
  function Scaled(hidden: nat, exponent: nat, fraction: nat): nat {
    if exponent == 0 then fraction else (hidden + fraction) * Pow2(exponent - 1)
  }

  function Magnitude(b: Double): nat { Scaled(MANTISSA, Exponent(b), Fraction(b)) }

  /** The number a non-NaN pattern denotes. */
  function Value(b: Double): Num
    requires !IsNaN(b)
  {
    if Exponent(b) == 2047 then (if Negative(b) then NegInf else PosInf)
    else if Negative(b) then Fin(0 - Magnitude(b))
    else Fin(Magnitude(b))
  }

  /** `x + 0.0`: negative zero becomes positive zero, every other number is kept. */
  function Canonical(b: Double): Double {
    if b == SIGN then 0 else b
  }

  /** Set the top bit of a non-negative pattern; complement a negative one. */
  function Ordered(b: Double): Double {
    var bits := Canonical(b);
    if bits < SIGN then bits + SIGN else ALL_ONES - bits
  }

  /** `u64::to_be_bytes`, at any width. */
  function BigEndian(x: nat, width: nat): (bs: Bytes)
    ensures |bs| == width
  {
    if width == 0 then [] else BigEndian(x / 256, width - 1) + [x % 256]
  }

  function EncodeF64(b: Double): (key: Bytes)
    ensures |key| == 8
  {
    BigEndian(Ordered(b), 8)
  }

  // ---- byte-lexical order is numeric order --------------------------------

  lemma {:induction false} LessAppend(a: Bytes, b: Bytes, x: Byte, y: Byte)
    requires |a| == |b|
    ensures Less(a + [x], b + [y]) <==> (Less(a, b) || (a == b && x < y))
  {
    if a == [] {
    } else {
      assert (a + [x])[1..] == a[1..] + [x] && (b + [y])[1..] == b[1..] + [y];
      LessAppend(a[1..], b[1..], x, y);
      LessIrreflexive(a);
      assert a == [a[0]] + a[1..] && b == [b[0]] + b[1..];
    }
  }

  lemma {:induction false} BigEndianOrder(x: nat, y: nat, width: nat)
    requires x < Range(width) && y < Range(width)
    ensures Less(BigEndian(x, width), BigEndian(y, width)) <==> x < y
    ensures BigEndian(x, width) == BigEndian(y, width) <==> x == y
  {
    if width > 0 {
      BigEndianOrder(x / 256, y / 256, width - 1);
      var a, b := BigEndian(x / 256, width - 1), BigEndian(y / 256, width - 1);
      LessAppend(a, b, x % 256, y % 256);
      LessIrreflexive(a);
      assert (a + [x % 256])[..width - 1] == a && (b + [y % 256])[..width - 1] == b;
      assert (a + [x % 256])[width - 1] == x % 256 && (b + [y % 256])[width - 1] == y % 256;
    }
  }

  // ---- magnitudes grow with the pattern -----------------------------------

  lemma {:induction false} Pow2Monotone(m: nat, n: nat)
    requires m <= n
    ensures Pow2(m) <= Pow2(n)
  {
    if m < n { Pow2Monotone(m, n - 1); }
  }

  lemma TimesMonotone(x: nat, y: nat, q: nat)
    requires x < y && q > 0
    ensures x * q < y * q
  {}

  /** A larger exponent outweighs any fraction. */
  lemma ScaledByExponent(hidden: nat, ea: nat, fa: nat, eb: nat, fb: nat)
    requires ea < eb && fa < hidden
    ensures Scaled(hidden, ea, fa) < Scaled(hidden, eb, fb)
  {
    var p := Pow2(eb - 1);
    if ea > 0 {
      TimesMonotone(hidden + fa, 2 * hidden, Pow2(ea - 1));
      Pow2Monotone(ea, eb - 1);
      assert 2 * hidden * Pow2(ea - 1) == hidden * Pow2(ea);
      TimesAtMost(Pow2(ea), p, hidden);
    } else {
      TimesAtMost(1, p, hidden);
    }
    assert fb * p >= 0;
    assert (hidden + fb) * p == hidden * p + fb * p;
  }

  lemma TimesAtMost(x: nat, y: nat, q: nat)
    requires x <= y
    ensures q * x <= q * y
  {
    assert q * y == q * x + q * (y - x);
  }

  lemma ScaledByFraction(hidden: nat, e: nat, fa: nat, fb: nat)
    requires fa < fb
    ensures Scaled(hidden, e, fa) < Scaled(hidden, e, fb)
  {
    if e > 0 { TimesMonotone(hidden + fa, hidden + fb, Pow2(e - 1)); }
  }

  /** The pattern without its sign, as exponent and fraction. */
  lemma Fields(b: Double)
    ensures b == (if Negative(b) then SIGN else 0) + Exponent(b) * MANTISSA + Fraction(b)
  {
    var q := b / MANTISSA;
    assert q < 4096;
    assert q % 2048 == if q < 2048 then q else q - 2048;
    assert b == q * MANTISSA + Fraction(b);
  }

  /** Among patterns of one sign, the magnitude orders as the pattern does. */
  lemma MagnitudeOrder(a: Double, b: Double)
    requires Negative(a) == Negative(b) && a < b
    ensures Magnitude(a) < Magnitude(b) && Exponent(a) <= Exponent(b)
  {
    Fields(a);
    Fields(b);
    if Exponent(a) < Exponent(b) {
      ScaledByExponent(MANTISSA, Exponent(a), Fraction(a), Exponent(b), Fraction(b));
    } else {
      assert Exponent(a) == Exponent(b);
      ScaledByFraction(MANTISSA, Exponent(a), Fraction(a), Fraction(b));
    }
  }

  lemma ZeroMagnitude(b: Double)
    ensures Magnitude(b) == 0 <==> b == 0 || b == SIGN
  {
    Fields(b);
    if Exponent(b) > 0 { TimesMonotone(0, MANTISSA + Fraction(b), Pow2(Exponent(b) - 1)); }
  }

  lemma OrderedOrder(a: Double, b: Double)
    requires !IsNaN(a) && !IsNaN(b)
    requires Ordered(a) < Ordered(b)
    ensures NumLess(Value(a), Value(b))
  {
    ZeroMagnitude(a);
    ZeroMagnitude(b);
    Fields(a);
    Fields(b);
    if Negative(a) == Negative(b) {
      if a < b { MagnitudeOrder(a, b); }
      if b < a { MagnitudeOrder(b, a); }
    }
  }

  lemma OrderedEqual(a: Double, b: Double)
    requires !IsNaN(a) && !IsNaN(b)
    requires Ordered(a) == Ordered(b)
    ensures Value(a) == Value(b)
  {
    ZeroMagnitude(a);
    ZeroMagnitude(b);
  }

  /** The order embedding: keys compare exactly as the numbers do, with both zeros
      sharing one key. */
  lemma OrderEmbedding(a: Double, b: Double)
    requires !IsNaN(a) && !IsNaN(b)
    ensures Less(EncodeF64(a), EncodeF64(b)) <==> NumLess(Value(a), Value(b))
    ensures EncodeF64(a) == EncodeF64(b) <==> Value(a) == Value(b)
  {
    assert Range(8) == ALL_ONES + 1;
    BigEndianOrder(Ordered(a), Ordered(b), 8);
    if Ordered(a) < Ordered(b) {
      OrderedOrder(a, b);
    } else if Ordered(b) < Ordered(a) {
      OrderedOrder(b, a);
    } else {
      OrderedEqual(a, b);
    }
  }

  lemma {:induction false} Pow2Sum(m: nat, n: nat)
    ensures Pow2(m + n) == Pow2(m) * Pow2(n)
  {
    if n > 0 {
      Pow2Sum(m, n - 1);
      assert Pow2(m) * (2 * Pow2(n - 1)) == 2 * (Pow2(m) * Pow2(n - 1));
    }
  }

  lemma HiddenBit()
    ensures Pow2(52) == MANTISSA
  {
    var n: nat := 13;
    assert Pow2(n) == 0x2000;
    Pow2Sum(n, n);
    Pow2Sum(n + n, n + n);
  }

  /** One, minus one, the two zeros, the smallest number and the infinities. */
  lemma KnownDoubles()
    ensures Value(0x3FF0_0000_0000_0000) == Fin(Pow2(1074)) && Value(0xBFF0_0000_0000_0000) == Fin(0 - Pow2(1074))
    ensures Value(0) == Value(SIGN) == Fin(0) && Value(1) == Fin(1)
    ensures Value(0x7FF0_0000_0000_0000) == PosInf && Value(0xFFF0_0000_0000_0000) == NegInf
  {
    hide Pow2;
    HiddenBit();
    Pow2Sum(52, 1022);
  }
}
