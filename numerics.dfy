// Numeric vocabulary shared by the QSTEM model: C-style integer
// conversions, 32-bit unsigned wrap-around, round-half-even, and
// complex numbers over exact reals.

module Numerics {

  datatype Option<T> = None | Some(value: T)

  /** Largest integer not above x (C `floor`, followed by a cast). */
  function Floor(x: real): (r: int)
    ensures r as real <= x < r as real + 1.0
  {
    x.Floor
  }

  /** Smallest integer not below x (C `ceil`, followed by a cast). */
  function Ceil(x: real): (r: int)
    ensures x <= r as real < x + 1.0
  {
    -((-x).Floor)
  }

  /** A C cast of a floating value to an integer: truncation toward zero. */
  function Trunc(x: real): (r: int)
    ensures 0.0 <= x ==> r == Floor(x)
    ensures x < 0.0 ==> r == Ceil(x)
    ensures -1.0 < x - r as real < 1.0
  {
    if x >= 0.0 then x.Floor else -((-x).Floor)
  }

  /** C integer division: the quotient truncated toward zero. */
  function CDiv(a: int, b: int): (q: int)
    requires b != 0
    ensures 0 <= a && 0 < b ==> q == a / b
    ensures a < 0 && 0 < b ==> q == -((-a) / b)
  {
    if a >= 0 && b > 0 then a / b
    else if a >= 0 then -(a / -b)
    else if b > 0 then -((-a) / b)
    else (-a) / (-b)
  }

  /** C remainder: it takes the sign of the dividend. */
  function CMod(a: int, b: int): (m: int)
    requires b != 0
    ensures a == b * CDiv(a, b) + m
    ensures 0 <= a ==> 0 <= m
    ensures 0 <= a && 0 < b ==> m == a % b
  {
    a - b * CDiv(a, b)
  }

  const TwoTo32: int := 0x1_0000_0000

  /** The value an `unsigned` (32-bit) variable holds after being assigned x. */
  function U32(x: int): (u: int)
    ensures 0 <= u < TwoTo32
    ensures 0 <= x < TwoTo32 ==> u == x
    ensures -TwoTo32 <= x < 0 ==> u == x + TwoTo32
  {
    x % TwoTo32
  }

  /** Adding to an unsigned variable wraps the same way as adding to the
      unwrapped value. */
  lemma U32Add(a: int, b: int)
    ensures U32(U32(a) + b) == U32(a + b)
  {
    var q := a / TwoTo32;
    assert a == q * TwoTo32 + U32(a);
    ShiftMod(U32(a) + b, q);
  }

  lemma ShiftMod(x: int, q: int)
    ensures (x + q * TwoTo32) % TwoTo32 == x % TwoTo32
  {
    var r := x % TwoTo32;
    var d := x / TwoTo32;
    assert x + q * TwoTo32 == (d + q) * TwoTo32 + r;
  }

  /** C `rint` in the default rounding mode: to the nearest integer, ties to even. */
  function RoundHalfEven(x: real): (r: int)
    ensures (r as real - x) <= 0.5 && (x - r as real) <= 0.5
    ensures x - Floor(x) as real == 0.5 ==> r % 2 == 0
  {
    var f := x.Floor;
    var frac := x - f as real;
    if frac < 0.5 then f
    else if frac > 0.5 then f + 1
    else if f % 2 == 0 then f else f + 1
  }

  /** Multiplying by a positive factor keeps an order. */
  lemma MulLe(x: real, y: real, d: real)
    requires x <= y && d > 0.0
    ensures x * d <= y * d
  {
  }

  lemma MulLt(x: real, y: real, d: real)
    requires x < y && d > 0.0
    ensures x * d < y * d
  {
  }

  /** The value of pi the sources use (M_PI of the C library). */
  const Pi: real := 3.14159265358979323846

  function Min(a: int, b: int): int { if a < b then a else b }
  function Max(a: int, b: int): int { if a < b then b else a }

  // ---------------------------------------------------------------- complex

  /** A complex sample; real and imaginary parts as exact reals. */
  datatype Complex = Complex(re: real, im: real)

  const Zero: Complex := Complex(0.0, 0.0)

  function Add(a: Complex, b: Complex): Complex
  {
    Complex(a.re + b.re, a.im + b.im)
  }

  function Mul(a: Complex, b: Complex): Complex
  {
    Complex(a.re * b.re - a.im * b.im, a.re * b.im + a.im * b.re)
  }

  function Scale(s: real, a: Complex): Complex
  {
    Complex(s * a.re, s * a.im)
  }

  /** Squared modulus re^2 + im^2 (the pixel intensity). */
  function Norm2(a: Complex): (n: real)
    ensures n >= 0.0
  {
    a.re * a.re + a.im * a.im
  }

  lemma Norm2OfScale(s: real, a: Complex)
    ensures Norm2(Scale(s, a)) == s * s * Norm2(a)
  {
    calc {
      Norm2(Scale(s, a));
      (s * a.re) * (s * a.re) + (s * a.im) * (s * a.im);
      s * s * (a.re * a.re) + s * s * (a.im * a.im);
    }
  }

  /** The modulus of a product is the product of the moduli. */
  lemma Norm2OfMul(a: Complex, b: Complex)
    ensures Norm2(Mul(a, b)) == Norm2(a) * Norm2(b)
  {
    var p, q, r, s := a.re, a.im, b.re, b.im;
    calc {
      Norm2(Mul(a, b));
      (p * r - q * s) * (p * r - q * s) + (p * s + q * r) * (p * s + q * r);
      { assert (p * r - q * s) * (p * r - q * s) == p * p * r * r - 2.0 * p * q * r * s + q * q * s * s;
        assert (p * s + q * r) * (p * s + q * r) == p * p * s * s + 2.0 * p * q * r * s + q * q * r * r; }
      p * p * r * r + q * q * s * s + p * p * s * s + q * q * r * r;
      (p * p + q * q) * (r * r + s * s);
    }
  }

  /** A 2D array as a sequence of rows. */
  function Snapshot(a: array2<Complex>): (m: seq<seq<Complex>>)
    reads a
    ensures |m| == a.Length0 && forall i :: 0 <= i < a.Length0 ==> |m[i]| == a.Length1
    ensures forall i, j {:trigger m[i][j]} :: 0 <= i < a.Length0 && 0 <= j < a.Length1 ==> m[i][j] == a[i, j]
  {
    seq(a.Length0, i requires 0 <= i < a.Length0 reads a =>
      seq(a.Length1, j requires 0 <= j < a.Length1 reads a => a[i, j]))
  }
}
