// The convergent probe (libs/wavefunctions/wave_convergent.cpp, FormProbe):
// the objective aperture is drawn in Fourier space with the aberration phase,
// the wave is transformed to real space, optionally damped by a Gaussian and
// by the annular illumination aperture (AIS), normalised to unit intensity,
// and the extremes of its real and imaginary parts are recorded.
// The aberration phase chi, cos, sin, sqrt, exp and the transforms are
// parameters (ProbePhysics).

module Probe {
  import opened Numerics
  import opened WaveBase
  import CellLayout

  /** Whether the sixth-order aberrations enter chi, and the a_6,2
      coefficient they use. */
  datatype Sixth = Sixth(enabled: bool, a62: real)

  /** chi(kx, ky, sixth) is the full aberration phase of the signed
      frequency (kx, ky), shift term included. */
  datatype ProbePhysics = ProbePhysics(
    ft: Transform,
    ift: Transform,
    cos: real -> real,
    sin: real -> real,
    sqrt: real -> real,
    exp: real -> real,
    chi: (real, real, Sixth) -> real)

  ghost predicate TrigOk(ph: ProbePhysics)
  {
    forall t :: ph.cos(t) * ph.cos(t) + ph.sin(t) * ph.sin(t) == 1.0
  }

  ghost predicate SqrtOk(ph: ProbePhysics)
  {
    forall x :: x >= 0.0 ==> ph.sqrt(x) >= 0.0 && ph.sqrt(x) * ph.sqrt(x) == x
  }

  /** The configured probe (m_dx, m_dy, m_alpha, m_ismoth, m_gaussFlag,
      m_gaussScale, m_aAIS and the sixth-order coefficients a_6,6, a_6,4 and
      C_5 checked by FormProbe). */
  datatype ProbeConfig = ProbeConfig(
    dx: real, dy: real, alpha: real,
    smooth: bool, gaussFlag: bool, gaussScale: real, aAIS: real,
    a66: real, a64: real, c5: real)

  // ---------------------------------------------------------------- frequencies

  /** The signed frequency index of column i of n: i up to n/2, i - n
      above; reduced modulo n it gives the column back. */
  function SignedFreq(i: int, n: int): (k: int)
    requires 0 <= i < n
    ensures k == i || k == i - n
    ensures -(n / 2) <= k <= n / 2
    ensures (k + n) % n == i
  {
    ModOfShift(i, n);
    if i > n / 2 then i - n else i
  }

  lemma ModOfShift(i: int, n: int)
    requires 0 <= i < n
    ensures i % n == i && (i + n) % n == i
  {
    CellLayout.DigitsOf(i, n, 0, i);
    CellLayout.DigitsOf(i + n, n, 1, i);
  }

  /** As written the difference i - m_ny is taken in unsigned arithmetic
      before the conversion to double. */
  function SignedFreqAsWritten(i: int, n: int): int
    requires 0 <= i < n < TwoTo32
  {
    if i > n / 2 then U32(i - n) else i
  }

  /** As written no frequency index is negative: every index above n/2 turns
      into i - n + 2^32, so the negative half of the spectrum is placed far
      outside the aperture. */
  lemma SignedFreqAsWrittenNeverNegative(i: int, n: int)
    requires 0 <= i < n < TwoTo32
    ensures SignedFreqAsWritten(i, n) >= 0
    ensures i > n / 2 ==> SignedFreqAsWritten(i, n) == SignedFreq(i, n) + TwoTo32
    ensures SignedFreqAsWritten(3, 4) == TwoTo32 - 1 && SignedFreq(3, 4) == -1
  {
  }

  /** Hence, for any image narrower than 2^31 whose aperture and rim lie
      below the frequency of index n, every index above n/2 is placed
      outside the aperture as written, whatever the other axis holds. */
  lemma WrappedFrequencyOutsideAperture(cfg: ProbeConfig, nx: int, ny: int, i: int, ky: int,
                                        smooth: bool, k2max: real, rim: real)
    requires cfg.dx > 0.0 && cfg.dy > 0.0 && 0 < nx <= TwoTo32 / 2 && ny > 0 && nx / 2 < i < nx
    requires rim >= 0.0 && k2max + rim < K2(cfg, nx, ny, nx, 0)
    ensures ZoneOf(smooth, K2(cfg, nx, ny, SignedFreqAsWritten(i, nx), ky), k2max, rim) == Outside
  {
    var k := SignedFreqAsWritten(i, nx);
    assert k >= nx;
    var rx := 1.0 / Ax(cfg, nx);
    var ry := 1.0 / By(cfg, ny);
    SquareGrows(k as real, nx as real, rx * rx);
    NonNegTerm(ky as real, ry * ry);
    assert K2(cfg, nx, ny, k, ky) == k as real * k as real * (rx * rx) + ky as real * ky as real * (ry * ry);
    assert K2(cfg, nx, ny, nx, 0) == nx as real * nx as real * (rx * rx) + 0 as real * 0 as real * (ry * ry);
  }

  lemma SquareGrows(a: real, b: real, c: real)
    requires a >= b >= 0.0 && c >= 0.0
    ensures a * a * c >= b * b * c
  {
    assert a * a >= b * b;
  }

  lemma NonNegTerm(a: real, c: real)
    requires c >= 0.0
    ensures a * a * c >= 0.0
  {
  }

  /** The sixth-order test as written: (a66 > 0) || (a64 > 0) || (a62 = 0)
      || (C5 != 0). When a66 and a64 are not positive the assignment runs:
      a62 becomes 0 and the test goes on with C5 alone. */
  function SixthAsWritten(cfg: ProbeConfig, a62: real): Sixth
  {
    if cfg.a66 > 0.0 || cfg.a64 > 0.0 then Sixth(true, a62)
    else Sixth(cfg.c5 != 0.0, 0.0)
  }

  /** The test as the other orders write it: any of the coefficients set. */
  function SixthOrder(cfg: ProbeConfig, a62: real): Sixth
  {
    Sixth(cfg.a66 > 0.0 || cfg.a64 > 0.0 || a62 > 0.0 || cfg.c5 != 0.0, a62)
  }

  /** A probe whose only sixth-order aberration is a_6,2 loses it as
      written, and m_a62 is overwritten with 0 for good. */
  lemma SixthAsWrittenDropsA62(cfg: ProbeConfig, a62: real)
    requires cfg.a66 <= 0.0 && cfg.a64 <= 0.0 && cfg.c5 == 0.0 && a62 > 0.0
    ensures SixthAsWritten(cfg, a62) == Sixth(false, 0.0)
    ensures SixthOrder(cfg, a62) == Sixth(true, a62)
  {
  }

  // ---------------------------------------------------------------- aperture

  /** The quantities FormProbe derives from the configuration. */
  function Ax(cfg: ProbeConfig, nx: int): real { nx as real * cfg.dx }
  function By(cfg: ProbeConfig, ny: int): real { ny as real * cfg.dy }

  /** The squared aperture radius (sin(alpha) / lambda)^2. */
  function K2Max(ph: ProbePhysics, cfg: ProbeConfig, wavlen: real): real
    requires wavlen != 0.0
  {
    var k := ph.sin(0.001 * cfg.alpha) / wavlen;
    k * k
  }

  /** The squared frequency of the signed index (kx, ky). */
  function K2(cfg: ProbeConfig, nx: int, ny: int, kx: int, ky: int): real
    requires cfg.dx > 0.0 && cfg.dy > 0.0 && nx > 0 && ny > 0
  {
    var rx := 1.0 / Ax(cfg, nx);
    var ry := 1.0 / By(cfg, ny);
    kx as real * kx as real * (rx * rx) + ky as real * ky as real * (ry * ry)
  }

  /** The width of the aperture's rim: the squared diagonal of a Fourier
      pixel. */
  function RimWidth(cfg: ProbeConfig, nx: int, ny: int): real
    requires cfg.dx > 0.0 && cfg.dy > 0.0 && nx > 0 && ny > 0
  {
    var rx := 1.0 / Ax(cfg, nx);
    var ry := 1.0 / By(cfg, ny);
    rx * rx + ry * ry
  }

  function Abs(x: real): real { if x < 0.0 then -x else x }

  /** Where a frequency falls: on the smoothed rim, inside, or outside. */
  datatype Zone = Rim | Inside | Outside

  function ZoneOf(smooth: bool, k2: real, k2max: real, rim: real): (z: Zone)
    ensures z == Outside <==> k2 > k2max && !(smooth && Abs(k2 - k2max) <= rim)
    ensures z == Rim ==> smooth && k2max - rim <= k2 <= k2max + rim
  {
    if smooth && Abs(k2 - k2max) <= rim then Rim
    else if k2 <= k2max then Inside
    else Outside
  }

  /** scale · e^(i chi). */
  function Phasor(ph: ProbePhysics, scale: real, chi: real): Complex
  {
    Complex(scale * ph.cos(chi), scale * ph.sin(chi))
  }

  /** The aperture value of a frequency with phase chi and amplitude scale:
      half on the rim, full inside, zero outside. */
  function ApertureValue(ph: ProbePhysics, z: Zone, scale: real, chi: real): (v: Complex)
    ensures z == Inside ==> v == Phasor(ph, scale, chi)
    ensures z == Rim ==> v == Scale(0.5, Phasor(ph, scale, chi))
    ensures z == Outside ==> v == Zero
  {
    match z
    case Rim => Complex(0.5 * scale * ph.cos(chi), 0.5 * scale * ph.sin(chi))
    case Inside => Complex(scale * ph.cos(chi), scale * ph.sin(chi))
    case Outside => Zero
  }

  /** The rim as written carries minus the sine the inside carries. */
  function RimValueAsWritten(ph: ProbePhysics, scale: real, chi: real): Complex
  {
    Complex(0.5 * scale * ph.cos(chi), -0.5 * scale * ph.sin(chi))
  }

  /** As written the rim holds half the complex conjugate of the inside
      value, not half of it; the two differ wherever sin(chi) is not 0. */
  lemma RimConjugatedAsWritten(ph: ProbePhysics, scale: real, chi: real)
    ensures RimValueAsWritten(ph, scale, chi) ==
      Scale(0.5, Complex(ApertureValue(ph, Inside, scale, chi).re, -ApertureValue(ph, Inside, scale, chi).im))
    ensures ApertureValue(ph, Rim, scale, chi) == Scale(0.5, ApertureValue(ph, Inside, scale, chi))
    ensures scale != 0.0 && ph.sin(chi) != 0.0 ==> RimValueAsWritten(ph, scale, chi) != ApertureValue(ph, Rim, scale, chi)
  {
    if scale != 0.0 && ph.sin(chi) != 0.0 {
      assert 0.5 * scale * ph.sin(chi) != 0.0;
    }
  }

  /** Inside the aperture every frequency has intensity scale^2, on the rim
      a quarter of that, outside none. */
  lemma ApertureIntensity(ph: ProbePhysics, z: Zone, scale: real, chi: real)
    requires TrigOk(ph)
    ensures z == Inside ==> Norm2(ApertureValue(ph, z, scale, chi)) == scale * scale
    ensures z == Rim ==> Norm2(ApertureValue(ph, z, scale, chi)) == 0.25 * scale * scale
    ensures z == Outside ==> Norm2(ApertureValue(ph, z, scale, chi)) == 0.0
  {
    var u := Complex(ph.cos(chi), ph.sin(chi));
    assert Norm2(u) == 1.0;
    match z
    case Inside =>
      assert Phasor(ph, scale, chi) == Scale(scale, u);
      Norm2OfScale(scale, u);
    case Rim =>
      assert Scale(0.5, Phasor(ph, scale, chi)) == Scale(0.5 * scale, u);
      Norm2OfScale(0.5 * scale, u);
    case Outside =>
  }

  /** The aperture entry of pixel (ix, iy) in Fourier space. */
  function ApertureCell(ph: ProbePhysics, cfg: ProbeConfig, sixth: Sixth, nx: int, ny: int, wavlen: real, ix: int, iy: int): Complex
    requires cfg.dx > 0.0 && cfg.dy > 0.0 && 0 <= ix < nx && 0 <= iy < ny && wavlen != 0.0
  {
    var kx := SignedFreq(ix, nx);
    var ky := SignedFreq(iy, ny);
    var z := ZoneOf(cfg.smooth, K2(cfg, nx, ny, kx, ky), K2Max(ph, cfg, wavlen), RimWidth(cfg, nx, ny));
    var root := ph.sqrt(nx as real * ny as real);
    var scale := if root == 0.0 then 0.0 else 1.0 / root;
    ApertureValue(ph, z, scale, ph.chi(kx as real, ky as real, sixth))
  }

  // ---------------------------------------------------------------- real-space damping

  /** The Gaussian's exponent numerator -((ix - nx/2)^2 + (iy - ny/2)^2). */
  function GaussNumerator(nx: int, ny: int, ix: int, iy: int): int
  {
    -((ix - nx / 2) * (ix - nx / 2) + (iy - ny / 2) * (iy - ny / 2))
  }

  /** As written the numerator is computed in unsigned arithmetic, unary
      minus included. */
  function GaussNumeratorAsWritten(nx: int, ny: int, ix: int, iy: int): int
  {
    var a := U32(U32(ix - nx / 2) * U32(ix - nx / 2));
    var b := U32(U32(iy - ny / 2) * U32(iy - ny / 2));
    U32(-U32(a + b))
  }

  /** As written the exponent is never negative: off the centre it is 2^32
      above the intended one, so the factor grows with the distance term
      shifted by 2^32 instead of decaying. */
  lemma GaussNumeratorAsWrittenShifted(nx: int, ny: int, ix: int, iy: int)
    requires 0 < -GaussNumerator(nx, ny, ix, iy) < TwoTo32
    ensures GaussNumeratorAsWritten(nx, ny, ix, iy) == GaussNumerator(nx, ny, ix, iy) + TwoTo32
    ensures GaussNumeratorAsWritten(nx, ny, ix, iy) > 0
  {
    var p := ix - nx / 2;
    var q := iy - ny / 2;
    SquareWraps(p);
    SquareWraps(q);
    U32Add(p * p, q * q);
    assert U32(U32(p * p) + U32(q * q)) == U32(p * p + q * q) by {
      U32Add(p * p, U32(q * q));
      U32Add(q * q, p * p);
    }
  }

  /** The square of a wrapped value wraps to the wrapped square. */
  lemma SquareWraps(p: int)
    ensures U32(U32(p) * U32(p)) == U32(p * p)
  {
    var u := U32(p);
    var k := (p - u) / TwoTo32;
    assert p - u == k * TwoTo32 by {
      assert (p - u) % TwoTo32 == 0 by { U32IsMod(p); }
    }
    assert u * u == p * p + (-2 * p * k + k * k * TwoTo32) * TwoTo32;
    U32Shift(p * p, -2 * p * k + k * k * TwoTo32);
  }

  /** U32 is the Euclidean remainder modulo 2^32. */
  lemma U32IsMod(x: int)
    ensures U32(x) == x % TwoTo32
  {
  }

  lemma U32Shift(x: int, q: int)
    ensures U32(x + q * TwoTo32) == U32(x)
  {
    U32IsMod(x);
    U32IsMod(x + q * TwoTo32);
    ShiftMod(x, q);
  }

  /** The Gaussian factor of pixel (ix, iy). */
  function GaussFactor(ph: ProbePhysics, cfg: ProbeConfig, nx: int, ny: int, ix: int, iy: int): real
    requires cfg.gaussScale != 0.0 && nx != 0
  {
    ph.exp(GaussNumerator(nx, ny, ix, iy) as real / ((nx * nx) as real * cfg.gaussScale))
  }

  /** The smoothing width of the AIS edge: five times the mean resolution. */
  function Edge(ph: ProbePhysics, cfg: ProbeConfig): real
  {
    5.0 * ph.sqrt(0.5 * (cfg.dx * cfg.dx + cfg.dy * cfg.dy))
  }

  /** The AIS damping of a pixel whose distance past the aperture's soft
      edge is delta. */
  function AisValue(ph: ProbePhysics, delta: real, edge: real, c: Complex): Complex
    requires edge > 0.0
  {
    if delta > 0.0 then Zero
    else if delta >= -edge then Scale(0.5 * (1.0 - ph.cos(Pi * delta / edge)), c)
    else c
  }

  /** The AIS aperture clears the pixels beyond it, leaves those well inside
      unchanged and never raises a pixel's intensity. */
  lemma AisNeverBrightens(ph: ProbePhysics, delta: real, edge: real, c: Complex)
    requires edge > 0.0 && TrigOk(ph)
    ensures delta > 0.0 ==> AisValue(ph, delta, edge, c) == Zero
    ensures delta < -edge ==> AisValue(ph, delta, edge, c) == c
    ensures Norm2(AisValue(ph, delta, edge, c)) <= Norm2(c)
  {
    if delta <= 0.0 && delta >= -edge {
      var t := Pi * delta / edge;
      assert ph.cos(t) * ph.cos(t) + ph.sin(t) * ph.sin(t) == 1.0;
      CosBounded(ph.cos(t), ph.sin(t));
      DampingNeverBrightens(0.5 * (1.0 - ph.cos(t)), c);
    }
  }

  /** A cosine is within [-1, 1]. */
  lemma CosBounded(c: real, s: real)
    requires c * c + s * s == 1.0
    ensures -1.0 <= c <= 1.0
  {
  }

  lemma NonNegProduct(x: real, y: real)
    requires x >= 0.0 && y >= 0.0
    ensures x * y >= 0.0
  {
  }

  /** Scaling by a factor in [0, 1] never raises the intensity. */
  lemma DampingNeverBrightens(f: real, c: Complex)
    requires 0.0 <= f <= 1.0
    ensures Norm2(Scale(f, c)) <= Norm2(c)
  {
    Norm2OfScale(f, c);
    SquareAtMostOne(f);
    ShrinkBy(f * f, Norm2(c));
  }

  lemma SquareAtMostOne(f: real)
    requires 0.0 <= f <= 1.0
    ensures 0.0 <= f * f <= 1.0
  {
    if f > 0.0 {
      MulLe(f, 1.0, f);
      assert f * f <= 1.0 * f;
      MulLe(0.0, f, f);
      assert 0.0 * f <= f * f;
    }
  }

  lemma ShrinkBy(g: real, n: real)
    requires 0.0 <= g <= 1.0 && n >= 0.0
    ensures g * n <= n
  {
    if n > 0.0 {
      MulLe(g, 1.0, n);
    }
  }

  /** The AIS value of pixel (ix, iy): its distance from the probe centre
      (ax - nx/2 dx, by - ny/2 dy) against half the aperture. */
  function AisCell(ph: ProbePhysics, cfg: ProbeConfig, nx: int, ny: int, ix: int, iy: int, c: Complex): Complex
    requires Edge(ph, cfg) > 0.0
  {
    var cx := Ax(cfg, nx) - (nx / 2) as real * cfg.dx;
    var cy := By(cfg, ny) - (ny / 2) as real * cfg.dy;
    var x := ix as real * cfg.dx - cx;
    var y := iy as real * cfg.dy - cy;
    var delta := ph.sqrt(x * x + y * y) - 0.5 * cfg.aAIS + Edge(ph, cfg);
    AisValue(ph, delta, Edge(ph, cfg), c)
  }

  // ---------------------------------------------------------------- intensity

  /** Sum of the intensities of row[0..n). */
  function RowIntensity(row: seq<Complex>, n: nat): (r: real)
    requires n <= |row|
    ensures r >= 0.0
  {
    if n == 0 then 0.0 else RowIntensity(row, n - 1) + Norm2(row[n - 1])
  }

  /** Sum of the intensities of rows [0..k) of m, each ny long. */
  function GridIntensity(m: seq<seq<Complex>>, ny: nat, k: nat): (r: real)
    requires k <= |m| && forall i :: 0 <= i < |m| ==> |m[i]| == ny
    ensures r >= 0.0
  {
    if k == 0 then 0.0 else GridIntensity(m, ny, k - 1) + RowIntensity(m[k - 1], ny)
  }

  function Total(m: seq<seq<Complex>>, nx: nat, ny: nat): real
    requires Shaped(m, nx, ny)
  {
    GridIntensity(m, ny, nx)
  }

  function ScaleGrid(s: real, m: seq<seq<Complex>>, nx: nat, ny: nat): (r: seq<seq<Complex>>)
    requires Shaped(m, nx, ny)
    ensures Shaped(r, nx, ny)
    ensures forall i, j :: 0 <= i < nx && 0 <= j < ny ==> r[i][j] == Scale(s, m[i][j])
  {
    seq(nx, i requires 0 <= i < nx => seq(ny, j requires 0 <= j < ny => Scale(s, m[i][j])))
  }

  function Plus(a: real, b: real): real { a + b }

  /** g maps sums to sums (and zero to zero). */
  ghost predicate Additive(g: real -> real)
  {
    g(0.0) == 0.0 && forall a, b :: g(Plus(a, b)) == g(a) + g(b)
  }

  /** Multiplying by a constant is additive. */
  lemma ScalingAdditive(f: real)
    ensures Additive(x => f * x)
  {
  }

  /** Mapping every pixel's intensity through an additive g maps a row's
      intensity through g. */
  lemma {:induction false} RowIntensityMaps(g: real -> real, row: seq<Complex>, srow: seq<Complex>, n: nat)
    requires n <= |row| && n <= |srow| && Additive(g)
    requires forall j :: 0 <= j < n ==> Norm2(srow[j]) == g(Norm2(row[j]))
    ensures RowIntensity(srow, n) == g(RowIntensity(row, n))
  {
    if n > 0 {
      RowIntensityMaps(g, row, srow, n - 1);
      assert g(Plus(RowIntensity(row, n - 1), Norm2(row[n - 1]))) == g(RowIntensity(row, n - 1)) + g(Norm2(row[n - 1]));
    }
  }

  /** The same for the first k rows of a grid. */
  lemma {:induction false} GridIntensityMaps(g: real -> real, m: seq<seq<Complex>>, sm: seq<seq<Complex>>, nx: nat, ny: nat, k: nat)
    requires Shaped(m, nx, ny) && Shaped(sm, nx, ny) && k <= nx && Additive(g)
    requires forall i, j :: 0 <= i < nx && 0 <= j < ny ==> Norm2(sm[i][j]) == g(Norm2(m[i][j]))
    ensures GridIntensity(sm, ny, k) == g(GridIntensity(m, ny, k))
  {
    if k > 0 {
      var i := k - 1;
      GridIntensityMaps(g, m, sm, nx, ny, i);
      RowIntensityMaps(g, m[i], sm[i], ny);
      assert g(Plus(GridIntensity(m, ny, i), RowIntensity(m[i], ny))) == g(GridIntensity(m, ny, i)) + g(RowIntensity(m[i], ny));
    }
  }

  /** Scaling a pixel by a square root of f multiplies its intensity by f. */
  lemma PixelsScale(ph: ProbePhysics, f: real, m: seq<seq<Complex>>, nx: nat, ny: nat)
    requires SqrtOk(ph) && Shaped(m, nx, ny) && f >= 0.0
    ensures forall i, j :: 0 <= i < nx && 0 <= j < ny ==>
      Norm2(ScaleGrid(ph.sqrt(f), m, nx, ny)[i][j]) == (x => f * x)(Norm2(m[i][j]))
  {
    var s := ph.sqrt(f);
    var sm := ScaleGrid(s, m, nx, ny);
    assert s * s == f;
    forall i, j | 0 <= i < nx && 0 <= j < ny
      ensures Norm2(sm[i][j]) == f * Norm2(m[i][j])
    {
      Norm2OfScale(s, m[i][j]);
    }
  }

  /** Scaling by sqrt(1 / sum) brings a wave of positive total intensity to
      total intensity one. */
  lemma NormalizedTotalIsOne(ph: ProbePhysics, m: seq<seq<Complex>>, nx: nat, ny: nat)
    requires SqrtOk(ph) && Shaped(m, nx, ny) && Total(m, nx, ny) > 0.0
    ensures Total(ScaleGrid(ph.sqrt(1.0 / Total(m, nx, ny)), m, nx, ny), nx, ny) == 1.0
  {
    var t := Total(m, nx, ny);
    var f := 1.0 / t;
    PixelsScale(ph, f, m, nx, ny);
    ScalingAdditive(f);
    GridIntensityMaps(x => f * x, m, ScaleGrid(ph.sqrt(f), m, nx, ny), nx, ny, nx);
    InverseTimes(t);
  }

  lemma InverseTimes(t: real)
    requires t > 0.0
    ensures (x => (1.0 / t) * x)(t) == 1.0
  {
  }

  /** The wave NormalizeProbe leaves: scaled to unit intensity, or left as
      it is when it is dark. */
  function Normalized(ph: ProbePhysics, m: seq<seq<Complex>>, nx: nat, ny: nat): (r: seq<seq<Complex>>)
    requires Shaped(m, nx, ny)
    ensures Shaped(r, nx, ny)
  {
    var t := Total(m, nx, ny);
    if t > 0.0 then ScaleGrid(ph.sqrt(1.0 / t), m, nx, ny) else m
  }

  // ---------------------------------------------------------------- the probe

  /** The probe FormProbe builds, step by step. */
  function ApertureGrid(ph: ProbePhysics, cfg: ProbeConfig, sixth: Sixth, nx: nat, ny: nat, wavlen: real): (r: seq<seq<Complex>>)
    requires cfg.dx > 0.0 && cfg.dy > 0.0 && wavlen != 0.0
    ensures Shaped(r, nx, ny)
    ensures forall i, j :: 0 <= i < nx && 0 <= j < ny ==> r[i][j] == ApertureCell(ph, cfg, sixth, nx, ny, wavlen, i, j)
  {
    seq(nx, i requires 0 <= i < nx => seq(ny, j requires 0 <= j < ny => ApertureCell(ph, cfg, sixth, nx, ny, wavlen, i, j)))
  }

  function GaussGrid(ph: ProbePhysics, cfg: ProbeConfig, m: seq<seq<Complex>>, nx: nat, ny: nat): (r: seq<seq<Complex>>)
    requires Shaped(m, nx, ny) && cfg.gaussScale != 0.0 && nx != 0
    ensures Shaped(r, nx, ny)
    ensures forall i, j :: 0 <= i < nx && 0 <= j < ny ==> r[i][j] == Scale(GaussFactor(ph, cfg, nx, ny, i, j), m[i][j])
  {
    seq(nx, i requires 0 <= i < nx => seq(ny, j requires 0 <= j < ny => Scale(GaussFactor(ph, cfg, nx, ny, i, j), m[i][j])))
  }

  function AisGrid(ph: ProbePhysics, cfg: ProbeConfig, m: seq<seq<Complex>>, nx: nat, ny: nat): (r: seq<seq<Complex>>)
    requires Shaped(m, nx, ny) && Edge(ph, cfg) > 0.0
    ensures Shaped(r, nx, ny)
    ensures forall i, j :: 0 <= i < nx && 0 <= j < ny ==> r[i][j] == AisCell(ph, cfg, nx, ny, i, j, m[i][j])
  {
    seq(nx, i requires 0 <= i < nx => seq(ny, j requires 0 <= j < ny => AisCell(ph, cfg, nx, ny, i, j, m[i][j])))
  }

  /** The real-space probe before normalisation. */
  function Damped(ph: ProbePhysics, cfg: ProbeConfig, sixth: Sixth, nx: nat, ny: nat, wavlen: real): (r: seq<seq<Complex>>)
    requires cfg.dx > 0.0 && cfg.dy > 0.0 && wavlen != 0.0 && nx > 0
    requires cfg.gaussFlag ==> cfg.gaussScale != 0.0
    requires cfg.aAIS > 0.0 ==> Edge(ph, cfg) > 0.0
    ensures Shaped(r, nx, ny)
  {
    var inReal := Transformed(ph.ift, ApertureGrid(ph, cfg, sixth, nx, ny, wavlen), nx, ny);
    var gauss := if cfg.gaussFlag then GaussGrid(ph, cfg, inReal, nx, ny) else inReal;
    if cfg.aAIS > 0.0 then AisGrid(ph, cfg, gauss, nx, ny) else gauss
  }

  /** The extremes of the real and imaginary parts of a wave. */
  datatype Range = Range(rmin: real, rmax: real, aimin: real, aimax: real)

  /** r bounds every pixel of a and each bound is some pixel's value. */
  ghost predicate IsRangeOf(r: Range, a: array2<Complex>)
    reads a
  {
    (forall i, j :: 0 <= i < a.Length0 && 0 <= j < a.Length1 ==>
      r.rmin <= a[i, j].re <= r.rmax && r.aimin <= a[i, j].im <= r.aimax) &&
    (exists i, j :: 0 <= i < a.Length0 && 0 <= j < a.Length1 && a[i, j].re == r.rmin) &&
    (exists i, j :: 0 <= i < a.Length0 && 0 <= j < a.Length1 && a[i, j].re == r.rmax) &&
    (exists i, j :: 0 <= i < a.Length0 && 0 <= j < a.Length1 && a[i, j].im == r.aimin) &&
    (exists i, j :: 0 <= i < a.Length0 && 0 <= j < a.Length1 && a[i, j].im == r.aimax)
  }

  /** The total intensity of a, summed row by row as FormProbe does. */
  method Intensity(a: array2<Complex>) returns (sum: real)
    ensures sum == Total(Snapshot(a), a.Length0, a.Length1)
  {
    ghost var m := Snapshot(a);
    sum := 0.0;
    var ix := 0;
    while ix < a.Length0
      invariant 0 <= ix <= a.Length0
      invariant sum == GridIntensity(m, a.Length1, ix)
    {
      var iy := 0;
      while iy < a.Length1
        invariant 0 <= iy <= a.Length1
        invariant sum == GridIntensity(m, a.Length1, ix) + RowIntensity(m[ix], iy)
      {
        sum := sum + (a[ix, iy].re * a[ix, iy].re + a[ix, iy].im * a[ix, iy].im);
        iy := iy + 1;
      }
      ix := ix + 1;
    }
  }

  /** The scan for the extremes, started from pixel [0][0], iy outer. */
  method Extremes(a: array2<Complex>) returns (r: Range)
    requires a.Length0 > 0 && a.Length1 > 0
    ensures IsRangeOf(r, a)
  {
    var rmin := a[0, 0].re;
    var rmax := rmin;
    var aimin := a[0, 0].im;
    var aimax := aimin;
    ghost var wRmin, wRmax, wAimin, wAimax := (0, 0), (0, 0), (0, 0), (0, 0);
    var iy := 0;
    while iy < a.Length1
      invariant 0 <= iy <= a.Length1
      invariant forall i, j :: 0 <= i < a.Length0 && 0 <= j < iy ==>
        rmin <= a[i, j].re <= rmax && aimin <= a[i, j].im <= aimax
      invariant 0 <= wRmin.0 < a.Length0 && 0 <= wRmin.1 < a.Length1 && a[wRmin.0, wRmin.1].re == rmin
      invariant 0 <= wRmax.0 < a.Length0 && 0 <= wRmax.1 < a.Length1 && a[wRmax.0, wRmax.1].re == rmax
      invariant 0 <= wAimin.0 < a.Length0 && 0 <= wAimin.1 < a.Length1 && a[wAimin.0, wAimin.1].im == aimin
      invariant 0 <= wAimax.0 < a.Length0 && 0 <= wAimax.1 < a.Length1 && a[wAimax.0, wAimax.1].im == aimax
    {
      var ix := 0;
      while ix < a.Length0
        invariant 0 <= ix <= a.Length0
        invariant forall i, j :: 0 <= i < a.Length0 && 0 <= j < iy ==>
          rmin <= a[i, j].re <= rmax && aimin <= a[i, j].im <= aimax
        invariant forall i :: 0 <= i < ix ==>
          rmin <= a[i, iy].re <= rmax && aimin <= a[i, iy].im <= aimax
        invariant 0 <= wRmin.0 < a.Length0 && 0 <= wRmin.1 < a.Length1 && a[wRmin.0, wRmin.1].re == rmin
        invariant 0 <= wRmax.0 < a.Length0 && 0 <= wRmax.1 < a.Length1 && a[wRmax.0, wRmax.1].re == rmax
        invariant 0 <= wAimin.0 < a.Length0 && 0 <= wAimin.1 < a.Length1 && a[wAimin.0, wAimin.1].im == aimin
        invariant 0 <= wAimax.0 < a.Length0 && 0 <= wAimax.1 < a.Length1 && a[wAimax.0, wAimax.1].im == aimax
      {
        var c := a[ix, iy];
        if c.re < rmin { rmin := c.re; wRmin := (ix, iy); }
        if c.re > rmax { rmax := c.re; wRmax := (ix, iy); }
        if c.im < aimin { aimin := c.im; wAimin := (ix, iy); }
        if c.im > aimax { aimax := c.im; wAimax := (ix, iy); }
        ix := ix + 1;
      }
      iy := iy + 1;
    }
    r := Range(rmin, rmax, aimin, aimax);
  }

  class ConvergentWave {
    /** The CBaseWave part. */
    const w: Wave
    const cfg: ProbeConfig
    /** m_a62 (FormProbe's test may write it). */
    var a62: real
    /** m_rmin, m_rmax, m_aimin, m_aimax. */
    var range: Range

    constructor (w: Wave, cfg: ProbeConfig, a62: real)
      ensures this.w == w && this.cfg == cfg && this.a62 == a62
    {
      this.w := w;
      this.cfg := cfg;
      this.a62 := a62;
      range := Range(0.0, 0.0, 0.0, 0.0);
    }

    predicate Ready(ph: ProbePhysics)
      reads this, w
    {
      w.Valid() && cfg.dx > 0.0 && cfg.dy > 0.0 && w.wavlen != 0.0 &&
      (cfg.gaussFlag ==> cfg.gaussScale != 0.0) && Edge(ph, cfg) > 0.0
    }

    /** The aperture loop, iy outer and ix inner. */
    method DrawAperture(ph: ProbePhysics, sixth: Sixth)
      requires Ready(ph)
      modifies w.data
      ensures Snapshot(w.data) == ApertureGrid(ph, cfg, sixth, w.nx, w.ny, w.wavlen)
    {
      var nx, ny := w.nx, w.ny;
      var c := cfg;
      var wl := w.wavlen;
      MapCells(w.data, (i, j, v) requires 0 <= i < nx && 0 <= j < ny => ApertureCell(ph, c, sixth, nx, ny, wl, i, j));
      SnapshotIs(w.data, ApertureGrid(ph, cfg, sixth, nx, ny, wl));
    }

    /** The Gaussian damping, when m_gaussFlag is set. */
    method DampGauss(ph: ProbePhysics)
      requires Ready(ph)
      modifies w.data
      ensures Snapshot(w.data) ==
        if cfg.gaussFlag then GaussGrid(ph, cfg, old(Snapshot(w.data)), w.nx, w.ny) else old(Snapshot(w.data))
    {
      if cfg.gaussFlag {
        ghost var m := Snapshot(w.data);
        var nx, ny := w.nx, w.ny;
        var c := cfg;
        MapCells(w.data, (i, j, v) => Scale(GaussFactor(ph, c, nx, ny, i, j), v));
        SnapshotIs(w.data, GaussGrid(ph, cfg, m, nx, ny));
      }
    }

    /** The AIS aperture, when m_aAIS is positive. */
    method DampAis(ph: ProbePhysics)
      requires Ready(ph)
      modifies w.data
      ensures Snapshot(w.data) ==
        if cfg.aAIS > 0.0 then AisGrid(ph, cfg, old(Snapshot(w.data)), w.nx, w.ny) else old(Snapshot(w.data))
    {
      if cfg.aAIS > 0.0 {
        ghost var m := Snapshot(w.data);
        var nx, ny := w.nx, w.ny;
        var c := cfg;
        MapCells(w.data, (i, j, v) => AisCell(ph, c, nx, ny, i, j, v));
        SnapshotIs(w.data, AisGrid(ph, cfg, m, nx, ny));
      }
    }

    /** Normalisation to unit intensity: the intensity is summed, every
        pixel is scaled by sqrt(1 / sum), and the intensity is summed again;
        the second sum is one. */
    method NormalizeProbe(ph: ProbePhysics) returns (after: real)
      requires w.Valid()
      modifies w.data
      ensures Snapshot(w.data) == Normalized(ph, old(Snapshot(w.data)), w.nx, w.ny)
      ensures SqrtOk(ph) && old(Total(Snapshot(w.data), w.nx, w.ny)) > 0.0 ==> after == 1.0
    {
      ghost var m := Snapshot(w.data);
      var sum := Intensity(w.data);
      if sum > 0.0 {
        var scale := ph.sqrt(1.0 / sum);
        MapCells(w.data, (i, j, v) => Scale(scale, v));
        SnapshotIs(w.data, ScaleGrid(scale, m, w.nx, w.ny));
      }
      after := Intensity(w.data);
      if SqrtOk(ph) && sum > 0.0 {
        NormalizedTotalIsOne(ph, m, w.nx, w.ny);
      }
    }

    /** FormProbe up to the normalisation: the aperture is drawn in
        Fourier space, transformed to real space and damped. */
    method Damp(ph: ProbePhysics, sixth: Sixth)
      requires Ready(ph)
      modifies w, w.data
      ensures w.Valid() && w.realSpace && w.unchangedScalars()
      ensures Snapshot(w.data) == Damped(ph, cfg, sixth, w.nx, w.ny, w.wavlen)
    {
      w.ToFourierSpace(ph.ft);
      DrawAperture(ph, sixth);
      w.ToRealSpace(ph.ift);
      DampGauss(ph);
      DampAis(ph);
    }

    /** The tail of FormProbe: normalisation, then the scan for the
        extremes of the normalised probe. */
    method NormalizeAndMeasure(ph: ProbePhysics)
      requires w.Valid()
      modifies this`range, w.data
      ensures Snapshot(w.data) == Normalized(ph, old(Snapshot(w.data)), w.nx, w.ny)
      ensures IsRangeOf(range, w.data)
    {
      var _ := NormalizeProbe(ph);
      var r := Extremes(w.data);
      range := r;
    }

    /** FormProbe: the probe is the normalised damped aperture, in real
        space, and range holds the extremes of its real and imaginary
        parts. The sixth-order test is the corrected one, so a62 keeps its
        value. */
    method FormProbe(ph: ProbePhysics)
      requires Ready(ph)
      modifies this`range, w, w.data
      ensures w.Valid() && w.realSpace && w.unchangedScalars()
      ensures Snapshot(w.data) == Normalized(ph, Damped(ph, cfg, SixthOrder(cfg, a62), w.nx, w.ny, w.wavlen), w.nx, w.ny)
      ensures IsRangeOf(range, w.data)
    {
      var sixth := SixthOrder(cfg, a62);
      Damp(ph, sixth);
      ghost var damped := Snapshot(w.data);
      NormalizeAndMeasure(ph);
      assert Snapshot(w.data) == Normalized(ph, damped, w.nx, w.ny);
    }
  }
}
