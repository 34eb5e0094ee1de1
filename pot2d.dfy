// The 2D FFT potential (libs/potentials/pot_2d_fft.cpp): a per-element
// table of the projected potential on a grid oversampled OVERSAMPLING times,
// computed once from the scattering factor, and the bilinear accumulation of
// each atom into slice floor(z / dz) of m_trans1[slice][x][y].
// The damped scattering factor, cos, sin and the inverse FFT are parameters
// (Physics2D).

module Potential2D {
  import opened Numerics
  import opened PotentialGrid
  import ScatteringTail
  import SliceStamp

  /** fe(Znum, B, s2) is the spline scattering factor at sqrt(s2) times
      exp(-s2 B / 4); idft(g, ix, iy) is entry (ix, iy) of the inverse
      transform of g. */
  datatype Physics2D = Physics2D(
    fe: (int, real, real) -> real,
    cos: real -> real,
    sin: real -> real,
    idft: (seq<seq<Complex>>, int, int) -> Complex)

  /** The configuration the potential reads: atom radius, pixel sizes,
      slice thickness, image size, slice offsets, atom box half-widths in
      pixels, boundary mode. */
  datatype Config2D = Config2D(
    atomRadius: real, dx: real, dy: real, sliceThickness: real,
    nx: int, ny: int, xOffset: real, yOffset: real,
    iRadX: int, iRadY: int, periodicXY: bool)

  predicate ConfigOk(cfg: Config2D)
  {
    cfg.atomRadius > 0.0 && cfg.dx > 0.0 && cfg.dy > 0.0 && cfg.sliceThickness > 0.0 &&
    cfg.nx >= 1 && cfg.ny >= 1 && cfg.iRadX >= 0 && cfg.iRadY >= 0
  }

  /** The table geometry SliceSetup fixes: _nx, _ny, m_dkx, m_dky and the
      squared cutoff m_kmax2. */
  datatype Lut2 = Lut2(nx: int, ny: int, dkx: real, dky: real, kmax2: real)

  predicate Lut2Ok(g: Lut2)
  {
    g.nx >= 4 && g.nx % 4 == 0 && g.ny >= 4 && g.ny % 4 == 0 && g.dkx > 0.0 && g.dky > 0.0
  }

  /** The table is 2 OVERSAMPLING ceil(R / d) samples on each axis, so at
      spacing d / OVERSAMPLING it spans the atom's diameter, and the squared
      cutoff is positive. */
  function Geometry2D(cfg: Config2D): (g: Lut2)
    requires ConfigOk(cfg)
    ensures Lut2Ok(g)
    ensures g.nx == LutWidth(cfg.atomRadius, cfg.dx) && g.ny == LutWidth(cfg.atomRadius, cfg.dy)
    ensures (g.nx as real) * (cfg.dx / Oversampling as real) >= 2.0 * cfg.atomRadius
    ensures (g.ny as real) * (cfg.dy / Oversampling as real) >= 2.0 * cfg.atomRadius
    ensures g.kmax2 > 0.0
  {
    LutWidthFacts(cfg.atomRadius, cfg.dx);
    LutWidthFacts(cfg.atomRadius, cfg.dy);
    var nx := LutWidth(cfg.atomRadius, cfg.dx);
    var ny := LutWidth(cfg.atomRadius, cfg.dy);
    CutoffIsQuarterOverD(nx, cfg.dx);
    CutoffIsQuarterOverD(ny, cfg.dy);
    var kmax := Cutoff(nx, FreqStep(nx, cfg.dx));
    SquarePositive(kmax);
    Lut2(nx, ny, FreqStep(nx, cfg.dx), FreqStep(ny, cfg.dy), kmax * kmax)
  }

  lemma SquarePositive(k: real)
    requires k > 0.0
    ensures k * k > 0.0
  {
  }

  /** The squared cutoff is (1 / (4 dx))^2, whatever the atom radius. */
  lemma CutoffSquared(cfg: Config2D)
    requires ConfigOk(cfg)
    ensures Geometry2D(cfg).kmax2 == (0.25 / cfg.dx) * (0.25 / cfg.dx)
  {
    CutoffIsQuarterOverD(LutWidth(cfg.atomRadius, cfg.dx), cfg.dx);
  }

  // ---------------------------------------------------------------- reciprocal table

  /** The mirrored spatial frequency of bin i of n at step dk. */
  function MirroredFrequency(dk: real, i: int, n: int): real
    requires n > 0
  {
    dk * Mirror(i, n) as real
  }

  /** Mirrored frequencies are never negative and stay below the Nyquist
      bin. */
  lemma MirroredFrequencyBounds(dk: real, i: int, n: int)
    requires n > 0 && 0 <= i < n && dk >= 0.0
    ensures 0.0 <= MirroredFrequency(dk, i, n) <= dk * ((n + 1) / 2) as real
  {
    MirrorRealBounds(i, n);
    ScaledBetween(dk, Mirror(i, n) as real, ((n + 1) / 2) as real);
  }

  lemma MirrorRealBounds(i: int, n: int)
    requires n > 0 && 0 <= i < n
    ensures 0.0 <= Mirror(i, n) as real <= ((n + 1) / 2) as real
  {
    MirrorIsMagnitude(i, n);
  }

  lemma ScaledBetween(d: real, m: real, top: real)
    requires d >= 0.0 && 0.0 <= m <= top
    ensures 0.0 <= d * m <= d * top
  {
    assert d * top - d * m == d * (top - m);
  }

  /** The phase that places the atom at the table's centre. */
  function Phase(g: Lut2, dx: real, dy: real, kx: real, ky: real): real
  {
    Pi * (kx * dx * g.nx as real + ky * dy * g.ny as real)
  }

  /** Bin (ix, iy) lies strictly inside the cutoff disc. */
  predicate InDisc(g: Lut2, ix: int, iy: int)
    requires g.nx > 0 && g.ny > 0
  {
    Radius2(MirroredFrequency(g.dkx, ix, g.nx), MirroredFrequency(g.dky, iy, g.ny)) < g.kmax2
  }

  /** The squared length of the frequency (kx, ky). */
  function Radius2(kx: real, ky: real): real
  {
    kx * kx + ky * ky
  }

  /** The bin at frequencies (kx, ky): zero outside the disc, the damped
      scattering factor times the centring phase factor inside it. */
  function BinAt(ph: Physics2D, znum: int, b: real, g: Lut2, dx: real, dy: real, kx: real, ky: real): Complex
  {
    if Radius2(kx, ky) < g.kmax2 then InsideBin(ph, znum, b, g, dx, dy, Radius2(kx, ky), kx, ky) else Zero
  }

  function InsideBin(ph: Physics2D, znum: int, b: real, g: Lut2, dx: real, dy: real, s2: real, kx: real, ky: real): Complex
  {
    var f := ph.fe(znum, b, s2);
    var phase := Phase(g, dx, dy, kx, ky);
    Complex(f * ph.cos(phase), f * ph.sin(phase))
  }

  function RecipEntry(ph: Physics2D, znum: int, b: real, g: Lut2, dx: real, dy: real, ix: int, iy: int): Complex
    requires g.nx > 0 && g.ny > 0
  {
    BinAt(ph, znum, b, g, dx, dy, MirroredFrequency(g.dkx, ix, g.nx), MirroredFrequency(g.dky, iy, g.ny))
  }

  /** The reciprocal table as the transform receives it. */
  function RecipGrid(ph: Physics2D, znum: int, b: real, g: Lut2, dx: real, dy: real): (m: seq<seq<Complex>>)
    requires g.nx > 0 && g.ny > 0
    ensures |m| == g.nx && forall ix :: 0 <= ix < g.nx ==> |m[ix]| == g.ny
  {
    seq(g.nx, ix => seq(g.ny, iy => RecipEntry(ph, znum, b, g, dx, dy, ix, iy)))
  }

  /** Bins outside the disc stay zero. */
  lemma RecipOutsideDiscIsZero(ph: Physics2D, znum: int, b: real, g: Lut2, dx: real, dy: real, ix: int, iy: int)
    requires g.nx > 0 && g.ny > 0 && !InDisc(g, ix, iy)
    ensures RecipEntry(ph, znum, b, g, dx, dy, ix, iy) == Zero
  {
  }

  /** For an even n, bin i and bin n - i have the same mirrored index. */
  lemma MirrorSymmetric(i: int, n: int)
    requires 0 < i < n && n % 2 == 0
    ensures Mirror(i, n) == Mirror(n - i, n)
  {
    var h := n / 2;
    assert n == 2 * h;
  }

  lemma MultipleOfFourIsEven(n: int)
    requires n % 4 == 0
    ensures n % 2 == 0
  {
    var q := n / 4;
    assert n == (2 * q) * 2;
  }

  /** Since the frequencies are mirrored, the table is symmetric under
      ix -> nx - ix and iy -> ny - iy. */
  lemma RecipSymmetric(ph: Physics2D, znum: int, b: real, g: Lut2, dx: real, dy: real, ix: int, iy: int)
    requires Lut2Ok(g) && 0 < ix < g.nx && 0 < iy < g.ny
    ensures RecipEntry(ph, znum, b, g, dx, dy, ix, iy) == RecipEntry(ph, znum, b, g, dx, dy, g.nx - ix, iy)
    ensures RecipEntry(ph, znum, b, g, dx, dy, ix, iy) == RecipEntry(ph, znum, b, g, dx, dy, ix, g.ny - iy)
  {
    MultipleOfFourIsEven(g.nx);
    MultipleOfFourIsEven(g.ny);
    MirrorSymmetric(ix, g.nx);
    MirrorSymmetric(iy, g.ny);
    SameMirrorSameEntry(ph, znum, b, g, dx, dy, ix, iy, g.nx - ix, iy);
    SameMirrorSameEntry(ph, znum, b, g, dx, dy, ix, iy, ix, g.ny - iy);
  }

  /** An entry depends on its indices only through their mirrored values. */
  lemma SameMirrorSameEntry(ph: Physics2D, znum: int, b: real, g: Lut2, dx: real, dy: real, ix: int, iy: int, ix': int, iy': int)
    requires g.nx > 0 && g.ny > 0
    requires Mirror(ix, g.nx) == Mirror(ix', g.nx) && Mirror(iy, g.ny) == Mirror(iy', g.ny)
    ensures RecipEntry(ph, znum, b, g, dx, dy, ix, iy) == RecipEntry(ph, znum, b, g, dx, dy, ix', iy')
  {
    assert MirroredFrequency(g.dkx, ix, g.nx) == MirroredFrequency(g.dkx, ix', g.nx);
    assert MirroredFrequency(g.dky, iy, g.ny) == MirroredFrequency(g.dky, iy', g.ny);
  }

  // ---------------------------------------------------------------- real-space table

  /** The factor every transformed entry is multiplied by:
      dkx dky OVERSAMPLING^2. */
  function TableFactor(g: Lut2): real
  {
    g.dkx * g.dky * (Oversampling * Oversampling) as real
  }

  /** The cached table: the inverse transform of the reciprocal table,
      scaled. */
  predicate TableOk(t: seq<seq<Complex>>, ph: Physics2D, znum: int, b: real, g: Lut2, dx: real, dy: real)
    requires g.nx > 0 && g.ny > 0
  {
    |t| == g.nx &&
    forall ix :: 0 <= ix < g.nx ==>
      (|t[ix]| == g.ny &&
       forall iy :: 0 <= iy < g.ny ==>
         t[ix][iy] == Scale(TableFactor(g), ph.idft(RecipGrid(ph, znum, b, g, dx, dy), ix, iy)))
  }

  lemma StepTimesExtent(n: int, d: real)
    requires n > 0 && d > 0.0
    ensures FreqStep(n, d) * (n as real * d / Oversampling as real) == 0.5
  {
    var e := n as real * d;
    assert e > 0.0;
    calc {
      FreqStep(n, d) * (e / 2.0);
      (1.0 / e) * (e / 2.0);
      { assert (1.0 / e) * e == 1.0; }
      0.5;
    }
  }

  /** The factor is the inverse of the area the table covers, whose
      samples are dx / OVERSAMPLING by dy / OVERSAMPLING apart. */
  lemma TableFactorIsInverseArea(cfg: Config2D)
    requires ConfigOk(cfg)
    ensures var g := Geometry2D(cfg);
      TableFactor(g) * ((g.nx as real * cfg.dx / Oversampling as real) * (g.ny as real * cfg.dy / Oversampling as real)) == 1.0
  {
    var g := Geometry2D(cfg);
    var ex := g.nx as real * cfg.dx / Oversampling as real;
    var ey := g.ny as real * cfg.dy / Oversampling as real;
    StepTimesExtent(g.nx, cfg.dx);
    StepTimesExtent(g.ny, cfg.dy);
    assert g.dkx * ex == 0.5 && g.dky * ey == 0.5;
    calc {
      TableFactor(g) * (ex * ey);
      4.0 * ((g.dkx * ex) * (g.dky * ey));
      1.0;
    }
  }

  /** One column ix of the reciprocal table: the bins inside the disc are
      set, the others keep their value. */
  method ReciprocalColumn(a: array2<Complex>, ph: Physics2D, znum: int, b: real, g: Lut2, dx: real, dy: real, ix: int)
    requires g.nx > 0 && g.ny > 0 && a.Length0 == g.nx && a.Length1 == g.ny && 0 <= ix < g.nx
    modifies a
    ensures forall i, j :: 0 <= i < a.Length0 && 0 <= j < a.Length1 ==>
      a[i, j] == (if i == ix && InDisc(g, i, j) then RecipEntry(ph, znum, b, g, dx, dy, i, j) else old(a[i, j]))
  {
    var kx := MirroredFrequency(g.dkx, ix, g.nx);
    var iy := 0;
    while iy < g.ny
      invariant 0 <= iy <= g.ny
      invariant forall i, j :: 0 <= i < a.Length0 && 0 <= j < a.Length1 ==>
        a[i, j] == (if i == ix && j < iy && InDisc(g, i, j) then RecipEntry(ph, znum, b, g, dx, dy, i, j) else old(a[i, j]))
    {
      var ky := MirroredFrequency(g.dky, iy, g.ny);
      var s2 := Radius2(kx, ky);
      assert InDisc(g, ix, iy) <==> s2 < g.kmax2;
      if s2 < g.kmax2 {
        var f := ph.fe(znum, b, s2);
        var phase := Phase(g, dx, dy, kx, ky);
        assert RecipEntry(ph, znum, b, g, dx, dy, ix, iy) == BinAt(ph, znum, b, g, dx, dy, kx, ky);
        assert BinAt(ph, znum, b, g, dx, dy, kx, ky) == InsideBin(ph, znum, b, g, dx, dy, s2, kx, ky);
        a[ix, iy] := Complex(f * ph.cos(phase), f * ph.sin(phase));
      }
      iy := iy + 1;
    }
  }

  /** The whole reciprocal table. */
  method ReciprocalTable(a: array2<Complex>, ph: Physics2D, znum: int, b: real, g: Lut2, dx: real, dy: real)
    requires g.nx > 0 && g.ny > 0 && a.Length0 == g.nx && a.Length1 == g.ny
    modifies a
    ensures forall i, j :: 0 <= i < a.Length0 && 0 <= j < a.Length1 ==>
      a[i, j] == (if InDisc(g, i, j) then RecipEntry(ph, znum, b, g, dx, dy, i, j) else old(a[i, j]))
  {
    var ix := 0;
    while ix < g.nx
      invariant 0 <= ix <= g.nx
      invariant forall i, j :: 0 <= i < a.Length0 && 0 <= j < a.Length1 ==>
        a[i, j] == (if i < ix && InDisc(g, i, j) then RecipEntry(ph, znum, b, g, dx, dy, i, j) else old(a[i, j]))
    {
      ghost var before := Snapshot(a);
      ReciprocalColumn(a, ph, znum, b, g, dx, dy, ix);
      forall i, j | 0 <= i < a.Length0 && 0 <= j < a.Length1
        ensures a[i, j] == (if i < ix + 1 && InDisc(g, i, j) then RecipEntry(ph, znum, b, g, dx, dy, i, j) else old(a[i, j]))
      {
        assert a[i, j] == (if i == ix && InDisc(g, i, j) then RecipEntry(ph, znum, b, g, dx, dy, i, j) else before[i][j]);
      }
      ix := ix + 1;
    }
  }

  /** Multiplies row ix of a by c. */
  method ScaleRow(a: array2<Complex>, c: real, ix: int)
    requires 0 <= ix < a.Length0
    modifies a
    ensures forall i, j :: 0 <= i < a.Length0 && 0 <= j < a.Length1 ==>
      a[i, j] == (if i == ix then Scale(c, old(a[i, j])) else old(a[i, j]))
  {
    var iy := 0;
    while iy < a.Length1
      invariant 0 <= iy <= a.Length1
      invariant forall i, j :: 0 <= i < a.Length0 && 0 <= j < a.Length1 ==>
        a[i, j] == (if i == ix && j < iy then Scale(c, old(a[i, j])) else old(a[i, j]))
    {
      a[ix, iy] := Scale(c, a[ix, iy]);
      iy := iy + 1;
    }
  }

  /** Multiplies every entry of a by c. */
  method ScaleTable(a: array2<Complex>, c: real)
    modifies a
    ensures forall i, j :: 0 <= i < a.Length0 && 0 <= j < a.Length1 ==> a[i, j] == Scale(c, old(a[i, j]))
  {
    var ix := 0;
    while ix < a.Length0
      invariant 0 <= ix <= a.Length0
      invariant forall i, j :: 0 <= i < a.Length0 && 0 <= j < a.Length1 ==>
        a[i, j] == (if i < ix then Scale(c, old(a[i, j])) else old(a[i, j]))
    {
      ScaleRow(a, c, ix);
      ix := ix + 1;
    }
  }

  /** The reciprocal table of element znum, transformed back and scaled:
      the table the potential caches. */
  method BuildTable(ph: Physics2D, znum: int, b: real, g: Lut2, dx: real, dy: real) returns (t: seq<seq<Complex>>)
    requires g.nx > 0 && g.ny > 0
    ensures TableOk(t, ph, znum, b, g, dx, dy)
  {
    var a := new Complex[g.nx, g.ny]((i, j) => Zero);
    ReciprocalTable(a, ph, znum, b, g, dx, dy);
    var grid := Snapshot(a);
    GridIsRecipGrid(grid, ph, znum, b, g, dx, dy);
    var f := new Complex[g.nx, g.ny]((i, j) => ph.idft(grid, i, j));
    ScaleTable(f, TableFactor(g));
    t := Snapshot(f);
  }

  /** A zero-initialised table filled inside the disc is the reciprocal
      table. */
  lemma GridIsRecipGrid(grid: seq<seq<Complex>>, ph: Physics2D, znum: int, b: real, g: Lut2, dx: real, dy: real)
    requires g.nx > 0 && g.ny > 0
    requires |grid| == g.nx && forall ix :: 0 <= ix < g.nx ==> |grid[ix]| == g.ny
    requires forall ix, iy :: 0 <= ix < g.nx && 0 <= iy < g.ny ==>
      grid[ix][iy] == (if InDisc(g, ix, iy) then RecipEntry(ph, znum, b, g, dx, dy, ix, iy) else Zero)
    ensures grid == RecipGrid(ph, znum, b, g, dx, dy)
  {
    var r := RecipGrid(ph, znum, b, g, dx, dy);
    forall ix | 0 <= ix < g.nx
      ensures grid[ix] == r[ix]
    {
      forall iy | 0 <= iy < g.ny
        ensures grid[ix][iy] == r[ix][iy]
      {
        if !InDisc(g, ix, iy) {
          RecipOutsideDiscIsZero(ph, znum, b, g, dx, dy, ix, iy);
        }
      }
    }
  }

  // ---------------------------------------------------------------- bilinear weights

  /** The weights of the four table neighbours (x, y), (x+1, y), (x, y+1)
      and (x+1, y+1). */
  datatype Weights = Weights(w00: real, w10: real, w01: real, w11: real)

  /** Bilinear weights for a point fx of the way from x to x+1 and fy of
      the way from y to y+1. */
  function Bilinear(fx: real, fy: real): Weights
  {
    Weights((1.0 - fx) * (1.0 - fy), fx * (1.0 - fy), (1.0 - fx) * fy, fx * fy)
  }

  function Interpolate(w: Weights, v00: real, v10: real, v01: real, v11: real): real
  {
    w.w00 * v00 + w.w10 * v10 + w.w01 * v01 + w.w11 * v11
  }

  /** The weights always sum to one, and lie in [0, 1] for fractions in
      [0, 1]. */
  lemma {:induction false} BilinearPartition(fx: real, fy: real)
    ensures var w := Bilinear(fx, fy); w.w00 + w.w10 + w.w01 + w.w11 == 1.0
    ensures 0.0 <= fx <= 1.0 && 0.0 <= fy <= 1.0 ==>
      var w := Bilinear(fx, fy);
      0.0 <= w.w00 <= 1.0 && 0.0 <= w.w10 <= 1.0 && 0.0 <= w.w01 <= 1.0 && 0.0 <= w.w11 <= 1.0
  {
    if 0.0 <= fx <= 1.0 && 0.0 <= fy <= 1.0 {
      SliceStamp.Fraction(1.0 - fx, 1.0 - fy);
      SliceStamp.Fraction(fx, 1.0 - fy);
      SliceStamp.Fraction(1.0 - fx, fy);
      SliceStamp.Fraction(fx, fy);
    }
  }

  /** Bilinear interpolation reproduces a table that is linear in x and y:
      at the point (x + fx, y + fy) it gives the plane's value there. */
  lemma BilinearExactOnPlanes(fx: real, fy: real, a: real, c: real, v: real)
    ensures Interpolate(Bilinear(fx, fy), v, v + a, v + c, v + a + c) == v + a * fx + c * fy
  {
    BilinearPartition(fx, fy);
  }

  /** The fractional part of v, in [0, 1). */
  function Frac(v: real): (f: real)
    ensures 0.0 <= f < 1.0 && f == v - Floor(v) as real
  {
    v - Floor(v) as real
  }

  // ---------------------------------------------------------------- depositing an atom

  /** One atom's footprint: its table, the slice, the column ranges
      [x0, x1) and [y0, y1), the boundary mode and image size, the table
      index of the first column (offX, offY), the weights, and whether only
      the real part is added. */
  datatype Patch = Patch(
    pot: seq<seq<Complex>>, slice: int,
    x0: int, x1: int, y0: int, y1: int,
    periodic: bool, nx: int, ny: int,
    offX: int, offY: int, w: Weights, realOnly: bool)

  /** Every column maps to one pixel and back. */
  predicate PatchOk(p: Patch)
  {
    SliceStamp.AxisOk(p.periodic, p.x0, p.x1 - 1, p.nx) && SliceStamp.AxisOk(p.periodic, p.y0, p.y1 - 1, p.ny)
  }

  /** The stack holds every pixel the patch writes. */
  predicate Fits(t: array3<Complex>, p: Patch)
    reads {}
  {
    t.Length1 >= p.nx && t.Length2 >= p.ny &&
    (p.x0 < p.x1 && p.y0 < p.y1 ==> 0 <= p.slice < t.Length0)
  }

  /** Table entry (i, j); the model reads zero outside the table. */
  function LutAt(pot: seq<seq<Complex>>, i: int, j: int): Complex
  {
    if 0 <= i < |pot| && 0 <= j < |pot[i]| then pot[i][j] else Zero
  }

  /** The table column read for box column iax, and row for iay. */
  function TableX(p: Patch, iax: int): int
  {
    p.offX + Oversampling * (iax - p.x0)
  }

  function TableY(p: Patch, iay: int): int
  {
    p.offY + Oversampling * (iay - p.y0)
  }

  /** The value box column (iax, iay) adds: the weighted sum of the four
      neighbouring table entries, or its real part. */
  function Contribution(p: Patch, iax: int, iay: int): Complex
  {
    var xi, yi := TableX(p, iax), TableY(p, iay);
    var a, b, c, d := LutAt(p.pot, xi, yi), LutAt(p.pot, xi + 1, yi), LutAt(p.pot, xi, yi + 1), LutAt(p.pot, xi + 1, yi + 1);
    var re := Interpolate(p.w, a.re, b.re, c.re, d.re);
    if p.realOnly then Complex(re, 0.0) else Complex(re, Interpolate(p.w, a.im, b.im, c.im, d.im))
  }

  /** The new value of pixel (s, x, y), given its old value c. */
  function Patched(p: Patch, c: Complex, s: int, x: int, y: int): Complex
    requires PatchOk(p)
  {
    PatchDone(p, p.x1, c, s, x, y)
  }

  /** Pixel value c after the box columns iax < lim have been added. */
  function PatchDone(p: Patch, lim: int, c: Complex, s: int, x: int, y: int): Complex
    requires PatchOk(p)
  {
    var ix := SliceStamp.Source(p.periodic, p.x0, p.nx, x);
    var iy := SliceStamp.Source(p.periodic, p.y0, p.ny, y);
    if s == p.slice && 0 <= x < p.nx && 0 <= y < p.ny && p.x0 <= ix < lim && p.y0 <= iy < p.y1
    then Add(c, Contribution(p, ix, iy))
    else c
  }

  /** Pixel value c after rows iay < lim of box column iax have been added. */
  function StripDone(p: Patch, iax: int, lim: int, c: Complex, s: int, x: int, y: int): Complex
    requires PatchOk(p)
  {
    var iy := SliceStamp.Source(p.periodic, p.y0, p.ny, y);
    if s == p.slice && x == SliceStamp.Target(p.periodic, p.nx, iax) && 0 <= y < p.ny && p.y0 <= iy < lim
    then Add(c, Contribution(p, iax, iy))
    else c
  }

  /** Only pixels of the atom's slice inside the box change. */
  lemma PatchedOutsideUnchanged(p: Patch, c: Complex, s: int, x: int, y: int)
    requires PatchOk(p) && 0 <= x < p.nx && 0 <= y < p.ny
    requires s != p.slice || !(p.x0 <= SliceStamp.Source(p.periodic, p.x0, p.nx, x) < p.x1)
    ensures Patched(p, c, s, x, y) == c
  {
  }

  /** The rows of box column iax. */
  method Strip(t: array3<Complex>, p: Patch, iax: int)
    requires PatchOk(p) && Fits(t, p) && p.x0 <= iax < p.x1
    modifies t
    ensures forall s, x, y :: 0 <= s < t.Length0 && 0 <= x < t.Length1 && 0 <= y < t.Length2 ==>
      t[s, x, y] == StripDone(p, iax, p.y1, old(t[s, x, y]), s, x, y)
  {
    SliceStamp.AxisBijection(p.periodic, p.x0, p.x1 - 1, p.nx, iax, 0);
    var px := SliceStamp.Target(p.periodic, p.nx, iax);
    var iay := p.y0;
    while iay < p.y1
      invariant iay == p.y0 || p.y0 <= iay <= p.y1
      invariant forall s, x, y :: 0 <= s < t.Length0 && 0 <= x < t.Length1 && 0 <= y < t.Length2 ==>
        t[s, x, y] == StripDone(p, iax, iay, old(t[s, x, y]), s, x, y)
    {
      forall y | 0 <= y < p.ny
        ensures y == SliceStamp.Target(p.periodic, p.ny, iay) <==> SliceStamp.Source(p.periodic, p.y0, p.ny, y) == iay
      {
        SliceStamp.AxisBijection(p.periodic, p.y0, p.y1 - 1, p.ny, iay, y);
      }
      SliceStamp.AxisBijection(p.periodic, p.y0, p.y1 - 1, p.ny, iay, 0);
      var py := SliceStamp.Target(p.periodic, p.ny, iay);
      var xi := p.offX + Oversampling * (iax - p.x0);
      var yi := p.offY + Oversampling * (iay - p.y0);
      var a, b, c, d := LutAt(p.pot, xi, yi), LutAt(p.pot, xi + 1, yi), LutAt(p.pot, xi, yi + 1), LutAt(p.pot, xi + 1, yi + 1);
      var v := Complex(Interpolate(p.w, a.re, b.re, c.re, d.re), Interpolate(p.w, a.im, b.im, c.im, d.im));
      if p.realOnly {
        v := Complex(v.re, 0.0);
      }
      t[p.slice, px, py] := Add(t[p.slice, px, py], v);
      iay := iay + 1;
    }
  }

  /** All box columns, iax outer and iay inner. */
  method Deposit(t: array3<Complex>, p: Patch)
    requires PatchOk(p) && Fits(t, p)
    modifies t
    ensures forall s, x, y :: 0 <= s < t.Length0 && 0 <= x < t.Length1 && 0 <= y < t.Length2 ==>
      t[s, x, y] == Patched(p, old(t[s, x, y]), s, x, y)
  {
    var iax := p.x0;
    while iax < p.x1
      invariant iax == p.x0 || p.x0 <= iax <= p.x1
      invariant forall s, x, y :: 0 <= s < t.Length0 && 0 <= x < t.Length1 && 0 <= y < t.Length2 ==>
        t[s, x, y] == PatchDone(p, iax, old(t[s, x, y]), s, x, y)
    {
      forall x | 0 <= x < p.nx
        ensures x == SliceStamp.Target(p.periodic, p.nx, iax) <==> SliceStamp.Source(p.periodic, p.x0, p.nx, x) == iax
      {
        SliceStamp.AxisBijection(p.periodic, p.x0, p.x1 - 1, p.nx, iax, x);
      }
      SliceStamp.AxisBijection(p.periodic, p.x0, p.x1 - 1, p.nx, iax, 0);
      Strip(t, p, iax);
      iax := iax + 1;
    }
  }

  // ---------------------------------------------------------------- the two modes

  /** The slice an atom at height z is added to. */
  function AtomSlice(cfg: Config2D, atomZ: real): int
    requires ConfigOk(cfg)
  {
    Floor(atomZ / cfg.sliceThickness)
  }

  /** First column of the unclipped box: iAtom - iRad + rint(offset / d). */
  function BoxStart(iAtom: int, iRad: int, offset: real, d: real): int
    requires d > 0.0
  {
    iAtom - iRad + RoundHalfEven(offset / d)
  }

  function BoxEnd(iAtom: int, iRad: int, offset: real, d: real): int
    requires d > 0.0
  {
    iAtom + iRad + RoundHalfEven(offset / d)
  }

  /** The clipped column range of one axis, and the table offset that the
      clipping at the low edge adds: [max(start, 0), min(end, n - 1)). */
  function ClipAxis(start: int, end: int, n: int): (r: (int, int, int))
  {
    (if start < 0 then 0 else start,
     if end >= n then n - 1 else end,
     if start < 0 then -start * Oversampling else 0)
  }

  /** The box of an atom in the clipped mode. */
  function NonPeriodicPatch(cfg: Config2D, pot: seq<seq<Complex>>, boxX: real, iAtomX: int, boxY: real, iAtomY: int, atomZ: real): (p: Patch)
    requires ConfigOk(cfg)
    ensures PatchOk(p) && !p.periodic && p.realOnly && p.nx == cfg.nx && p.ny == cfg.ny
    ensures p.slice == AtomSlice(cfg, atomZ)
  {
    var (x0, x1, pox) := ClipAxis(BoxStart(iAtomX, cfg.iRadX, cfg.xOffset, cfg.dx), BoxEnd(iAtomX, cfg.iRadX, cfg.xOffset, cfg.dx), cfg.nx);
    var (y0, y1, poy) := ClipAxis(BoxStart(iAtomY, cfg.iRadY, cfg.yOffset, cfg.dy), BoxEnd(iAtomY, cfg.iRadY, cfg.yOffset, cfg.dy), cfg.ny);
    var ddx := boxX / cfg.dx - iAtomX as real;
    var ddy := boxY / cfg.dy - iAtomY as real;
    Patch(pot, AtomSlice(cfg, atomZ), x0, x1, y0, y1, false, cfg.nx, cfg.ny,
      Floor(ddx) + pox, Floor(ddy) + poy, Bilinear(Frac(ddx), Frac(ddy)), true)
  }

  /** The clipped columns are the box's columns that lie in [0, n - 1). */
  lemma ClippedColumns(start: int, end: int, n: int, i: int)
    ensures var (lo, hi, _) := ClipAxis(start, end, n);
      lo <= i < hi <==> start <= i < end && 0 <= i < n - 1
  {
  }

  /** Clipping keeps the table aligned: a box column reads the table at
      the same place as if the box had not been clipped. */
  lemma ClippingKeepsAlignment(cfg: Config2D, pot: seq<seq<Complex>>, boxX: real, iAtomX: int, boxY: real, iAtomY: int, atomZ: real, iax: int, iay: int)
    requires ConfigOk(cfg)
    ensures var p := NonPeriodicPatch(cfg, pot, boxX, iAtomX, boxY, iAtomY, atomZ);
      TableX(p, iax) == Floor(boxX / cfg.dx - iAtomX as real) + Oversampling * (iax - BoxStart(iAtomX, cfg.iRadX, cfg.xOffset, cfg.dx)) &&
      TableY(p, iay) == Floor(boxY / cfg.dy - iAtomY as real) + Oversampling * (iay - BoxStart(iAtomY, cfg.iRadY, cfg.yOffset, cfg.dy))
  {
  }

  /** The box of an atom in the periodic mode: iAtom - iRad .. iAtom + iRad - 1
      on both axes, wrapped onto the image; the oversampled fractional
      position selects the table entries and weights. */
  function PeriodicPatch(cfg: Config2D, pot: seq<seq<Complex>>, boxX: real, iAtomX: int, boxY: real, iAtomY: int, atomZ: real): (p: Patch)
    requires ConfigOk(cfg) && 2 * cfg.iRadX <= cfg.nx && 2 * cfg.iRadY <= cfg.ny
    ensures PatchOk(p) && p.periodic && !p.realOnly && p.nx == cfg.nx && p.ny == cfg.ny
    ensures p.slice == AtomSlice(cfg, atomZ)
    ensures p.x1 - p.x0 == 2 * cfg.iRadX && p.y1 - p.y0 == 2 * cfg.iRadY
  {
    var ddx := PeriodicOffset(boxX, iAtomX, cfg.dx);
    var ddy := PeriodicOffset(boxY, iAtomY, cfg.dy);
    Patch(pot, AtomSlice(cfg, atomZ), iAtomX - cfg.iRadX, iAtomX + cfg.iRadX, iAtomY - cfg.iRadY, iAtomY + cfg.iRadY,
      true, cfg.nx, cfg.ny, Floor(ddx), Floor(ddy), Bilinear(Frac(ddx), Frac(ddy)), false)
  }

  /** The atom's offset from its pixel in table samples. */
  function PeriodicOffset(box: real, iAtom: int, d: real): real
    requires d > 0.0
  {
    (box / d - iAtom as real) * Oversampling as real
  }

  /** Both modes weight the four neighbours with weights in [0, 1] that sum
      to one. */
  lemma PatchWeights(cfg: Config2D, pot: seq<seq<Complex>>, boxX: real, iAtomX: int, boxY: real, iAtomY: int, atomZ: real)
    requires ConfigOk(cfg)
    ensures var w := NonPeriodicPatch(cfg, pot, boxX, iAtomX, boxY, iAtomY, atomZ).w;
      w.w00 + w.w10 + w.w01 + w.w11 == 1.0 &&
      0.0 <= w.w00 <= 1.0 && 0.0 <= w.w10 <= 1.0 && 0.0 <= w.w01 <= 1.0 && 0.0 <= w.w11 <= 1.0
    ensures 2 * cfg.iRadX <= cfg.nx && 2 * cfg.iRadY <= cfg.ny ==>
      var w := PeriodicPatch(cfg, pot, boxX, iAtomX, boxY, iAtomY, atomZ).w;
      w.w00 + w.w10 + w.w01 + w.w11 == 1.0 &&
      0.0 <= w.w00 <= 1.0 && 0.0 <= w.w10 <= 1.0 && 0.0 <= w.w01 <= 1.0 && 0.0 <= w.w11 <= 1.0
  {
    BilinearPartition(Frac(boxX / cfg.dx - iAtomX as real), Frac(boxY / cfg.dy - iAtomY as real));
    BilinearPartition(Frac(PeriodicOffset(boxX, iAtomX, cfg.dx)), Frac(PeriodicOffset(boxY, iAtomY, cfg.dy)));
  }

  /** In the periodic mode the 2 iRad columns of the box reach 2 iRad
      distinct pixels. */
  lemma PeriodicColumnsDistinct(p: Patch, i: int, j: int)
    requires PatchOk(p) && p.periodic && p.x0 <= i < p.x1 && p.x0 <= j < p.x1 && i != j
    ensures SliceStamp.Target(true, p.nx, i) != SliceStamp.Target(true, p.nx, j)
  {
    SliceStamp.AxisBijection(true, p.x0, p.x1 - 1, p.nx, j, 0);
    SliceStamp.AxisBijection(true, p.x0, p.x1 - 1, p.nx, i, SliceStamp.Target(true, p.nx, j));
    SliceStamp.AxisBijection(true, p.x0, p.x1 - 1, p.nx, j, SliceStamp.Target(true, p.nx, j));
  }

  // ---------------------------------------------------------------- as written

  /** The weights the clipped mode writes: s11 = (1-ddx)(1-ddy) on (x, y),
      s12 = (1-ddx) ddy on (x+1, y), s21 = ddx (1-ddy) on (x, y+1),
      s22 = ddx ddy on (x+1, y+1): the two fractions trade places. */
  function NonPeriodicWeightsAsWritten(ddx: real, ddy: real): Weights
  {
    Weights((1.0 - ddx) * (1.0 - ddy), (1.0 - ddx) * ddy, ddx * (1.0 - ddy), ddx * ddy)
  }

  /** The weights the periodic mode writes: s11 = ddx ddy on (x, y),
      s12 = ddx (1-ddy) on (x+1, y), s21 = (1-ddx) ddy on (x, y+1),
      s22 = (1-ddx)(1-ddy) on (x+1, y+1). */
  function PeriodicWeightsAsWritten(ddx: real, ddy: real): Weights
  {
    Weights(ddx * ddy, ddx * (1.0 - ddy), (1.0 - ddx) * ddy, (1.0 - ddx) * (1.0 - ddy))
  }

  /** As written, on a table that grows by a per column, the clipped mode
      interpolates with the row fraction ddy and the periodic mode with
      1 - ddy, where the bilinear weights use the column fraction ddx; with
      ddx = 0.5 and ddy = 0 the clipped mode returns the left column, the
      periodic mode the right one, and the bilinear weights the midpoint. */
  lemma WeightsMisplacedAsWritten(ddx: real, ddy: real, a: real, v: real)
    ensures Interpolate(NonPeriodicWeightsAsWritten(ddx, ddy), v, v + a, v, v + a) == v + a * ddy
    ensures Interpolate(PeriodicWeightsAsWritten(ddx, ddy), v, v + a, v, v + a) == v + a * (1.0 - ddy)
    ensures Interpolate(Bilinear(ddx, ddy), v, v + a, v, v + a) == v + a * ddx
  {
    WeightsAsWrittenAreSwapped(ddx, ddy);
    BilinearExactOnPlanes(ddy, ddx, a, 0.0, v);
    BilinearExactOnPlanes(1.0 - ddy, 1.0 - ddx, a, 0.0, v);
    BilinearExactOnPlanes(ddx, ddy, a, 0.0, v);
  }

  /** As written the clipped weights are the bilinear ones with the
      fractions swapped, and the periodic ones with the fractions swapped
      and reflected. */
  lemma WeightsAsWrittenAreSwapped(ddx: real, ddy: real)
    ensures NonPeriodicWeightsAsWritten(ddx, ddy) == Bilinear(ddy, ddx)
    ensures PeriodicWeightsAsWritten(ddx, ddy) == Bilinear(1.0 - ddy, 1.0 - ddx)
  {
  }

  /** The pixel column the periodic mode writes for loop index iax, as
      written: iax already contains iAtomX (it starts at
      iAtomX - iRadX + _nx), iAtomX is added again, and the sum is wrapped by
      the table width _nx rather than by the image width. */
  function PeriodicColumnAsWritten(iAtom: int, iRad: int, lutN: int, k: int): (c: int)
    requires lutN > 0 && 0 <= k
    ensures 0 <= c < lutN
  {
    var iax := U32(iAtom - iRad + lutN) + k;
    (iAtom + iax) % lutN
  }

  /** An atom at column 10 with a box half-width of 2, a table 8 wide and an
      image 64 wide: as written its first box column lands on pixel 2, where
      the box starts at pixel 8. */
  lemma PeriodicColumnCounterexample()
    ensures PeriodicColumnAsWritten(10, 2, 8, 0) == 2
    ensures SliceStamp.Target(true, 64, 10 - 2 + 0) == 8
  {
  }

  /** As written, no atom reaches an image column at or beyond the table
      width. */
  lemma PeriodicColumnsBelowTableWidth(iAtom: int, iRad: int, lutN: int, k: int, nx: int)
    requires 0 < lutN <= nx && 0 <= k
    ensures PeriodicColumnAsWritten(iAtom, iRad, lutN, k) < nx
    ensures PeriodicColumnAsWritten(iAtom, iRad, lutN, k) != lutN
  {
  }

  /** The sub-sample fraction of the periodic mode, as written: the offset
      is taken from the unsigned start iax0 = iAtom - iRad + _nx, with _nx
      subtracted where it should be added; its floor is stored unsigned and
      subtracted back, leaving a large negative number. The y offset divides
      by the x pixel size d (dx). */
  function PeriodicFractionAsWritten(box: real, iAtom: int, iRad: int, lutN: int, d: real): real
    requires d > 0.0
  {
    var iax0 := U32(iAtom - iRad + lutN);
    var ddx := (-(iax0 as real) - lutN as real + box / d - iRad as real) * Oversampling as real;
    var iOffs := U32(Floor(ddx));
    ddx - iOffs as real
  }

  /** For an atom inside its pixel, the as-written fraction is below
      1 - 2^32, so some weight is negative or far above one; the corrected
      fraction lies in [0, 1). */
  lemma {:induction false} PeriodicFractionNegative(box: real, iAtom: int, iRad: int, lutN: int, d: real)
    requires d > 0.0 && 0 <= iRad <= iAtom && 1 <= lutN && iAtom + lutN < TwoTo32 && lutN < TwoTo32 / 8
    requires 0.0 <= box / d - iAtom as real < 1.0
    ensures PeriodicFractionAsWritten(box, iAtom, iRad, lutN, d) < 1.0 - TwoTo32 as real
    ensures 0.0 <= Frac(PeriodicOffset(box, iAtom, d)) < 1.0
  {
    var u := box / d - iAtom as real;
    var ddx := (-((iAtom - iRad + lutN) as real) - lutN as real + box / d - iRad as real) * 2.0;
    assert ddx == 2.0 * u - 4.0 * lutN as real;
    var f := Floor(ddx);
    assert -4 * lutN <= f < 0;
    assert U32(f) == f + TwoTo32;
  }

  /** With dx = 1 and dy = 2, an atom at y = 4 (pixel 2) with box
      half-height 1 and a table 8 high: as written the raw y offset is -28
      where dividing by dy gives -32. */
  lemma PeriodicYScaleCounterexample()
    ensures (-((U32(2 - 1 + 8)) as real) - 8.0 + 4.0 / 1.0 - 1.0) * 2.0 == -28.0
    ensures (-((U32(2 - 1 + 8)) as real) - 8.0 + 4.0 / 2.0 - 1.0) * 2.0 == -32.0
  {
  }

  /** Scans the slice thicknesses for one that differs from the first; a
      difference only raises a warning, the slices are kept. */
  method ThicknessMismatch(th: seq<real>, nlayer: int) returns (warn: Option<int>)
    requires 0 <= nlayer <= |th|
    ensures warn.None? <==> forall i :: 0 <= i < nlayer ==> th[i] == th[0]
    ensures warn.Some? ==>
      (0 <= warn.value < nlayer && th[warn.value] != th[0] &&
       forall i :: 0 <= i < warn.value ==> th[i] == th[0])
  {
    warn := None;
    var i := 0;
    while i < nlayer
      invariant 0 <= i <= nlayer
      invariant forall k :: 0 <= k < i ==> th[k] == th[0]
    {
      if th[0] != th[i] {
        warn := Some(i);
        return;
      }
      i := i + 1;
    }
  }

  // ---------------------------------------------------------------- the class

  class FftPotential2D {
    const cfg: Config2D
    /** The scattering-factor table (row 0 the k grid). */
    const scatPar: array2<real>
    /** The slice stack, indexed [slice][x][y]. */
    const trans1: array3<Complex>

    var nx: int
    var ny: int
    var dkx: real
    var dky: real
    var kmax2: real
    /** The tables computed so far, by atomic number. */
    var atPot: map<int, seq<seq<Complex>>>

    function Geom(): Lut2
      reads this
    {
      Lut2(nx, ny, dkx, dky, kmax2)
    }

    /** Tables exist only once the geometry has been set up. */
    predicate Valid()
      reads this
    {
      ConfigOk(cfg) && scatPar.Length0 >= 1 && scatPar.Length1 >= 10 &&
      (|atPot| > 0 ==> Geom() == Geometry2D(cfg))
    }

    constructor (cfg: Config2D, scatPar: array2<real>, trans1: array3<Complex>)
      requires ConfigOk(cfg) && scatPar.Length0 >= 1 && scatPar.Length1 >= 10
      ensures Valid() && atPot == map[]
      ensures this.cfg == cfg && this.scatPar == scatPar && this.trans1 == trans1
      ensures nx == 0 && ny == 0 && dkx == 0.0 && dky == 0.0 && kmax2 == 0.0
    {
      this.cfg := cfg;
      this.scatPar := scatPar;
      this.trans1 := trans1;
      nx, ny := 0, 0;
      dkx, dky, kmax2 := 0.0, 0.0, 0.0;
      atPot := map[];
    }

    /** Sizes the tables, adjusts the scattering-factor tail at kmax and
      squares the cutoff, but only while no table has been computed. */
    method SliceSetup()
      requires Valid()
      modifies this, scatPar
      ensures Valid() && atPot == old(atPot) && Geom() == Geometry2D(cfg)
      ensures old(|atPot|) > 0 ==> unchanged(scatPar)
      ensures old(|atPot|) == 0 ==>
        forall r, j :: 0 <= r < scatPar.Length0 && 0 <= j < scatPar.Length1 ==>
          scatPar[r, j] == ScatteringTail.Clamped(old(ScatteringTail.Row0(scatPar)), 0.25 / cfg.dx, r, j, old(scatPar[r, j]))
    {
      if |atPot| == 0 {
        LutWidthFacts(cfg.atomRadius, cfg.dx);
        LutWidthFacts(cfg.atomRadius, cfg.dy);
        nx := LutWidth(cfg.atomRadius, cfg.dx);
        ny := LutWidth(cfg.atomRadius, cfg.dy);
        dkx := FreqStep(nx, cfg.dx);
        dky := FreqStep(ny, cfg.dy);
        var kmax := Cutoff(nx, dkx);
        CutoffIsQuarterOverD(nx, cfg.dx);
        var _ := ScatteringTail.ClampTail(scatPar, kmax);
        kmax2 := kmax * kmax;
      }
    }

    /** Computes the table of element znum unless it is already cached;
        cached tables are never touched. */
    method ComputeAtomPotential(znum: int, dw: real, tds: bool, ph: Physics2D)
      requires Valid() && Geom() == Geometry2D(cfg)
      modifies this
      ensures Valid() && Geom() == old(Geom())
      ensures znum in atPot
      ensures forall z :: z in old(atPot) ==> z in atPot && atPot[z] == old(atPot[z])
      ensures znum !in old(atPot) ==>
        var g, b := Geom(), if tds then 0.0 else dw;
        atPot == old(atPot)[znum := atPot[znum]] &&
        TableOk(atPot[znum], ph, znum, b, g, cfg.dx, cfg.dy)
    {
      if znum !in atPot {
        var b := if tds then 0.0 else dw;
        var t := BuildTable(ph, znum, b, Geom(), cfg.dx, cfg.dy);
        atPot := atPot[znum := t];
      }
    }

    /** Adds an atom at (atomX, atomY, atomZ) to its slice, in the mode the
        configuration selects; iAtomX and iAtomY are its pixel. */
    method AddAtomToSlices(znum: int, atomX: real, atomY: real, atomZ: real)
      requires Valid() && znum in atPot
      requires trans1.Length1 >= cfg.nx && trans1.Length2 >= cfg.ny
      requires 0 <= AtomSlice(cfg, atomZ) < trans1.Length0
      requires cfg.periodicXY ==> 2 * cfg.iRadX <= cfg.nx && 2 * cfg.iRadY <= cfg.ny
      modifies trans1
      ensures var iAtomX, iAtomY := Floor(atomX / cfg.dx), Floor(atomY / cfg.dy);
        var p := if cfg.periodicXY then PeriodicPatch(cfg, atPot[znum], atomX, iAtomX, atomY, iAtomY, atomZ)
                 else NonPeriodicPatch(cfg, atPot[znum], atomX, iAtomX, atomY, iAtomY, atomZ);
        forall s, x, y :: 0 <= s < trans1.Length0 && 0 <= x < trans1.Length1 && 0 <= y < trans1.Length2 ==>
          trans1[s, x, y] == Patched(p, old(trans1[s, x, y]), s, x, y)
    {
      var iAtomX := Floor(atomX / cfg.dx);
      var iAtomY := Floor(atomY / cfg.dy);
      if cfg.periodicXY {
        AddAtomPeriodic(znum, atomX, iAtomX, atomY, iAtomY, atomZ);
      } else {
        AddAtomNonPeriodic(znum, atomX, iAtomX, atomY, iAtomY, atomZ);
      }
    }

    /** The clipped mode: the real part of each interpolated value is added
        to the pixels of the clipped box. */
    method AddAtomNonPeriodic(znum: int, boxX: real, iAtomX: int, boxY: real, iAtomY: int, atomZ: real)
      requires Valid() && znum in atPot
      requires trans1.Length1 >= cfg.nx && trans1.Length2 >= cfg.ny
      requires 0 <= AtomSlice(cfg, atomZ) < trans1.Length0
      modifies trans1
      ensures var p := NonPeriodicPatch(cfg, atPot[znum], boxX, iAtomX, boxY, iAtomY, atomZ);
        forall s, x, y :: 0 <= s < trans1.Length0 && 0 <= x < trans1.Length1 && 0 <= y < trans1.Length2 ==>
          trans1[s, x, y] == Patched(p, old(trans1[s, x, y]), s, x, y)
    {
      var p := NonPeriodicPatch(cfg, atPot[znum], boxX, iAtomX, boxY, iAtomY, atomZ);
      Deposit(trans1, p);
    }

    /** The periodic mode: the interpolated value is added to the pixels of
        the box wrapped onto the image. */
    method AddAtomPeriodic(znum: int, boxX: real, iAtomX: int, boxY: real, iAtomY: int, atomZ: real)
      requires Valid() && znum in atPot
      requires trans1.Length1 >= cfg.nx && trans1.Length2 >= cfg.ny
      requires 0 <= AtomSlice(cfg, atomZ) < trans1.Length0
      requires 2 * cfg.iRadX <= cfg.nx && 2 * cfg.iRadY <= cfg.ny
      modifies trans1
      ensures var p := PeriodicPatch(cfg, atPot[znum], boxX, iAtomX, boxY, iAtomY, atomZ);
        forall s, x, y :: 0 <= s < trans1.Length0 && 0 <= x < trans1.Length1 && 0 <= y < trans1.Length2 ==>
          trans1[s, x, y] == Patched(p, old(trans1[s, x, y]), s, x, y)
    {
      var p := PeriodicPatch(cfg, atPot[znum], boxX, iAtomX, boxY, iAtomY, atomZ);
      Deposit(trans1, p);
    }
  }
}
