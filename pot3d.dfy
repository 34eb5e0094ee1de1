// The 3D FFT potential (libs/potentials/pot_3d_fft.cpp): a per-element
// lookup table V(r, z) computed once from the scattering factor, and the
// accumulation of each atom into the slice stack m_trans1[slice][y][x].
// The spline scattering factor, exp, cos, sin, sqrt and the inverse FFT
// are parameters (Physics3D).

module Potential3D {
  import opened Numerics
  import opened PotentialGrid
  import ScatteringTail
  import CellLayout
  import SliceStamp

  /** The scaling constant of the tables, as written at the assignment of
      m_atPot (PHI_SCALE, 47.87658, is defined but not used there). */
  const TableScale: real := 47.8658

  /** The transcendental and foreign parts: fe(Znum, B, s2) is the spline
      scattering factor at sqrt(s2) damped by exp(-s2 B / 4); dft(g, ix, iz)
      is the real part of the inverse transform of g at (ix, iz). */
  datatype Physics3D = Physics3D(
    fe: (int, real, real) -> real,
    cos: real -> real,
    sin: real -> real,
    dft: (seq<seq<Complex>>, int, int) -> real)

  /** The table geometry that SliceSetup fixes. */
  datatype Lut = Lut(nx: int, ny: int, nz: int, nzPerSlice: int, dkx: real, dkz: real, dz: real)

  /** The shape SliceSetup gives the geometry. */
  predicate LutOk(g: Lut)
  {
    g.nx >= 4 && g.nx % 4 == 0 && g.ny >= 4 && g.nzPerSlice >= 1 && g.nzPerSlice % 2 == 1 &&
    g.nz >= 2 && g.nz % 2 == 0 && g.dkx > 0.0 && g.dkz > 0.0 && g.dz > 0.0
  }

  /** The geometry for an atom radius, pixel size and slice thickness. */
  function Geometry(radius: real, dx: real, dy: real, dz: real): (g: Lut)
    requires radius > 0.0 && dx > 0.0 && dy > 0.0 && dz > 0.0
    ensures LutOk(g)
  {
    LutWidthFacts(radius, dx);
    LutWidthFacts(radius, dy);
    var nx := LutWidth(radius, dx);
    Quotient(Oversampling as real * dz, dx);
    var nzPerSlice := MakeOdd(Floor(Oversampling as real * dz / dx));
    var nz := (2 * Ceil(radius / dz)) * nzPerSlice;
    assert nz >= 2 && nz % 2 == 0 by { Product(2 * Ceil(radius / dz), nzPerSlice); }
    ProductQuotient(0.5 * Oversampling as real, nx as real, dx);
    ProductQuotient(nzPerSlice as real, nz as real, dz);
    Lut(nx, LutWidth(radius, dy), nz, nzPerSlice,
        FreqStep(nx, dx),
        nzPerSlice as real / (nz as real * dz), dz)
  }

  /** A quotient of positive reals is positive. */
  lemma Quotient(a: real, b: real)
    requires a > 0.0 && b > 0.0
    ensures a / b > 0.0
  {
  }

  /** A positive real over a product of positive reals is positive. */
  lemma ProductQuotient(a: real, b: real, c: real)
    requires a > 0.0 && b > 0.0 && c > 0.0
    ensures b * c > 0.0 && a / (b * c) > 0.0
  {
    MulLt(0.0, b, c);
    Quotient(a, b * c);
  }

  lemma Product(a: int, b: int)
    requires a >= 2 && a % 2 == 0 && b >= 1
    ensures a * b >= 2 && (a * b) % 2 == 0
  {
    var h := a / 2;
    assert a * b == 2 * (h * b);
  }

  /** The cutoff frequency kmax = 0.5 nx dkx / OVERSAMPLING. */
  function Kmax(g: Lut): real
  {
    Cutoff(g.nx, g.dkx)
  }

  /** Whatever the atom radius, the cutoff is a quarter of the inverse
      pixel size. */
  lemma KmaxIsQuarterOverDx(radius: real, dx: real, dy: real, dz: real)
    requires radius > 0.0 && dx > 0.0 && dy > 0.0 && dz > 0.0
    ensures Kmax(Geometry(radius, dx, dy, dz)) == 0.25 / dx
  {
    var g := Geometry(radius, dx, dy, dz);
    CutoffIsQuarterOverD(g.nx, dx);
  }

  // ---------------------------------------------------------------- reciprocal map

  /** The qy integral at y = 0 for the bin with kx^2 + kz^2 = s2: the terms
      2 fe(s3) for s3 = (dkx iy)^2 + s2, iy = from .. ny-1, up to the first
      term at or beyond kmax^2. */
  function QySum(ph: Physics3D, znum: int, b: real, g: Lut, kmax2: real, s2: real, from: int): real
    decreases g.ny - from
  {
    if from >= g.ny then 0.0
    else
      var s3 := (g.dkx * from as real) * (g.dkx * from as real) + s2;
      if s3 < kmax2 then 2.0 * ph.fe(znum, b, s3) + QySum(ph, znum, b, g, kmax2, s2, from + 1)
      else 0.0
  }

  /** The same integral with every term below kmax^2, in or out of order. */
  function DiscSum(ph: Physics3D, znum: int, b: real, g: Lut, kmax2: real, s2: real, from: int): real
    decreases g.ny - from
  {
    if from >= g.ny then 0.0
    else
      var s3 := (g.dkx * from as real) * (g.dkx * from as real) + s2;
      (if s3 < kmax2 then 2.0 * ph.fe(znum, b, s3) else 0.0) + DiscSum(ph, znum, b, g, kmax2, s2, from + 1)
  }

  lemma SquareMonotone(a: real, b: real)
    requires 0.0 <= a <= b
    ensures a * a <= b * b
  {
    assert a * a <= a * b;
  }

  lemma {:induction false} DiscSumBeyond(ph: Physics3D, znum: int, b: real, g: Lut, kmax2: real, s2: real, from: int)
    requires g.dkx >= 0.0 && from >= 0
    requires (g.dkx * from as real) * (g.dkx * from as real) + s2 >= kmax2
    ensures DiscSum(ph, znum, b, g, kmax2, s2, from) == 0.0
    decreases g.ny - from
  {
    if from < g.ny {
      SquareMonotone(g.dkx * from as real, g.dkx * (from + 1) as real);
      DiscSumBeyond(ph, znum, b, g, kmax2, s2, from + 1);
    }
  }

  /** Since the qy terms grow with iy, stopping at the first term beyond the
      cutoff loses nothing: the integral is the sum over the whole disc. */
  lemma {:induction false} QySumIsDiscSum(ph: Physics3D, znum: int, b: real, g: Lut, kmax2: real, s2: real, from: int)
    requires g.dkx >= 0.0 && from >= 0
    ensures QySum(ph, znum, b, g, kmax2, s2, from) == DiscSum(ph, znum, b, g, kmax2, s2, from)
    decreases g.ny - from
  {
    if from < g.ny {
      var s3 := (g.dkx * from as real) * (g.dkx * from as real) + s2;
      if s3 < kmax2 {
        QySumIsDiscSum(ph, znum, b, g, kmax2, s2, from + 1);
      } else {
        DiscSumBeyond(ph, znum, b, g, kmax2, s2, from);
      }
    }
  }

  /** The z position of the atom centre in the table, (nzPerSlice-1)/2
      samples below the top, as the phase factor uses it. */
  function ZPos(g: Lut): real
    requires g.nzPerSlice != 0
  {
    -2.0 * Pi * (g.dz / g.nzPerSlice as real * ((g.nzPerSlice - 1) / 2) as real)
  }

  /** Bin (ix, iz) of the reciprocal-space map: zero outside the disc
      kx^2 + kz^2 < kmax^2, inside it the projected scattering factor with
      the phase that centres the atom (the x position is 0). */
  function RecipEntry(ph: Physics3D, znum: int, b: real, g: Lut, zPos: real, ix: int, iz: int): Complex
    requires g.nx > 0 && g.nz > 0
  {
    BinAt(ph, znum, b, g, zPos, Frequency(g.dkx, ix, g.nx), Frequency(g.dkz, iz, g.nz))
  }

  /** The spatial frequency of bin i of n at spacing d. */
  function Frequency(d: real, i: int, n: int): real
    requires n > 0
  {
    d * FreqIndex(i, n) as real
  }

  /** The bin at spatial frequencies (kx, kz). */
  function BinAt(ph: Physics3D, znum: int, b: real, g: Lut, zPos: real, kx: real, kz: real): Complex
  {
    if Radius2(kx, kz) < Kmax2(g) then InsideBin(ph, znum, b, g, zPos, Kmax2(g), Radius2(kx, kz), kx, kz) else Zero
  }

  /** The squared cutoff. */
  function Kmax2(g: Lut): real
  {
    Kmax(g) * Kmax(g)
  }

  /** The squared length of the frequency (kx, kz). */
  function Radius2(kx: real, kz: real): real
  {
    kx * kx + kz * kz
  }

  /** A bin inside the disc: the projected factor times the phase factor. */
  function InsideBin(ph: Physics3D, znum: int, b: real, g: Lut, zPos: real, kmax2: real, s2: real, kx: real, kz: real): Complex
  {
    var f := (ph.fe(znum, b, s2) + QySum(ph, znum, b, g, kmax2, s2, 1)) * g.dkx;
    var phase := kx * 0.0 + kz * zPos;
    Complex(f * ph.cos(phase), f * ph.sin(phase))
  }

  /** The whole reciprocal-space map as the transform receives it. */
  function RecipGrid(ph: Physics3D, znum: int, b: real, g: Lut): (m: seq<seq<Complex>>)
    requires g.nx > 0 && g.nz > 0 && g.nzPerSlice != 0
    ensures |m| == g.nx && forall ix :: 0 <= ix < g.nx ==> |m[ix]| == g.nz
  {
    seq(g.nx, ix => seq(g.nz, iz => RecipEntry(ph, znum, b, g, ZPos(g), ix, iz)))
  }

  /** Bins outside the cutoff disc are left at zero. */
  lemma RecipOutsideDiscIsZero(ph: Physics3D, znum: int, b: real, g: Lut, ix: int, iz: int)
    requires g.nx > 0 && g.nz > 0 && g.nzPerSlice != 0
    requires Radius2(Frequency(g.dkx, ix, g.nx), Frequency(g.dkz, iz, g.nz)) >= Kmax2(g)
    ensures RecipEntry(ph, znum, b, g, ZPos(g), ix, iz) == Zero
  {
  }

  // ---------------------------------------------------------------- real-space table

  /** The sum over the nzPerSlice layers centred on layer iz, cut off at the
      upper half nz/2 of the transform. */
  function ZSum(out: (int, int) -> real, g: Lut, ix: int, iz: int, iiz: int): real
    decreases (g.nzPerSlice - 1) / 2 - iiz
  {
    var izOffset := (g.nzPerSlice - 1) / 2;
    if iiz > izOffset then 0.0
    else
      (if iz + izOffset + iiz < g.nz / 2 then out(ix, iz + izOffset + iiz) * (g.nx * g.nz) as real else 0.0)
      + ZSum(out, g, ix, iz, iiz + 1)
  }

  /** Entry (ix, iz) of the real-space table: the clamped layer sum scaled
      by 47.8658 dkx dkz / nz. */
  function TableEntry(out: (int, int) -> real, g: Lut, ix: int, iz: int): real
    requires g.nz != 0
  {
    var zScale := ZSum(out, g, ix, iz, -((g.nzPerSlice - 1) / 2));
    Scaled(g, if zScale < 0.0 then 0.0 else zScale)
  }

  /** A layer sum scaled into the table's units. */
  function Scaled(g: Lut, zScale: real): real
    requires g.nz != 0
  {
    TableScale * g.dkx * g.dkz / g.nz as real * zScale
  }

  /** A table of (nx/2) x (nz/2) entries stored at ix + iz nx/2. */
  predicate TableOk(t: seq<real>, out: (int, int) -> real, g: Lut)
    requires LutOk(g)
  {
    |t| == g.nx * g.nz / 4 &&
    forall ix, iz :: 0 <= ix < g.nx / 2 && 0 <= iz < g.nz / 2 ==> CellOk(t, out, g, ix, iz)
  }

  /** Entry ix + iz nx/2 of the table exists and is the table entry (ix, iz). */
  predicate CellOk(t: seq<real>, out: (int, int) -> real, g: Lut, ix: int, iz: int)
    requires LutOk(g)
  {
    0 <= ix + iz * (g.nx / 2) < |t| && t[ix + iz * (g.nx / 2)] == TableEntry(out, g, ix, iz)
  }

  lemma TableSize(g: Lut)
    requires LutOk(g)
    ensures g.nx * g.nz / 4 == (g.nx / 2) * (g.nz / 2)
  {
    var a, c := g.nx / 4, g.nz / 2;
    assert g.nx == 4 * a && g.nz == 2 * c;
    assert g.nx * g.nz == 4 * (a * (2 * c)) == 4 * ((2 * a) * c);
  }

  /** Every entry of the table is non-negative. */
  lemma TableNonNegative(t: seq<real>, out: (int, int) -> real, g: Lut, k: int)
    requires LutOk(g) && TableOk(t, out, g) && 0 <= k < |t|
    ensures t[k] >= 0.0
  {
    TableSize(g);
    var h := g.nx / 2;
    FlatIndexCovers(k, h, g.nz / 2);
    var ix, iz := k % h, k / h;
    var zScale := ZSum(out, g, ix, iz, -((g.nzPerSlice - 1) / 2));
    ScaledNonNegative(g, if zScale < 0.0 then 0.0 else zScale);
    assert CellOk(t, out, g, ix, iz);
  }

  /** The table's constant factor is positive, so a clamped sum stays
      non-negative. */
  lemma ScaledNonNegative(g: Lut, z: real)
    requires LutOk(g) && z >= 0.0
    ensures Scaled(g, z) >= 0.0
  {
    var c := TableScale * g.dkx * g.dkz / g.nz as real;
    assert c >= 0.0 by {
      assert TableScale * g.dkx > 0.0;
      assert TableScale * g.dkx * g.dkz > 0.0;
    }
    MulLe(0.0, z, c);
  }

  // ---------------------------------------------------------------- atom boxes

  /** The configuration the potential reads: atom radius, pixel sizes,
      slice thickness, radial table step, number of slices, atom box
      half-widths in pixels and slices, boundary mode, and the size of the
      image the slice stack holds (Model.nx, Model.ny). */
  datatype Config3D = Config3D(
    atomRadius: real, dx: real, dy: real, sliceThickness: real, dr: real,
    nslices: int, iRadX: int, iRadY: int, iRadZ: int, periodicXY: bool,
    imageNx: int, imageNy: int)

  predicate ConfigOk(cfg: Config3D)
  {
    cfg.atomRadius > 0.0 && cfg.dx > 0.0 && cfg.dy > 0.0 && cfg.sliceThickness > 0.0 && cfg.dr > 0.0 &&
    cfg.nslices >= 1 && cfg.iRadX >= 0 && cfg.iRadY >= 0 && cfg.iRadZ >= 0 &&
    cfg.imageNx >= 1 && cfg.imageNy >= 1
  }

  function CfgGeometry(cfg: Config3D): Lut
    requires ConfigOk(cfg)
  {
    Geometry(cfg.atomRadius, cfg.dx, cfg.dy, cfg.sliceThickness)
  }

  /** The slice the atom sits in, rounded to the nearest slice. */
  function AtomSlice(cfg: Config3D, atomZ: real): int
    requires ConfigOk(cfg)
  {
    Floor(atomZ / cfg.sliceThickness + 0.5)
  }

  /** The slices of the atom box relative to the atom's slice, clipped to
      the stack: [-min(iAtomZ, iRadZ), min(nslices - iAtomZ - 1, iRadZ)]. */
  function SliceRange(cfg: Config3D, iAtomZ: int): (r: (int, int))
  {
    (if iAtomZ - cfg.iRadZ < 0 then -iAtomZ else -cfg.iRadZ,
     if iAtomZ + cfg.iRadZ >= cfg.nslices then cfg.nslices - iAtomZ - 1 else cfg.iRadZ)
  }

  /** Whether the clipped slice range meets the stack. */
  predicate SlicesMeetStack(cfg: Config3D, iAtomZ: int)
  {
    var (z0, z1) := SliceRange(cfg, iAtomZ);
    iAtomZ + z0 < cfg.nslices && iAtomZ + z1 >= 0
  }

  /** When it meets the stack, the clipped slice range is a non-empty range
      of slices of the stack that contains the atom's own slice if that is
      in the stack. */
  lemma SliceRangeInStack(cfg: Config3D, iAtomZ: int)
    requires ConfigOk(cfg) && SlicesMeetStack(cfg, iAtomZ)
    ensures var (z0, z1) := SliceRange(cfg, iAtomZ);
      z0 <= z1 && 0 <= iAtomZ + z0 && iAtomZ + z1 < cfg.nslices &&
      (0 <= iAtomZ < cfg.nslices ==> z0 <= 0 <= z1)
  {
  }

  /** Radial entries per layer of the table (nRadius), and layers of the
      table (Nz_lut), as the add functions recompute them. */
  function Radial(cfg: Config3D): int
    requires ConfigOk(cfg)
  {
    (2 * Oversampling * Ceil(cfg.atomRadius / cfg.dx)) / 2
  }

  function SubSlices(cfg: Config3D): int
    requires ConfigOk(cfg)
  {
    MakeOdd(Floor(Oversampling as real * cfg.sliceThickness / cfg.dx))
  }

  function Layers(cfg: Config3D): int
    requires ConfigOk(cfg)
  {
    (2 * Ceil(cfg.atomRadius / cfg.sliceThickness)) * SubSlices(cfg) / 2
  }

  /** The recomputed sizes are the halves of the table's dimensions. */
  lemma RecomputedSizes(cfg: Config3D)
    requires ConfigOk(cfg)
    ensures var g := CfgGeometry(cfg);
      Radial(cfg) == g.nx / 2 && Layers(cfg) == g.nz / 2 && SubSlices(cfg) == g.nzPerSlice
  {
    var c := Ceil(cfg.atomRadius / cfg.dx);
    assert 2 * Oversampling * c == 2 * (2 * c);
    var a := 2 * Ceil(cfg.atomRadius / cfg.sliceThickness);
    var s := SubSlices(cfg);
    assert a * s == 2 * (Ceil(cfg.atomRadius / cfg.sliceThickness) * s);
  }

  /** The layer offset of the first slice of the box, iOffsetZ: the
      distance of that slice from the atom in sub-slices, rounded by the
      cast, times nRadius, in unsigned arithmetic. */
  function FirstOffset(cfg: Config3D, iAtomZ: int, z0: int, atomZ: real): int
    requires ConfigOk(cfg)
  {
    var dOffsZ := ((iAtomZ + z0) as real - atomZ / cfg.sliceThickness) * SubSlices(cfg) as real;
    U32(U32(Trunc(dOffsZ + 0.5)) * Radial(cfg))
  }

  /** The table of an element fits the add functions' reads. */
  predicate TableShaped(cfg: Config3D, tab: seq<real>)
    requires ConfigOk(cfg)
  {
    var g := CfgGeometry(cfg);
    |tab| == g.nx * g.nz / 4
  }

  /** The box of an atom in the clipped mode: columns clipped to [0, nx-1]
      and rows to [0, ny-1] of a grid nx by ny, slices to the stack; none
      when the box misses the grid or the stack. The add functions pass the
      image's size, where the C++ passes the table's (see ClipByTableWidth). */
  function NonPeriodicStamp(cfg: Config3D, tab: seq<real>, nx: int, ny: int, boxX: real, iAtomX: int, boxY: real, iAtomY: int, atomZ: real): (o: Option<SliceStamp.Stamp>)
    requires ConfigOk(cfg) && TableShaped(cfg, tab) && nx >= 1 && ny >= 1
    ensures o.Some? ==> SliceStamp.StampOk(o.value) && !o.value.periodic
    ensures o.Some? ==> o.value.iAtomZ + o.value.z1 < cfg.nslices && 0 <= o.value.iAtomZ + o.value.z0
    ensures o.Some? ==> o.value.nx == nx && o.value.ny == ny
  {
    var iAtomZ := AtomSlice(cfg, atomZ);
    var xstart := if iAtomX - cfg.iRadX < 0 then 0 else iAtomX - cfg.iRadX;
    var xend := if iAtomX + cfg.iRadX >= nx then nx - 1 else iAtomX + cfg.iRadX;
    var ystart := if iAtomY - cfg.iRadY < 0 then 0 else iAtomY - cfg.iRadY;
    var yend := if iAtomY + cfg.iRadY >= ny then ny - 1 else iAtomY + cfg.iRadY;
    var (zstart, zend) := SliceRange(cfg, iAtomZ);
    if xstart < nx && xend >= 0 && ystart < ny && yend >= 0 && SlicesMeetStack(cfg, iAtomZ) then
      SliceRangeInStack(cfg, iAtomZ);
      StampTable(cfg, tab);
      var nr := Radial(cfg);
      Some(SliceStamp.Stamp(tab, nr, nr * (Layers(cfg) - 1), SubSlices(cfg) * nr,
        FirstOffset(cfg, iAtomZ, zstart, atomZ), iAtomZ, zstart, zend,
        xstart, xend, ystart, yend, false, nx, ny, cfg.dx, cfg.dy, cfg.dr, boxX, boxY))
    else None
  }

  /** The table reads of any box stay inside an element's table. */
  lemma StampTable(cfg: Config3D, tab: seq<real>)
    requires ConfigOk(cfg) && TableShaped(cfg, tab)
    ensures var nr := Radial(cfg);
      nr >= 2 && 0 <= nr * (Layers(cfg) - 1) && nr * (Layers(cfg) - 1) + nr - 1 <= |tab|
  {
    var g := CfgGeometry(cfg);
    RecomputedSizes(cfg);
    TableSize(g);
    RowsFit(g.nx / 2, g.nz / 2);
  }

  /** The last row of an nr by m table ends inside it. */
  lemma RowsFit(nr: int, m: int)
    requires nr >= 0 && m >= 1
    ensures 0 <= nr * (m - 1) && nr * (m - 1) + nr - 1 < nr * m
  {
    assert nr * (m - 1) + nr == nr * m;
    CellLayout.MulMonotone(0, m - 1, nr);
  }

  /** The box of an atom in the periodic mode, with signed arithmetic:
      columns iAtomX - iRadX .. iAtomX + iRadX - 1 wrapped onto the grid,
      and the same slices as the clipped mode. Columns wrap modulo nx and
      rows modulo ny; the add functions pass the image's size, where the
      C++ passes the table's (see TableWrapMovesAtom). */
  function PeriodicStamp(cfg: Config3D, tab: seq<real>, nx: int, ny: int, boxX: real, iAtomX: int, boxY: real, iAtomY: int, atomZ: real): (o: Option<SliceStamp.Stamp>)
    requires ConfigOk(cfg) && TableShaped(cfg, tab)
    requires 2 * cfg.iRadX <= nx && 2 * cfg.iRadY <= ny && nx >= 1 && ny >= 1
    ensures o.Some? ==> SliceStamp.StampOk(o.value) && o.value.periodic
    ensures o.Some? ==> o.value.iAtomZ + o.value.z1 < cfg.nslices && 0 <= o.value.iAtomZ + o.value.z0
    ensures o.Some? ==> o.value.nx == nx && o.value.ny == ny
  {
    var iAtomZ := AtomSlice(cfg, atomZ);
    var (iaz0, iaz1) := SliceRange(cfg, iAtomZ);
    if SlicesMeetStack(cfg, iAtomZ) then
      SliceRangeInStack(cfg, iAtomZ);
      StampTable(cfg, tab);
      var nr := Radial(cfg);
      Some(SliceStamp.Stamp(tab, nr, nr * (Layers(cfg) - 1), SubSlices(cfg) * nr,
        FirstOffset(cfg, iAtomZ, iaz0, atomZ), iAtomZ, iaz0, iaz1,
        iAtomX - cfg.iRadX, iAtomX + cfg.iRadX - 1, iAtomY - cfg.iRadY, iAtomY + cfg.iRadY - 1,
        true, nx, ny, cfg.dx, cfg.dy, cfg.dr, boxX, boxY))
    else None
  }

  /** In the periodic mode every box column lands on its own grid column:
      the 2 iRadX columns of the box reach 2 iRadX distinct pixels. */
  lemma PeriodicColumnsDistinct(cfg: Config3D, tab: seq<real>, nx: int, ny: int, boxX: real, iAtomX: int, boxY: real, iAtomY: int, atomZ: real, i: int, j: int)
    requires ConfigOk(cfg) && TableShaped(cfg, tab)
    requires 2 * cfg.iRadX <= nx && 2 * cfg.iRadY <= ny && nx >= 1 && ny >= 1
    requires PeriodicStamp(cfg, tab, nx, ny, boxX, iAtomX, boxY, iAtomY, atomZ).Some?
    requires var st := PeriodicStamp(cfg, tab, nx, ny, boxX, iAtomX, boxY, iAtomY, atomZ).value;
      st.x0 <= i <= st.x1 && st.x0 <= j <= st.x1 && i != j
    ensures var st := PeriodicStamp(cfg, tab, nx, ny, boxX, iAtomX, boxY, iAtomY, atomZ).value;
      SliceStamp.Target(true, st.nx, i) != SliceStamp.Target(true, st.nx, j)
  {
    var st := PeriodicStamp(cfg, tab, nx, ny, boxX, iAtomX, boxY, iAtomY, atomZ).value;
    SliceStamp.AxisBijection(true, st.x0, st.x1, st.nx, j, 0);
    SliceStamp.AxisBijection(true, st.x0, st.x1, st.nx, i, SliceStamp.Target(true, st.nx, j));
    SliceStamp.AxisBijection(true, st.x0, st.x1, st.nx, j, SliceStamp.Target(true, st.nx, j));
  }

  // ---------------------------------------------------------------- the grid width as written

  /** As written, SliceSetup stores the table's width in m_nx, and the
      clipped mode then tests the box against it instead of the image's
      width: an atom on the image whose box starts at or beyond the
      table's last column adds nothing. */
  lemma ClipByTableWidth(cfg: Config3D, tab: seq<real>, boxX: real, iAtomX: int, boxY: real, iAtomY: int, atomZ: real)
    requires ConfigOk(cfg) && TableShaped(cfg, tab)
    requires CfgGeometry(cfg).nx <= iAtomX - cfg.iRadX
    ensures NonPeriodicStamp(cfg, tab, CfgGeometry(cfg).nx, CfgGeometry(cfg).ny, boxX, iAtomX, boxY, iAtomY, atomZ).None?
  {
  }

  /** Clipped to the image, the box of an atom on the image and in reach
      of the stack is stamped, and it holds the atom's own pixel. */
  lemma ClipByImageKeepsAtom(cfg: Config3D, tab: seq<real>, boxX: real, iAtomX: int, boxY: real, iAtomY: int, atomZ: real)
    requires ConfigOk(cfg) && TableShaped(cfg, tab)
    requires 0 <= iAtomX < cfg.imageNx && 0 <= iAtomY < cfg.imageNy
    requires SlicesMeetStack(cfg, AtomSlice(cfg, atomZ))
    ensures var o := NonPeriodicStamp(cfg, tab, cfg.imageNx, cfg.imageNy, boxX, iAtomX, boxY, iAtomY, atomZ);
      o.Some? && o.value.x0 <= iAtomX <= o.value.x1 && o.value.y0 <= iAtomY <= o.value.y1
  {
  }

  /** As written, the periodic mode wraps columns modulo the table's width:
      an atom on the image beyond that width has its own column written to
      another pixel, where wrapping by the image's width keeps it. */
  lemma TableWrapMovesAtom(cfg: Config3D, iAtomX: int)
    requires ConfigOk(cfg) && CfgGeometry(cfg).nx <= iAtomX < cfg.imageNx
    ensures SliceStamp.Target(true, CfgGeometry(cfg).nx, iAtomX) != iAtomX
    ensures SliceStamp.Target(true, cfg.imageNx, iAtomX) == iAtomX
  {
    var n := CfgGeometry(cfg).nx;
    assert (iAtomX + n) % n < n;
    WrapInRange(iAtomX, cfg.imageNx);
  }

  /** A column already on the grid wraps onto itself. */
  lemma WrapInRange(i: int, n: int)
    requires 0 <= i < n
    ensures (i + n) % n == i
  {
    assert i + n == 1 * n + i;
  }

  /** A concrete case: atom radius 8, pixels of 1, a 512 by 512 image and
      a box half-width of 8 give a table 32 wide; an atom at pixel (100,
      100) in slice 5 of 10 is dropped as written and stamped when clipped
      to the image. */
  lemma TableWidthCounterexample(tab: seq<real>)
    requires var cfg := Config3D(8.0, 1.0, 1.0, 1.0, 1.0, 10, 8, 8, 1, false, 512, 512);
      TableShaped(cfg, tab)
    ensures var cfg := Config3D(8.0, 1.0, 1.0, 1.0, 1.0, 10, 8, 8, 1, false, 512, 512);
      CfgGeometry(cfg).nx == 32 &&
      NonPeriodicStamp(cfg, tab, 32, 32, 100.5, 100, 100.5, 100, 5.0).None? &&
      NonPeriodicStamp(cfg, tab, 512, 512, 100.5, 100, 100.5, 100, 5.0).Some?
  {
    var cfg := Config3D(8.0, 1.0, 1.0, 1.0, 1.0, 10, 8, 8, 1, false, 512, 512);
    assert Ceil(8.0 / 1.0) == 8;
    assert AtomSlice(cfg, 5.0) == 5;
    ClipByTableWidth(cfg, tab, 100.5, 100, 100.5, 100, 5.0);
    SliceLoopCorrected(cfg, 5);
    ClipByImageKeepsAtom(cfg, tab, 100.5, 100, 100.5, 100, 5.0);
  }

  // ---------------------------------------------------------------- the periodic mode as written

  /** The column indices the periodic x loop visits as written: iax0 and
      iax1 are unsigned, so for iAtomX < iRadX the start wraps past the end
      and the loop runs zero times. */
  function PeriodicColumnsAsWritten(iAtom: int, iRad: int): (cols: seq<int>)
    requires 0 <= iAtom < TwoTo32 && 0 <= iRad < TwoTo32
  {
    var iax0 := U32(iAtom - iRad);
    var iax1 := U32(iAtom + iRad);
    if iax0 < iax1 then seq(iax1 - iax0, k => iax0 + k) else []
  }

  /** The corrected columns: iAtomX - iRadX .. iAtomX + iRadX - 1. */
  function PeriodicColumns(iAtom: int, iRad: int): (cols: seq<int>)
    requires 0 <= iRad
    ensures |cols| == 2 * iRad
    ensures forall k :: 0 <= k < |cols| ==> cols[k] == iAtom - iRad + k
  {
    seq(2 * iRad, k => iAtom - iRad + k)
  }

  /** An atom at the left edge (column 0, box half-width 1) loses every
      column as written, where the corrected box has two. */
  lemma LeftEdgeColumnsLost()
    ensures PeriodicColumnsAsWritten(0, 1) == []
    ensures PeriodicColumns(0, 1) == [-1, 0]
  {
    assert U32(-1) == TwoTo32 - 1;
  }

  /** Away from the edges the as-written columns are the corrected ones. */
  lemma InteriorColumnsAgree(iAtom: int, iRad: int)
    requires 0 <= iRad <= iAtom && iAtom + iRad < TwoTo32
    ensures PeriodicColumnsAsWritten(iAtom, iRad) == PeriodicColumns(iAtom, iRad)
  {
  }

  /** Whether the periodic slice loop runs at all as written: iaz0 is
      computed by an unsigned test that is never negative, so it is -iRadZ;
      the loop condition iaz <= iaz1 then compares -iRadZ converted to
      unsigned with the unsigned iaz1. */
  predicate SliceLoopRunsAsWritten(cfg: Config3D, iAtomZ: int)
  {
    var iaz0 := -cfg.iRadZ;
    var iaz1 := if U32(iAtomZ + cfg.iRadZ) >= cfg.nslices then U32(cfg.nslices - iAtomZ - 1) else cfg.iRadZ;
    U32(iAtomZ + iaz0) < cfg.nslices && U32(iaz0) <= iaz1
  }

  /** As written, an atom inside the stack with a box of at least one slice
      reaches no slice at all in the periodic mode. */
  lemma SliceLoopNeverRuns(cfg: Config3D, iAtomZ: int)
    requires ConfigOk(cfg) && 0 <= iAtomZ < cfg.nslices
    requires 1 <= cfg.iRadZ && cfg.nslices + cfg.iRadZ < TwoTo32
    ensures !SliceLoopRunsAsWritten(cfg, iAtomZ)
  {
  }

  /** The corrected slice range of such an atom is the clipped mode's: it
      meets the stack and holds the atom's own slice. */
  lemma SliceLoopCorrected(cfg: Config3D, iAtomZ: int)
    requires ConfigOk(cfg) && 0 <= iAtomZ < cfg.nslices
    ensures SlicesMeetStack(cfg, iAtomZ)
    ensures SliceRange(cfg, iAtomZ).0 <= 0 <= SliceRange(cfg, iAtomZ).1
  {
  }

  /** A concrete stack: ten slices, box half-height one, atom in slice 5. */
  lemma SliceLoopCounterexample()
    ensures !SliceLoopRunsAsWritten(Config3D(1.0, 1.0, 1.0, 1.0, 1.0, 10, 1, 1, 1, true, 16, 16), 5)
    ensures SliceRange(Config3D(1.0, 1.0, 1.0, 1.0, 1.0, 10, 1, 1, 1, true, 16, 16), 5) == (-1, 1)
  {
    assert U32(-1) == TwoTo32 - 1;
  }

  // ---------------------------------------------------------------- the class

  class FftPotential3D {
    const cfg: Config3D
    /** The scattering-factor table (row 0 the k grid). */
    const scatPar: array2<real>
    /** The slice stack, indexed [slice][y][x]. */
    const trans1: array3<Complex>

    var nx: int
    var ny: int
    var nz: int
    var nzPerSlice: int
    var dkx: real
    var dkz: real
    /** The lookup tables computed so far, by atomic number. */
    var atPot: map<int, seq<real>>

    function Geom(): Lut
      reads this
    {
      Lut(nx, ny, nz, nzPerSlice, dkx, dkz, cfg.sliceThickness)
    }

    /** Tables exist only once the geometry has been set up, and each has
        the size that geometry gives. */
    predicate Valid()
      reads this
    {
      ConfigOk(cfg) && scatPar.Length0 >= 1 && scatPar.Length1 >= 10 &&
      (|atPot| > 0 ==> Geom() == CfgGeometry(cfg)) &&
      (forall z :: z in atPot ==> TableShaped(cfg, atPot[z]))
    }

    constructor (cfg: Config3D, scatPar: array2<real>, trans1: array3<Complex>)
      requires ConfigOk(cfg) && scatPar.Length0 >= 1 && scatPar.Length1 >= 10
      ensures Valid() && atPot == map[]
      ensures this.cfg == cfg && this.scatPar == scatPar && this.trans1 == trans1
      ensures dkz == 0.0 && dkx == 0.0 && nz == 0 && nzPerSlice == 0
    {
      this.cfg := cfg;
      this.scatPar := scatPar;
      this.trans1 := trans1;
      nx, ny := 0, 0;
      nz, nzPerSlice := 0, 0;
      dkx, dkz := 0.0, 0.0;
      atPot := map[];
    }

    /** Sizes the tables and adjusts the scattering-factor tail, but only
        while no table has been computed. */
    method SliceSetup()
      requires Valid()
      modifies this, scatPar
      ensures Valid() && atPot == old(atPot) && Geom() == CfgGeometry(cfg)
      ensures old(|atPot|) > 0 ==> unchanged(scatPar)
      ensures old(|atPot|) == 0 ==>
        forall r, j :: 0 <= r < scatPar.Length0 && 0 <= j < scatPar.Length1 ==>
          scatPar[r, j] == ScatteringTail.Clamped(old(ScatteringTail.Row0(scatPar)), 0.25 / cfg.dx, r, j, old(scatPar[r, j]))
    {
      if |atPot| == 0 {
        var g := CfgGeometry(cfg);
        nx, ny, nzPerSlice, nz := g.nx, g.ny, g.nzPerSlice, g.nz;
        dkx, dkz := g.dkx, g.dkz;
        var kmax := Cutoff(nx, dkx);
        KmaxIsQuarterOverDx(cfg.atomRadius, cfg.dx, cfg.dy, cfg.sliceThickness);
        var _ := ScatteringTail.ClampTail(scatPar, kmax);
      }
    }

    /** Computes the table of element znum unless it is already cached;
        cached tables are never touched. */
    method ComputeAtomPotential(znum: int, dw: real, tds: bool, ph: Physics3D)
      requires Valid() && Geom() == CfgGeometry(cfg)
      modifies this
      ensures Valid() && Geom() == old(Geom())
      ensures znum in atPot
      ensures forall z :: z in old(atPot) ==> z in atPot && atPot[z] == old(atPot[z])
      ensures znum !in old(atPot) ==>
        var g, b := Geom(), if tds then 0.0 else dw;
        atPot == old(atPot)[znum := atPot[znum]] &&
        TableOk(atPot[znum], (ix, iz) => ph.dft(RecipGrid(ph, znum, b, g), ix, iz), g)
    {
      if znum !in atPot {
        var g := Geom();
        var b := if tds then 0.0 else dw;
        var tmp := ReciprocalMap(ph, znum, b, g);
        var grid := Snapshot(tmp);
        forall ix | 0 <= ix < g.nx
          ensures grid[ix] == RecipGrid(ph, znum, b, g)[ix]
        {
        }
        assert grid == RecipGrid(ph, znum, b, g);
        var t := RealSpaceTable((ix, iz) => ph.dft(grid, ix, iz), g);
        atPot := atPot[znum := t];
      }
    }

    /** Adds an atom at (atomX, atomY, atomZ) to the slice stack, in the
        mode the configuration selects; iAtomX and iAtomY are its pixel. */
    method AddAtomToSlices(znum: int, atomX: real, atomY: real, atomZ: real, sqrt: real -> real)
      requires Valid() && znum in atPot && trans1.Length0 == cfg.nslices
      requires trans1.Length1 >= cfg.imageNy && trans1.Length2 >= cfg.imageNx
      requires cfg.periodicXY ==> 2 * cfg.iRadX <= cfg.imageNx && 2 * cfg.iRadY <= cfg.imageNy
      modifies trans1
      ensures var iAtomX, iAtomY := Floor(atomX / cfg.dx), Floor(atomY / cfg.dy);
        var o := if cfg.periodicXY then PeriodicStamp(cfg, atPot[znum], cfg.imageNx, cfg.imageNy, atomX, iAtomX, atomY, iAtomY, atomZ)
                 else NonPeriodicStamp(cfg, atPot[znum], cfg.imageNx, cfg.imageNy, atomX, iAtomX, atomY, iAtomY, atomZ);
        forall s, y, x :: 0 <= s < trans1.Length0 && 0 <= y < trans1.Length1 && 0 <= x < trans1.Length2 ==>
          trans1[s, y, x] == (if o.Some? then SliceStamp.Stamped(o.value, sqrt, old(trans1[s, y, x]), s, y, x) else old(trans1[s, y, x]))
    {
      var iAtomX := Floor(atomX / cfg.dx);
      var iAtomY := Floor(atomY / cfg.dy);
      if cfg.periodicXY {
        AddAtomPeriodic(znum, atomX, iAtomX, atomY, iAtomY, atomZ, sqrt);
      } else {
        AddAtomNonPeriodic(znum, atomX, iAtomX, atomY, iAtomY, atomZ, sqrt);
      }
    }

    /** The clipped mode: columns outside the grid and slices outside the
        stack are skipped. */
    method AddAtomNonPeriodic(znum: int, boxX: real, iAtomX: int, boxY: real, iAtomY: int, atomZ: real, sqrt: real -> real)
      requires Valid() && znum in atPot && trans1.Length0 == cfg.nslices
      requires trans1.Length1 >= cfg.imageNy && trans1.Length2 >= cfg.imageNx
      modifies trans1
      ensures var o := NonPeriodicStamp(cfg, atPot[znum], cfg.imageNx, cfg.imageNy, boxX, iAtomX, boxY, iAtomY, atomZ);
        forall s, y, x :: 0 <= s < trans1.Length0 && 0 <= y < trans1.Length1 && 0 <= x < trans1.Length2 ==>
          trans1[s, y, x] == (if o.Some? then SliceStamp.Stamped(o.value, sqrt, old(trans1[s, y, x]), s, y, x) else old(trans1[s, y, x]))
    {
      var o := NonPeriodicStamp(cfg, atPot[znum], cfg.imageNx, cfg.imageNy, boxX, iAtomX, boxY, iAtomY, atomZ);
      if o.Some? {
        SliceStamp.Box(trans1, o.value, sqrt);
      }
    }

    /** The periodic mode, with signed column and slice ranges: columns
        wrap around the grid. */
    method AddAtomPeriodic(znum: int, boxX: real, iAtomX: int, boxY: real, iAtomY: int, atomZ: real, sqrt: real -> real)
      requires Valid() && znum in atPot && trans1.Length0 == cfg.nslices
      requires trans1.Length1 >= cfg.imageNy && trans1.Length2 >= cfg.imageNx
      requires 2 * cfg.iRadX <= cfg.imageNx && 2 * cfg.iRadY <= cfg.imageNy
      modifies trans1
      ensures var o := PeriodicStamp(cfg, atPot[znum], cfg.imageNx, cfg.imageNy, boxX, iAtomX, boxY, iAtomY, atomZ);
        forall s, y, x :: 0 <= s < trans1.Length0 && 0 <= y < trans1.Length1 && 0 <= x < trans1.Length2 ==>
          trans1[s, y, x] == (if o.Some? then SliceStamp.Stamped(o.value, sqrt, old(trans1[s, y, x]), s, y, x) else old(trans1[s, y, x]))
    {
      var o := PeriodicStamp(cfg, atPot[znum], cfg.imageNx, cfg.imageNy, boxX, iAtomX, boxY, iAtomY, atomZ);
      if o.Some? {
        SliceStamp.Box(trans1, o.value, sqrt);
      }
    }
  }

  /** The qy integral of one bin, with the early break. */
  method QyIntegral(ph: Physics3D, znum: int, b: real, g: Lut, kmax2: real, s2: real) returns (f: real)
    ensures f == QySum(ph, znum, b, g, kmax2, s2, 1)
  {
    f := 0.0;
    var iy := 1;
    while iy < g.ny
      invariant iy >= 1
      invariant f + QySum(ph, znum, b, g, kmax2, s2, iy) == QySum(ph, znum, b, g, kmax2, s2, 1)
      decreases g.ny - iy
    {
      var s3 := g.dkx * iy as real;
      s3 := s3 * s3 + s2;
      assert s3 == (g.dkx * iy as real) * (g.dkx * iy as real) + s2;
      if s3 < kmax2 {
        f := f + 2.0 * ph.fe(znum, b, s3);
      } else {
        break;
      }
      iy := iy + 1;
    }
  }

  /** Bin (ix, iz) computed as the source does, with the break in qy. */
  method RecipBin(ph: Physics3D, znum: int, b: real, g: Lut, zPos: real, ix: int, iz: int) returns (c: Complex)
    requires g.nx > 0 && g.nz > 0
    ensures c == RecipEntry(ph, znum, b, g, zPos, ix, iz)
  {
    c := BinValue(ph, znum, b, g, zPos, Frequency(g.dkx, ix, g.nx), Frequency(g.dkz, iz, g.nz));
  }

  method BinValue(ph: Physics3D, znum: int, b: real, g: Lut, zPos: real, kx: real, kz: real) returns (c: Complex)
    ensures c == BinAt(ph, znum, b, g, zPos, kx, kz)
  {
    var kmax2 := Kmax2(g);
    var s2 := Radius2(kx, kz);
    c := Zero;
    if s2 < kmax2 {
      c := InsideValue(ph, znum, b, g, zPos, kmax2, s2, kx, kz);
    }
  }

  method InsideValue(ph: Physics3D, znum: int, b: real, g: Lut, zPos: real, kmax2: real, s2: real, kx: real, kz: real) returns (c: Complex)
    ensures c == InsideBin(ph, znum, b, g, zPos, kmax2, s2, kx, kz)
  {
    var f := ph.fe(znum, b, s2);
    var qy := QyIntegral(ph, znum, b, g, kmax2, s2);
    f := (f + qy) * g.dkx;
    var phase := kx * 0.0 + kz * zPos;
    c := Complex(f * ph.cos(phase), f * ph.sin(phase));
  }

  /** Column iz of the reciprocal-space map; the rest of the array is kept. */
  method RecipColumn(tmp: array2<Complex>, ph: Physics3D, znum: int, b: real, g: Lut, zPos: real, iz: int)
    requires LutOk(g) && tmp.Length0 == g.nx && tmp.Length1 == g.nz && 0 <= iz < g.nz
    modifies tmp
    ensures forall i, j :: 0 <= i < g.nx && 0 <= j < g.nz ==>
      tmp[i, j] == (if j == iz then RecipEntry(ph, znum, b, g, zPos, i, j) else old(tmp[i, j]))
  {
    var ix := 0;
    while ix < g.nx
      invariant 0 <= ix <= g.nx
      invariant forall i, j :: 0 <= i < g.nx && 0 <= j < g.nz ==>
        tmp[i, j] == (if j == iz && i < ix then RecipEntry(ph, znum, b, g, zPos, i, j) else old(tmp[i, j]))
    {
      var c := RecipBin(ph, znum, b, g, zPos, ix, iz);
      tmp[ix, iz] := c;
      ix := ix + 1;
    }
  }

  /** The reciprocal-space map of one element, bin by bin (iz outer, ix
      inner). */
  method ReciprocalMap(ph: Physics3D, znum: int, b: real, g: Lut) returns (tmp: array2<Complex>)
    requires LutOk(g)
    ensures fresh(tmp) && tmp.Length0 == g.nx && tmp.Length1 == g.nz
    ensures forall ix, iz :: 0 <= ix < g.nx && 0 <= iz < g.nz ==> tmp[ix, iz] == RecipEntry(ph, znum, b, g, ZPos(g), ix, iz)
  {
    tmp := new Complex[g.nx, g.nz]((_, _) => Zero);
    var zPos := ZPos(g);
    var iz := 0;
    while iz < g.nz
      invariant 0 <= iz <= g.nz
      invariant forall i, j :: 0 <= i < g.nx && 0 <= j < iz ==> tmp[i, j] == RecipEntry(ph, znum, b, g, zPos, i, j)
    {
      RecipColumn(tmp, ph, znum, b, g, zPos, iz);
      iz := iz + 1;
    }
  }

  /** The layer sum of one table entry, with the cut at nz/2. */
  method LayerSum(out: (int, int) -> real, g: Lut, ix: int, iz: int) returns (zScale: real)
    ensures zScale == ZSum(out, g, ix, iz, -((g.nzPerSlice - 1) / 2))
  {
    var izOffset := (g.nzPerSlice - 1) / 2;
    zScale := 0.0;
    var iiz := -izOffset;
    while iiz <= izOffset
      invariant zScale + ZSum(out, g, ix, iz, iiz) == ZSum(out, g, ix, iz, -izOffset)
      decreases izOffset - iiz
    {
      if iz + izOffset + iiz < g.nz / 2 {
        zScale := zScale + out(ix, iz + izOffset + iiz) * (g.nx * g.nz) as real;
      }
      iiz := iiz + 1;
    }
  }

  /** The entries of column ix of the table, at ix + iz nx/2; the rest of
      the array is kept. */
  method TableColumn(a: array<real>, out: (int, int) -> real, g: Lut, ix: int)
    requires LutOk(g) && a.Length == (g.nx / 2) * (g.nz / 2) && 0 <= ix < g.nx / 2
    modifies a
    ensures forall k :: 0 <= k < a.Length ==>
      a[k] == (if k % (g.nx / 2) == ix then TableEntry(out, g, ix, k / (g.nx / 2)) else old(a[k]))
  {
    var h, m := g.nx / 2, g.nz / 2;
    ColumnStart(a[..], out, g, h, ix);
    var iz := 0;
    while iz < m
      invariant 0 <= iz <= m
      invariant ColumnUpTo(a[..], old(a[..]), out, g, h, ix, iz)
    {
      var zScale := LayerSum(out, g, ix, iz);
      if zScale < 0.0 {
        zScale := 0.0;
      }
      ColumnStep(a[..], old(a[..]), out, g, h, m, ix, iz);
      a[ix + iz * h] := Scaled(g, zScale);
      iz := iz + 1;
    }
    ColumnDone(a[..], old(a[..]), out, g, h, m, ix);
  }

  /** Column ix of the table is written below row iz: those entries hold
      their table value, every other entry is as in s0. */
  ghost predicate ColumnUpTo(s: seq<real>, s0: seq<real>, out: (int, int) -> real, g: Lut, h: int, ix: int, iz: int)
    requires g.nz != 0 && h > 0
  {
    |s| == |s0| &&
    forall k :: 0 <= k < |s| ==> s[k] == (if k % h == ix && k / h < iz then TableEntry(out, g, ix, k / h) else s0[k])
  }

  lemma ColumnStart(s: seq<real>, out: (int, int) -> real, g: Lut, h: int, ix: int)
    requires g.nz != 0 && h > 0
    ensures ColumnUpTo(s, s, out, g, h, ix, 0)
  {
    forall k | 0 <= k < |s|
      ensures k / h >= 0
    {
      CellLayout.QuotientNonNegative(k, h);
    }
  }

  /** Writing the entry of row iz at ix + iz h moves the column on by one
      row. */
  lemma ColumnStep(s: seq<real>, s0: seq<real>, out: (int, int) -> real, g: Lut, h: int, m: int, ix: int, iz: int)
    requires g.nz != 0 && 0 <= ix < h && 0 <= iz < m && |s| == h * m
    requires ColumnUpTo(s, s0, out, g, h, ix, iz)
    ensures 0 <= ix + iz * h < |s|
    ensures ColumnUpTo(s[ix + iz * h := TableEntry(out, g, ix, iz)], s0, out, g, h, ix, iz + 1)
  {
    FlatIndexInRange(ix, iz, h, m);
    var s' := s[ix + iz * h := TableEntry(out, g, ix, iz)];
    forall k | 0 <= k < |s'|
      ensures s'[k] == (if k % h == ix && k / h < iz + 1 then TableEntry(out, g, ix, k / h) else s0[k])
    {
      StrideHit(k, ix, iz, h);
    }
  }

  /** After the last row every entry of column ix holds its table value. */
  lemma ColumnDone(s: seq<real>, s0: seq<real>, out: (int, int) -> real, g: Lut, h: int, m: int, ix: int)
    requires g.nz != 0 && h > 0 && |s| == h * m
    requires ColumnUpTo(s, s0, out, g, h, ix, m)
    ensures forall k :: 0 <= k < |s| ==> s[k] == (if k % h == ix then TableEntry(out, g, ix, k / h) else s0[k])
  {
    forall k | 0 <= k < |s|
      ensures k % h == ix ==> k / h < m
    {
      FlatIndexCovers(k, h, m);
    }
  }

  /** Flat index k is the one written for (ix, iz) exactly when it lies in
      column ix and row iz. */
  lemma StrideHit(k: int, ix: int, iz: int, h: int)
    requires 0 <= ix < h && 0 <= iz && 0 <= k
    ensures k == ix + iz * h <==> (k % h == ix && k / h == iz)
  {
    if k == ix + iz * h {
      FlatIndex(ix, iz, h);
    }
    if k % h == ix && k / h == iz {
      CellLayout.DivMod(k, h);
    }
  }

  /** The real-space table of nx*nz/4 entries, filled at ix + iz nx/2 for
      ix < nx/2 and iz < nz/2. */
  method RealSpaceTable(out: (int, int) -> real, g: Lut) returns (t: seq<real>)
    requires LutOk(g)
    ensures TableOk(t, out, g)
  {
    TableSize(g);
    var a := new real[g.nx * g.nz / 4];
    FillColumns(a, out, g);
    t := a[..];
    TableFromColumns(t, out, g);
  }

  /** The ix loop of the table: every column in turn. */
  method FillColumns(a: array<real>, out: (int, int) -> real, g: Lut)
    requires LutOk(g) && a.Length == (g.nx / 2) * (g.nz / 2)
    modifies a
    ensures ColumnsBelow(a[..], out, g, g.nx / 2, g.nx / 2)
  {
    var h := g.nx / 2;
    var ix := 0;
    while ix < h
      invariant 0 <= ix <= h
      invariant ColumnsBelow(a[..], out, g, h, ix)
    {
      ghost var before := a[..];
      TableColumn(a, out, g, ix);
      ColumnsStep(before, a[..], out, g, h, ix);
      ix := ix + 1;
    }
  }

  /** The columns below ix of the table are filled. */
  ghost predicate ColumnsBelow(s: seq<real>, out: (int, int) -> real, g: Lut, h: int, ix: int)
    requires g.nz != 0 && h > 0
  {
    forall k :: 0 <= k < |s| && k % h < ix ==> Entry(s, k) == TableEntry(out, g, k % h, k / h)
  }

  /** Entry k of a flat table. */
  function Entry(s: seq<real>, k: int): real
    requires 0 <= k < |s|
  {
    s[k]
  }

  /** Filling column ix keeps the columns below it and adds column ix. */
  lemma ColumnsStep(s: seq<real>, s': seq<real>, out: (int, int) -> real, g: Lut, h: int, ix: int)
    requires g.nz != 0 && h > 0 && |s'| == |s|
    requires ColumnsBelow(s, out, g, h, ix)
    requires forall k :: 0 <= k < |s'| ==> s'[k] == (if k % h == ix then TableEntry(out, g, ix, k / h) else s[k])
    ensures ColumnsBelow(s', out, g, h, ix + 1)
  {
    forall k | 0 <= k < |s'| && k % h < ix + 1
      ensures Entry(s', k) == TableEntry(out, g, k % h, k / h)
    {
      if k % h < ix {
        assert Entry(s, k) == s[k];
      }
    }
  }

  /** With every column filled the flat array is the table. */
  lemma TableFromColumns(t: seq<real>, out: (int, int) -> real, g: Lut)
    requires LutOk(g) && |t| == g.nx * g.nz / 4
    requires ColumnsBelow(t, out, g, g.nx / 2, g.nx / 2)
    ensures TableOk(t, out, g)
  {
    forall ix, iz | 0 <= ix < g.nx / 2 && 0 <= iz < g.nz / 2
      ensures CellOk(t, out, g, ix, iz)
    {
      TableCell(t, out, g, ix, iz);
    }
  }

  /** Cell (ix, iz) of a table whose columns are all filled. */
  lemma TableCell(t: seq<real>, out: (int, int) -> real, g: Lut, ix: int, iz: int)
    requires LutOk(g) && |t| == g.nx * g.nz / 4
    requires ColumnsBelow(t, out, g, g.nx / 2, g.nx / 2)
    requires 0 <= ix < g.nx / 2 && 0 <= iz < g.nz / 2
    ensures CellOk(t, out, g, ix, iz)
  {
    TableSize(g);
    ColumnCell(t, out, g, g.nx / 2, g.nz / 2, ix, iz);
  }

  /** Cell (i, j) of a table whose columns are all filled. */
  lemma ColumnCell(t: seq<real>, out: (int, int) -> real, g: Lut, h: int, m: int, i: int, j: int)
    requires g.nz != 0 && 0 <= i < h && 0 <= j < m && |t| == h * m
    requires ColumnsBelow(t, out, g, h, h)
    ensures 0 <= i + j * h < |t| && t[i + j * h] == TableEntry(out, g, i, j)
  {
    var k := i + j * h;
    FlatIndexInRange(i, j, h, m);
    FlatIndex(i, j, h);
    assert 0 <= k < |t| && k % h < h;
    assert Entry(t, k) == TableEntry(out, g, k % h, k / h);
  }
}
