// The experiment base class (libs/experiments/base.cpp): how the
// constructor derives the slicing and the sampling from the sample's extent,
// the Fresnel propagators, one multislice pass (transmit, transform,
// propagate, transform back, normalise) over every slice, the choice of the
// slices whose wave is written out, and the running average of diffraction
// patterns with its chi-square record.
// The transforms, the transmission function of a slice and cos/sin are
// parameters (Physics); logging, timing and file output are not modelled.

module Experiment {
  import opened Numerics
  import opened WaveBase
  import CellLayout

  // ---------------------------------------------------------------- slicing

  /** SliceThicknessCalculation. */
  datatype SliceMode = Auto | Thickness | NumberOfSlices

  /** ResolutionCalculation. */
  datatype ResolutionMode = FillN | FillRes | CellRes | CellN | SizeRes | SizeN

  /** The Model part of the configuration the constructor rewrites. */
  datatype Model = Model(
    sliceMode: SliceMode, resolutionMode: ResolutionMode,
    nSlices: int, sliceThickness: real,
    nx: int, ny: int, dx: real, dy: real,
    xOffset: real, yOffset: real,
    areaX: real, areaY: real, centerSample: bool)

  /** GetCrystalBoundaries. */
  datatype Bounds = Bounds(minX: real, maxX: real, minY: real, maxY: real, minZ: real, maxZ: real)

  /** Integer slice count as a real. */
  function R(n: int): real { n as real }

  /** The slice switch. A division by a zero slice count or thickness gives
      no configuration (the program goes on with an infinite or undefined
      value). */
  function SlicePolicy(m: Model, zTotal: real): (r: Option<Model>)
    ensures r.Some? ==> r.value.(nSlices := m.nSlices, sliceThickness := m.sliceThickness) == m
  {
    match m.sliceMode
    case Auto =>
      var n := Trunc(zTotal);
      if n == 0 then None
      else Some(m.(sliceThickness := zTotal / R(n) + 0.01 * (zTotal / R(n)), nSlices := n))
    case NumberOfSlices =>
      if m.nSlices == 0 then None
      else Some(m.(sliceThickness := zTotal / R(m.nSlices) + 0.01 * (zTotal / R(m.nSlices))))
    case Thickness =>
      if m.sliceThickness == 0.0 then None
      else Some(m.(nSlices := Trunc(zTotal / m.sliceThickness)))
  }

  /** With a given or an automatic slice count the slices add up to 1.01
      times the sample's thickness; the automatic count is the whole number
      of Angstroms in it. */
  lemma SlicesSpanSample(m: Model, zTotal: real)
    requires m.sliceMode != Thickness && SlicePolicy(m, zTotal).Some?
    ensures var r := SlicePolicy(m, zTotal).value;
      R(r.nSlices) * r.sliceThickness == 1.01 * zTotal &&
      (m.sliceMode == Auto ==> r.nSlices == Trunc(zTotal)) &&
      (zTotal >= 0.0 && r.nSlices > 0 ==> R(r.nSlices) * r.sliceThickness >= zTotal)
  {
    var r := SlicePolicy(m, zTotal).value;
    var n := R(r.nSlices);
    assert n != 0.0;
    assert r.sliceThickness == 1.01 * (zTotal / n);
    assert n * (zTotal / n) == zTotal;
  }

  /** With a given thickness the slice count is the number of whole slices
      that fit in the sample. */
  lemma ThicknessSlicesFit(m: Model, zTotal: real)
    requires m.sliceMode == Thickness && m.sliceThickness > 0.0 && zTotal >= 0.0
    ensures SlicePolicy(m, zTotal).Some?
    ensures var r := SlicePolicy(m, zTotal).value; WholeSteps(r.nSlices, r.sliceThickness, zTotal)
  {
    WholeFit(zTotal, m.sliceThickness);
  }

  /** n steps of size d fit in e, and one more would not. */
  predicate WholeSteps(n: int, d: real, e: real)
  {
    R(n) * d <= e < (R(n) + 1.0) * d
  }

  /** The whole steps of size d that fit in e. */
  lemma WholeFit(e: real, d: real)
    requires d > 0.0 && e >= 0.0
    ensures WholeSteps(Trunc(e / d), d, e)
  {
    var q := e / d;
    var f := R(Trunc(q));
    assert Trunc(q) == Floor(q);
    assert q * d == e;
    MulLe(f, q, d);
    MulLt(q, f + 1.0, d);
    assert q * d < (f + 1.0) * d;
    assert e < (f + 1.0) * d;
  }

  /** The fewest whole steps of size d that cover e. */
  lemma WholeCover(e: real, d: real)
    requires d > 0.0
    ensures e <= R(Ceil(e / d)) * d
    ensures R(Ceil(e / d)) * d < e + d
  {
    var q := e / d;
    var c := R(Ceil(q));
    assert q * d == e;
    MulLe(q, c, d);
    MulLt(c, q + 1.0, d);
    assert c * d < (q + 1.0) * d;
    assert (q + 1.0) * d == q * d + d;
    assert c * d < e + d;
  }

  /** The resolution switch, given the sample's extent and the cell size
      (_sizeX, _sizeY). Divisions by zero give no configuration. */
  function ResolutionPolicy(m: Model, b: Bounds, sizeX: real, sizeY: real): (r: Option<Model>)
    ensures r.Some? ==>
      r.value.sliceMode == m.sliceMode && r.value.nSlices == m.nSlices &&
      r.value.sliceThickness == m.sliceThickness
  {
    var ex := b.maxX - b.minX;
    var ey := b.maxY - b.minY;
    match m.resolutionMode
    case FillN =>
      if m.nx == 0 || m.ny == 0 then None
      else Some(m.(dx := ex / R(m.nx), dy := ey / R(m.ny), xOffset := 0.0, yOffset := 0.0))
    case FillRes =>
      if m.dx == 0.0 || m.dy == 0.0 then None
      else Some(m.(nx := Ceil(ex / m.dx), ny := Ceil(ey / m.dy), xOffset := 0.0, yOffset := 0.0))
    case CellRes =>
      if m.dx == 0.0 || m.dy == 0.0 then None
      else Some(m.(nx := Trunc(sizeX / m.dx), ny := Trunc(sizeY / m.dy), xOffset := 0.0, yOffset := 0.0))
    case CellN =>
      if m.nx == 0 || m.ny == 0 then None
      else Some(m.(dx := sizeX / R(m.nx), dy := sizeY / R(m.ny), xOffset := 0.0, yOffset := 0.0))
    case SizeRes =>
      if m.dx == 0.0 || m.dy == 0.0 then None
      else Centred(m.(nx := Trunc(m.areaX / m.dx), ny := Trunc(m.areaY / m.dy)), ex, ey)
    case SizeN =>
      if m.nx == 0 || m.ny == 0 then None
      else Centred(m.(dx := m.areaX / R(m.nx), dy := m.areaY / R(m.ny)), ex, ey)
  }

  /** CenterSample: the offsets put the sample in the middle of the area. */
  function Centred(m: Model, ex: real, ey: real): Option<Model>
  {
    if m.centerSample then Some(m.(xOffset := m.areaX / 2.0 - ex / 2.0, yOffset := m.areaY / 2.0 - ey / 2.0))
    else Some(m)
  }

  /** FILLN and CELLN divide the sample or the cell into exactly n pixels;
      SIZEN divides the area; all but SIZEN start at offset zero. */
  lemma PixelCountModesDivideExactly(m: Model, b: Bounds, sizeX: real, sizeY: real)
    requires m.resolutionMode in {FillN, CellN, SizeN} && ResolutionPolicy(m, b, sizeX, sizeY).Some?
    ensures var r := ResolutionPolicy(m, b, sizeX, sizeY).value;
      r.nx == m.nx && r.ny == m.ny &&
      (m.resolutionMode == FillN ==> R(r.nx) * r.dx == b.maxX - b.minX && R(r.ny) * r.dy == b.maxY - b.minY) &&
      (m.resolutionMode == CellN ==> R(r.nx) * r.dx == sizeX && R(r.ny) * r.dy == sizeY) &&
      (m.resolutionMode == SizeN ==> R(r.nx) * r.dx == m.areaX && R(r.ny) * r.dy == m.areaY) &&
      (m.resolutionMode != SizeN ==> r.xOffset == 0.0 && r.yOffset == 0.0)
  {
    var nx := R(m.nx);
    var ny := R(m.ny);
    assert nx != 0.0 && ny != 0.0;
    var ex := b.maxX - b.minX;
    var ey := b.maxY - b.minY;
    assert nx * (ex / nx) == ex && ny * (ey / ny) == ey;
    assert nx * (sizeX / nx) == sizeX && ny * (sizeY / ny) == sizeY;
    assert nx * (m.areaX / nx) == m.areaX && ny * (m.areaY / ny) == m.areaY;
  }

  /** FILLRES rounds the pixel count up so that the pixels cover the sample
      by less than one pixel too many. */
  lemma FillResCoversSample(m: Model, b: Bounds, sizeX: real, sizeY: real)
    requires m.resolutionMode == FillRes && m.dx > 0.0 && m.dy > 0.0
    ensures ResolutionPolicy(m, b, sizeX, sizeY).Some?
    ensures var r := ResolutionPolicy(m, b, sizeX, sizeY).value;
      r.dx == m.dx && r.xOffset == 0.0 &&
      b.maxX - b.minX <= R(r.nx) * r.dx < b.maxX - b.minX + r.dx &&
      b.maxY - b.minY <= R(r.ny) * r.dy < b.maxY - b.minY + r.dy
  {
    WholeCover(b.maxX - b.minX, m.dx);
    WholeCover(b.maxY - b.minY, m.dy);
  }

  /** CELLRES and SIZERES keep only the whole pixels that fit in the cell or
      the area. */
  lemma ResolutionModesTruncate(m: Model, b: Bounds, sizeX: real, sizeY: real)
    requires m.resolutionMode in {CellRes, SizeRes} && m.dx > 0.0 && m.dy > 0.0
    requires m.resolutionMode == CellRes ==> sizeX >= 0.0 && sizeY >= 0.0
    requires m.resolutionMode == SizeRes ==> m.areaX >= 0.0 && m.areaY >= 0.0
    ensures ResolutionPolicy(m, b, sizeX, sizeY).Some?
    ensures var r := ResolutionPolicy(m, b, sizeX, sizeY).value;
      var w := if m.resolutionMode == CellRes then sizeX else m.areaX;
      var h := if m.resolutionMode == CellRes then sizeY else m.areaY;
      r.dx == m.dx && r.dy == m.dy && WholeSteps(r.nx, r.dx, w) && WholeSteps(r.ny, r.dy, h)
  {
    if m.resolutionMode == CellRes {
      WholeFit(sizeX, m.dx);
      WholeFit(sizeY, m.dy);
      assert ResolutionPolicy(m, b, sizeX, sizeY).value ==
        m.(nx := Trunc(sizeX / m.dx), ny := Trunc(sizeY / m.dy), xOffset := 0.0, yOffset := 0.0);
    } else {
      WholeFit(m.areaX, m.dx);
      WholeFit(m.areaY, m.dy);
      var t := m.(nx := Trunc(m.areaX / m.dx), ny := Trunc(m.areaY / m.dy));
      assert ResolutionPolicy(m, b, sizeX, sizeY) == Centred(t, b.maxX - b.minX, b.maxY - b.minY);
      assert Centred(t, b.maxX - b.minX, b.maxY - b.minY).value.nx == t.nx;
    }
  }

  /** With CenterSample the sample sits in the middle of the area: the
      margins on both sides are equal. */
  lemma CentredSampleHasEqualMargins(m: Model, b: Bounds, sizeX: real, sizeY: real)
    requires m.resolutionMode in {SizeRes, SizeN} && m.centerSample
    requires ResolutionPolicy(m, b, sizeX, sizeY).Some?
    ensures var r := ResolutionPolicy(m, b, sizeX, sizeY).value;
      r.xOffset == r.areaX - (r.xOffset + (b.maxX - b.minX)) &&
      r.yOffset == r.areaY - (r.yOffset + (b.maxY - b.minY))
  {
  }

  /** The whole constructor's policy: slicing, then sampling, then for the
      3D potential 2 ceil(R / dz) extra slices. */
  function Policies(m: Model, b: Bounds, sizeX: real, sizeY: real, atomRadius: real, use3D: bool): (r: Option<Model>)
    ensures r.Some? ==>
      SlicePolicy(m, b.maxZ - b.minZ).Some? &&
      r.value.sliceThickness == SlicePolicy(m, b.maxZ - b.minZ).value.sliceThickness
  {
    match SlicePolicy(m, b.maxZ - b.minZ)
    case None => None
    case Some(s) =>
      match ResolutionPolicy(s, b, sizeX, sizeY)
      case None => None
      case Some(p) =>
        if !use3D then Some(p)
        else if p.sliceThickness == 0.0 then None
        else Some(p.(nSlices := p.nSlices + 2 * Ceil(atomRadius / p.sliceThickness)))
  }

  /** The 3D potential adds 2 ceil(R / dz) slices to what the 2D one
      gets, and ceil(R / dz) slices cover the atom radius above and below
      the sample. */
  lemma MarginCoversAtomRadius(m: Model, b: Bounds, sizeX: real, sizeY: real, atomRadius: real)
    requires Policies(m, b, sizeX, sizeY, atomRadius, true).Some?
    ensures Policies(m, b, sizeX, sizeY, atomRadius, false).Some?
    ensures var r2 := Policies(m, b, sizeX, sizeY, atomRadius, false).value;
      var r3 := Policies(m, b, sizeX, sizeY, atomRadius, true).value;
      var extra := Ceil(atomRadius / r2.sliceThickness);
      r2.sliceThickness != 0.0 && r3 == r2.(nSlices := r2.nSlices + 2 * extra) &&
      SlicesCover(atomRadius, r2.sliceThickness)
  {
    ThreeDFromTwoD(m, b, sizeX, sizeY, atomRadius);
    CoverOf(Policies(m, b, sizeX, sizeY, atomRadius, false).value, atomRadius);
  }

  /** With a positive thickness d, ceil(e / d) slices span at least e. */
  predicate SlicesCover(e: real, d: real)
  {
    d > 0.0 ==> e <= R(Ceil(e / d)) * d
  }

  lemma CoverOf(p: Model, atomRadius: real)
    ensures SlicesCover(atomRadius, p.sliceThickness)
  {
    if p.sliceThickness > 0.0 {
      WholeCover(atomRadius, p.sliceThickness);
    }
  }

  /** The 3D configuration is the 2D one with the slice count raised. */
  lemma ThreeDFromTwoD(m: Model, b: Bounds, sizeX: real, sizeY: real, atomRadius: real)
    requires Policies(m, b, sizeX, sizeY, atomRadius, true).Some?
    ensures Policies(m, b, sizeX, sizeY, atomRadius, false).Some?
    ensures var r2 := Policies(m, b, sizeX, sizeY, atomRadius, false).value;
      var r3 := Policies(m, b, sizeX, sizeY, atomRadius, true).value;
      var extra := Ceil(atomRadius / r2.sliceThickness);
      r2.sliceThickness != 0.0 && r3 == r2.(nSlices := r2.nSlices + 2 * extra)
  {
    var sl := SlicePolicy(m, b.maxZ - b.minZ).value;
    var p := ResolutionPolicy(sl, b, sizeX, sizeY).value;
    assert Policies(m, b, sizeX, sizeY, atomRadius, false) == Some(p);
  }

  // ---------------------------------------------------------------- propagation

  /** The functions the model does not compute itself: the forward and
      inverse transforms, the potential's transmission function at
      (slice, x, y), and cos and sin. */
  datatype Physics = Physics(
    ft: Transform,
    ift: Transform,
    pixel: (int, int, int) -> Complex,
    cos: real -> real,
    sin: real -> real)

  ghost predicate TrigOk(ph: Physics)
  {
    forall t :: ph.cos(t) * ph.cos(t) + ph.sin(t) * ph.sin(t) == 1.0
  }

  /** The Fresnel propagator of a squared frequency k2:
      exp(-i pi dz lambda k2). */
  function Propagator(ph: Physics, dz: real, k2: real, wavlen: real): Complex
  {
    var t := dz * Pi * (k2 * wavlen);
    Complex(ph.cos(t), -ph.sin(t))
  }

  /** The propagators have modulus one. */
  lemma PropagatorIsUnit(ph: Physics, dz: real, k2: real, wavlen: real)
    requires TrigOk(ph)
    ensures Norm2(Propagator(ph, dz, k2, wavlen)) == 1.0
  {
    var t := dz * Pi * (k2 * wavlen);
    assert ph.cos(t) * ph.cos(t) + ph.sin(t) * ph.sin(t) == 1.0;
  }

  /** m_propxr, m_propxi, m_propyr, m_propyi. */
  datatype Propagators = Propagators(xr: seq<real>, xi: seq<real>, yr: seq<real>, yi: seq<real>)

  predicate PropagatorsFit(p: Propagators, nx: int, ny: int)
  {
    |p.xr| == nx && |p.xi| == nx && |p.yr| == ny && |p.yi| == ny
  }

  /** The propagators InitializePropagators computes for a wave. */
  function PropagatorsFor(ph: Physics, dz: real, kx2: seq<real>, ky2: seq<real>, wavlen: real): (p: Propagators)
    ensures PropagatorsFit(p, |kx2|, |ky2|)
  {
    Propagators(
      seq(|kx2|, i requires 0 <= i < |kx2| => Propagator(ph, dz, kx2[i], wavlen).re),
      seq(|kx2|, i requires 0 <= i < |kx2| => Propagator(ph, dz, kx2[i], wavlen).im),
      seq(|ky2|, j requires 0 <= j < |ky2| => Propagator(ph, dz, ky2[j], wavlen).re),
      seq(|ky2|, j requires 0 <= j < |ky2| => Propagator(ph, dz, ky2[j], wavlen).im))
  }

  /** What the run holds fixed: the grid, its frequencies and band limit,
      the propagators and the probe position m_iPosX, m_iPosY. */
  datatype Frame = Frame(
    nx: nat, ny: nat, kx2: seq<real>, ky2: seq<real>, k2max: real,
    p: Propagators, posX: int, posY: int)

  predicate FrameOk(f: Frame)
  {
    |f.kx2| == f.nx && |f.ky2| == f.ny && PropagatorsFit(f.p, f.nx, f.ny)
  }

  /** One cell of Propagate: inside the band limit the wave is multiplied
      by the y and then the x propagator, outside it is cleared. */
  function PropagatedCell(f: Frame, i: int, j: int, c: Complex): Complex
    requires FrameOk(f) && 0 <= i < f.nx && 0 <= j < f.ny
  {
    if f.kx2[i] + f.ky2[j] < f.k2max then
      Mul(Mul(c, Complex(f.p.yr[j], f.p.yi[j])), Complex(f.p.xr[i], f.p.xi[i]))
    else Zero
  }

  /** Propagation band-limits the wave and, inside the band limit, keeps
      each pixel's intensity when the propagators have modulus one. */
  lemma PropagationLimitsBandKeepsIntensity(ph: Physics, dz: real, wavlen: real, f: Frame, i: int, j: int, c: Complex)
    requires FrameOk(f) && 0 <= i < f.nx && 0 <= j < f.ny && TrigOk(ph)
    requires f.p == PropagatorsFor(ph, dz, f.kx2, f.ky2, wavlen)
    ensures f.kx2[i] + f.ky2[j] >= f.k2max ==> PropagatedCell(f, i, j, c) == Zero
    ensures f.kx2[i] + f.ky2[j] < f.k2max ==> Norm2(PropagatedCell(f, i, j, c)) == Norm2(c)
  {
    var py := Complex(f.p.yr[j], f.p.yi[j]);
    var px := Complex(f.p.xr[i], f.p.xi[i]);
    assert py == Propagator(ph, dz, f.ky2[j], wavlen);
    assert px == Propagator(ph, dz, f.kx2[i], wavlen);
    PropagatorIsUnit(ph, dz, f.ky2[j], wavlen);
    PropagatorIsUnit(ph, dz, f.kx2[i], wavlen);
    Norm2OfMul(c, py);
    Norm2OfMul(Mul(c, py), px);
  }

  /** One cell of Transmit: the wave times the slice's transmission function
      at the pixel shifted by the probe position. */
  function TransmittedCell(ph: Physics, f: Frame, slice: int, i: int, j: int, c: Complex): Complex
  {
    Mul(c, ph.pixel(slice, i + f.posX, j + f.posY))
  }

  /** A pure phase object (|t| = 1) keeps each pixel's intensity, and in
      general the intensity is multiplied by |t|^2. */
  lemma TransmissionScalesIntensity(ph: Physics, f: Frame, slice: int, i: int, j: int, c: Complex)
    ensures Norm2(TransmittedCell(ph, f, slice, i, j, c)) ==
      Norm2(c) * Norm2(ph.pixel(slice, i + f.posX, j + f.posY))
  {
    Norm2OfMul(c, ph.pixel(slice, i + f.posX, j + f.posY));
  }

  /** fft_normalize's factor 1 / (nx ny). */
  function FftScale(nx: int, ny: int): real
  {
    if nx * ny == 0 then 0.0 else 1.0 / R(nx * ny)
  }

  /** Normalisation undoes the nx ny gain of an unnormalised transform
      pair. */
  lemma NormalizeUndoesGain(nx: int, ny: int, v: Complex)
    requires nx > 0 && ny > 0
    ensures Scale(FftScale(nx, ny), Scale(R(nx * ny), v)) == v
  {
    var n := R(nx * ny);
    assert n > 0.0 by { assert nx * ny > 0; }
    assert (1.0 / n) * n == 1.0;
    assert (1.0 / n) * (n * v.re) == v.re;
    assert (1.0 / n) * (n * v.im) == v.im;
  }

  /** Cellwise maps over an nx by ny grid. */
  function TransmitGrid(ph: Physics, f: Frame, slice: int, m: seq<seq<Complex>>): (r: seq<seq<Complex>>)
    requires Shaped(m, f.nx, f.ny)
    ensures Shaped(r, f.nx, f.ny)
    ensures forall i, j :: 0 <= i < f.nx && 0 <= j < f.ny ==> r[i][j] == TransmittedCell(ph, f, slice, i, j, m[i][j])
  {
    seq(f.nx, i requires 0 <= i < f.nx => seq(f.ny, j requires 0 <= j < f.ny => TransmittedCell(ph, f, slice, i, j, m[i][j])))
  }

  function PropagateGrid(f: Frame, m: seq<seq<Complex>>): (r: seq<seq<Complex>>)
    requires FrameOk(f) && Shaped(m, f.nx, f.ny)
    ensures Shaped(r, f.nx, f.ny)
    ensures forall i, j :: 0 <= i < f.nx && 0 <= j < f.ny ==> r[i][j] == PropagatedCell(f, i, j, m[i][j])
  {
    seq(f.nx, i requires 0 <= i < f.nx => seq(f.ny, j requires 0 <= j < f.ny => PropagatedCell(f, i, j, m[i][j])))
  }

  function NormalizeGrid(f: Frame, m: seq<seq<Complex>>): (r: seq<seq<Complex>>)
    requires Shaped(m, f.nx, f.ny)
    ensures Shaped(r, f.nx, f.ny)
    ensures forall i, j :: 0 <= i < f.nx && 0 <= j < f.ny ==> r[i][j] == Scale(FftScale(f.nx, f.ny), m[i][j])
  {
    seq(f.nx, i requires 0 <= i < f.nx => seq(f.ny, j requires 0 <= j < f.ny => Scale(FftScale(f.nx, f.ny), m[i][j])))
  }

  /** One pass of the slice loop of RunMultislice on the wave m. */
  function SliceStep(ph: Physics, f: Frame, slice: int, m: seq<seq<Complex>>): (r: seq<seq<Complex>>)
    requires FrameOk(f) && Shaped(m, f.nx, f.ny)
    ensures Shaped(r, f.nx, f.ny)
  {
    var transmitted := TransmitGrid(ph, f, slice, m);
    var spectrum := Transformed(ph.ft, transmitted, f.nx, f.ny);
    var propagated := PropagateGrid(f, spectrum);
    NormalizeGrid(f, Transformed(ph.ift, propagated, f.nx, f.ny))
  }

  /** The wave after slices 0 .. n-1. */
  function Multislice(ph: Physics, f: Frame, n: nat, m: seq<seq<Complex>>): (r: seq<seq<Complex>>)
    requires FrameOk(f) && Shaped(m, f.nx, f.ny)
    ensures Shaped(r, f.nx, f.ny)
  {
    if n == 0 then m else SliceStep(ph, f, n - 1, Multislice(ph, f, n - 1, m))
  }

  /** The calls RunMultislice makes to what the subclasses supply, with the
      domain the wave is in at the time. */
  datatype Step =
    | CollectIntensity(slice: int, realSpace: bool)
    | PostSliceProcess(slice: int, realSpace: bool)
    | WriteWave

  /** The hooks of slices 0 .. n-1, absolute slice numbers counted from
      total. */
  function Schedule(total: int, n: nat): (r: seq<Step>)
    ensures |r| == 2 * n
  {
    if n == 0 then []
    else Schedule(total, n - 1) + [CollectIntensity(total + n - 1, false), PostSliceProcess(total + n - 1, true)]
  }

  /** Slice s collects the intensity of the propagated wave in Fourier space,
      then hands the real-space wave to post-processing, under its absolute
      number; nothing else is called. */
  lemma {:induction false} ScheduleOrder(total: int, n: nat, s: int)
    requires 0 <= s < n
    ensures |Schedule(total, n)| == 2 * n
    ensures Schedule(total, n)[2 * s] == CollectIntensity(total + s, false)
    ensures Schedule(total, n)[2 * s + 1] == PostSliceProcess(total + s, true)
  {
    if s < n - 1 {
      ScheduleOrder(total, n - 1, s);
    } else if n > 1 {
      ScheduleOrder(total, n - 1, 0);
    }
  }

  /** std::vector::resize: keeps the prefix and pads with zeros. */
  function Resized(v: seq<real>, n: nat): (r: seq<real>)
    ensures |r| == n
    ensures forall i :: 0 <= i < n && i < |v| ==> r[i] == v[i]
    ensures forall i :: |v| <= i < n ==> r[i] == 0.0
  {
    if n <= |v| then v[..n] else v + seq(n - |v|, i => 0.0)
  }

  // ---------------------------------------------------------------- output

  /** The name InterimWave writes a wave under: (m_avgCount, thickness index)
      with thermal diffuse scattering, the slice number without. */
  datatype Frame2 = TdsFrame(avgCount: int, index: int) | SliceFrame(slice: int)

  /** InterimWave: the wave is written after the last slice and whenever
      slice + 1 is a multiple of the interval. */
  function InterimOutput(nSlices: int, nSubSlabs: int, interval: int, useTDS: bool, avgCount: int, slice: int): (r: Option<Frame2>)
    requires interval != 0
    ensures r.Some? <==> (slice >= nSlices * nSubSlabs - 1 || CMod(slice + 1, interval) == 0)
  {
    if slice < nSlices * nSubSlabs - 1 && CMod(slice + 1, interval) != 0 then None
    else if useTDS then Some(TdsFrame(avgCount, CDiv(slice, interval)))
    else Some(SliceFrame(slice))
  }

  /** With a positive interval k, the wave after k s slices is written with
      thickness index s - 1, so the written waves are numbered 0, 1, 2, ... */
  lemma InterimIndexCounts(nSlices: int, nSubSlabs: int, k: int, avgCount: int, s: int)
    requires k > 0 && s >= 1
    ensures InterimOutput(nSlices, nSubSlabs, k, true, avgCount, k * s - 1) == Some(TdsFrame(avgCount, s - 1))
  {
    var slice := k * s - 1;
    assert slice == (s - 1) * k + (k - 1);
    assert 0 <= slice;
    CellLayout.DigitsOf(slice, k, s - 1, k - 1);
    CellLayout.DigitsOf(slice + 1, k, s, 0);
  }

  // ---------------------------------------------------------------- averaging

  /** The running mean of count patterns updated with one more. */
  function MeanStep(avg: real, dp: real, count: nat): real
  {
    (avg * R(count) + dp) / R(count + 1)
  }

  /** The update as written: avg * count + dp / (count + 1). */
  function MeanStepAsWritten(avg: real, dp: real, count: nat): real
  {
    avg * R(count) + dp / R(count + 1)
  }

  function Sum(s: seq<real>): real
  {
    if |s| == 0 then 0.0 else Sum(s[..|s| - 1]) + s[|s| - 1]
  }

  /** The average after the first k of the patterns ds, starting from a0. */
  function AverageAfter(a0: real, ds: seq<real>, k: nat): real
    requires k <= |ds|
  {
    if k == 0 then a0 else MeanStep(AverageAfter(a0, ds, k - 1), ds[k - 1], k - 1)
  }

  /** The running mean is the mean: after k patterns each pixel holds their
      sum over k, whatever the array held before. */
  lemma {:induction false} RunningMeanIsMean(a0: real, ds: seq<real>, k: nat)
    requires 1 <= k <= |ds|
    ensures AverageAfter(a0, ds, k) == Sum(ds[..k]) / R(k)
  {
    assert ds[..k][..k - 1] == ds[..k - 1];
    if k == 1 {
      assert AverageAfter(a0, ds, 0) * 0.0 == 0.0;
    } else {
      RunningMeanIsMean(a0, ds, k - 1);
      var prev := Sum(ds[..k - 1]);
      var n := R(k - 1);
      assert (prev / n) * n == prev;
    }
  }

  /** As written the update only agrees with the running mean on the first
      pattern; on the second, two equal patterns average to 1.5 times
      their value. */
  lemma MeanStepAsWrittenDiverges(avg: real, dp: real)
    ensures MeanStepAsWritten(avg, dp, 0) == MeanStep(avg, dp, 0) == dp
    ensures MeanStepAsWritten(1.0, 1.0, 1) == 1.5 && MeanStep(1.0, 1.0, 1) == 1.0
  {
  }

  /** The squared change of the first n pixels in one update. */
  function Deviation(avg: seq<real>, dp: seq<real>, count: nat, n: nat): real
    requires n <= |avg| && n <= |dp|
  {
    if n == 0 then 0.0
    else
      Deviation(avg, dp, count, n - 1) + Square(avg[n - 1] - MeanStep(avg[n - 1], dp[n - 1], count))
  }

  function Square(x: real): real
  {
    x * x
  }

  /** The chi-square entry as written: the accumulator starts from whatever
      its storage held (garbage), which ends up added to the record. */
  function ChiSqAsWritten(old_: real, garbage: real, deviation: real, px: int): real
    requires px != 0
  {
    old_ + (garbage + deviation) / R(px)
  }

  lemma ChiSqAsWrittenCarriesGarbage(old_: real, garbage: real, deviation: real, px: int)
    requires px > 0
    ensures ChiSqAsWritten(old_, garbage, deviation, px) == old_ + deviation / R(px) + garbage / R(px)
    ensures garbage != 0.0 ==> ChiSqAsWritten(old_, garbage, deviation, px) != old_ + deviation / R(px)
  {
    var p := R(px);
    assert (garbage + deviation) / p == deviation / p + garbage / p;
    if garbage != 0.0 {
      assert garbage / p != 0.0;
    }
  }

  /** The mean is unchanged where the new pattern agrees with it, so an
      unchanged average adds nothing to chi-square. */
  lemma {:induction false} SteadyPatternHasNoDeviation(avg: seq<real>, dp: seq<real>, count: nat, n: nat)
    requires n <= |avg| && n <= |dp|
    requires forall i :: 0 <= i < n ==> dp[i] == avg[i]
    ensures Deviation(avg, dp, count, n) == 0.0
  {
    if n > 0 {
      SteadyPatternHasNoDeviation(avg, dp, count, n - 1);
      var a := avg[n - 1];
      var c := R(count);
      assert (a * c + a) / (c + 1.0) == a by {
        assert a * c + a == a * (c + 1.0);
      }
    }
  }

  // ---------------------------------------------------------------- the class

  class ExperimentBase {
    /** m_dz. */
    var dz: real
    /** The four propagator vectors. */
    var propxr: seq<real>
    var propxi: seq<real>
    var propyr: seq<real>
    var propyi: seq<real>
    /** m_avgArray, m_chisq, m_avgCount. */
    var avgArray: seq<real>
    var chisq: seq<real>
    var avgCount: int
    /** m_totalSliceCount, m_iPosX, m_iPosY. */
    const totalSliceCount: int
    const posX: int
    const posY: int
    /** Model.nSlices, Potential.NSubSlabs, m_saveLevel. */
    const nSlices: int
    const nSubSlabs: int
    const saveLevel: int

    /** The configured run: the slice thickness and count are the ones
        Policies derives from the configuration and the sample's extent. */
    constructor (m: Model, b: Bounds, sizeX: real, sizeY: real, atomRadius: real, use3D: bool,
                 totalSliceCount: int, posX: int, posY: int, nSubSlabs: int, saveLevel: int)
      requires Policies(m, b, sizeX, sizeY, atomRadius, use3D).Some?
      ensures dz == Policies(m, b, sizeX, sizeY, atomRadius, use3D).value.sliceThickness
      ensures nSlices == Policies(m, b, sizeX, sizeY, atomRadius, use3D).value.nSlices
      ensures avgArray == [] && chisq == []
      ensures this.totalSliceCount == totalSliceCount && this.posX == posX && this.posY == posY
      ensures this.nSubSlabs == nSubSlabs && this.saveLevel == saveLevel && avgCount == 0
    {
      var p := Policies(m, b, sizeX, sizeY, atomRadius, use3D).value;
      dz := p.sliceThickness;
      nSlices := p.nSlices;
      this.totalSliceCount := totalSliceCount;
      this.posX := posX;
      this.posY := posY;
      this.nSubSlabs := nSubSlabs;
      this.saveLevel := saveLevel;
      propxr, propxi, propyr, propyi := [], [], [], [];
      avgArray, chisq, avgCount := [], [], 0;
    }

    function Prop(): Propagators
      reads this
    {
      Propagators(propxr, propxi, propyr, propyi)
    }

    /** The fixed context of a run on wave w. */
    function FrameOf(w: Wave): Frame
      reads this, w
      requires w.Valid()
    {
      Frame(w.nx, w.ny, w.kx2, w.ky2, w.k2max, Prop(), posX, posY)
    }

    /** InitializePropagators: one propagator per column and per row. */
    method InitializePropagators(w: Wave, ph: Physics)
      requires w.Valid()
      modifies this
      ensures Prop() == PropagatorsFor(ph, dz, w.kx2, w.ky2, w.wavlen)
      ensures dz == old(dz) && avgArray == old(avgArray) && chisq == old(chisq) && avgCount == old(avgCount)
    {
      var nx := w.nx;
      var ny := w.ny;
      var target := PropagatorsFor(ph, dz, w.kx2, w.ky2, w.wavlen);
      propxr := Resized(propxr, nx);
      propxi := Resized(propxi, nx);
      propyr := Resized(propyr, ny);
      propyi := Resized(propyi, ny);
      assert |target.xr| == nx && |target.yr| == ny;
      var ixa := 0;
      while ixa < nx
        invariant 0 <= ixa <= nx && |propxr| == nx && |propxi| == nx && |propyr| == ny && |propyi| == ny
        invariant dz == old(dz) && avgArray == old(avgArray) && chisq == old(chisq) && avgCount == old(avgCount)
        invariant forall i :: 0 <= i < ixa ==> propxr[i] == target.xr[i] && propxi[i] == target.xi[i]
      {
        var p := Propagator(ph, dz, w.kx2[ixa], w.wavlen);
        propxr := propxr[ixa := p.re];
        propxi := propxi[ixa := p.im];
        ixa := ixa + 1;
      }
      var iya := 0;
      while iya < ny
        invariant 0 <= iya <= ny && |propyr| == ny && |propyi| == ny
        invariant propxr == target.xr && propxi == target.xi
        invariant dz == old(dz) && avgArray == old(avgArray) && chisq == old(chisq) && avgCount == old(avgCount)
        invariant forall j :: 0 <= j < iya ==> propyr[j] == target.yr[j] && propyi[j] == target.yi[j]
      {
        var p := Propagator(ph, dz, w.ky2[iya], w.wavlen);
        propyr := propyr[iya := p.re];
        propyi := propyi[iya := p.im];
        iya := iya + 1;
      }
    }

    /** Transmit: every pixel of the wave times the slice's transmission
        function at the shifted pixel. */
    method Transmit(w: Wave, ph: Physics, slice: int)
      requires w.Valid()
      modifies w.data
      ensures Snapshot(w.data) == TransmitGrid(ph, FrameOf(w), slice, old(Snapshot(w.data)))
    {
      ghost var m := Snapshot(w.data);
      var px, py := posX, posY;
      MapCells(w.data, (i, j, c) => Mul(c, ph.pixel(slice, i + px, j + py)));
      SnapshotIs(w.data, TransmitGrid(ph, FrameOf(w), slice, m));
    }

    /** Propagate, every cell of the wave visited once. */
    method Propagate(w: Wave)
      requires w.Valid() && PropagatorsFit(Prop(), w.nx, w.ny)
      modifies w.data
      ensures Snapshot(w.data) == PropagateGrid(FrameOf(w), old(Snapshot(w.data)))
    {
      ghost var m := Snapshot(w.data);
      var f := FrameOf(w);
      MapCells(w.data, (i, j, c) requires 0 <= i < f.nx && 0 <= j < f.ny => PropagatedCell(f, i, j, c));
      SnapshotIs(w.data, PropagateGrid(f, m));
    }

    /** fft_normalize: every pixel times 1 / (nx ny). */
    method Normalize(w: Wave)
      requires w.Valid()
      modifies w.data
      ensures Snapshot(w.data) == NormalizeGrid(FrameOf(w), old(Snapshot(w.data)))
    {
      ghost var m := Snapshot(w.data);
      var scale := 1.0 / R(w.nx * w.ny);
      assert scale == FftScale(w.nx, w.ny) by { assert w.nx * w.ny > 0; }
      MapCells(w.data, (i, j, c) => Scale(scale, c));
      SnapshotIs(w.data, NormalizeGrid(FrameOf(w), m));
    }

    /** RunMultislice: the averaging array is sized to the wave, the
        propagators are computed, and each slice in turn is transmitted,
        transformed, propagated, collected, transformed back, normalised and
        post-processed. The wave ends as Multislice of the wave it started
        as, the hooks are called in Schedule's order, and WriteWave follows
        when the save level or the sub-slabs ask for it. */
    method RunMultislice(w: Wave, ph: Physics) returns (steps: seq<Step>)
      requires w.Valid()
      modifies this, w, w.data
      ensures w.Valid() && w.kx2 == old(w.kx2) && w.ky2 == old(w.ky2) && w.k2max == old(w.k2max)
      ensures Prop() == PropagatorsFor(ph, dz, w.kx2, w.ky2, w.wavlen) && dz == old(dz)
      ensures avgArray == Resized(old(avgArray), w.nx * w.ny) && |avgArray| == w.nx * w.ny
      ensures chisq == old(chisq) && avgCount == old(avgCount)
      ensures Snapshot(w.data) == Multislice(ph, FrameOf(w), Max(nSlices, 0), old(Snapshot(w.data)))
      ensures nSlices > 0 ==> w.realSpace
      ensures steps == Schedule(totalSliceCount, Max(nSlices, 0)) +
        (if saveLevel > 1 || nSubSlabs > 1 then [WriteWave] else [])
    {
      var px := w.nx * w.ny;
      assert px == w.diffpat.Length;
      avgArray := Resized(avgArray, px);
      InitializePropagators(w, ph);
      steps := Slices(w, ph);
      if saveLevel > 1 || nSubSlabs > 1 {
        steps := steps + [WriteWave];
      }
    }

    /** The slice loop of RunMultislice. */
    method Slices(w: Wave, ph: Physics) returns (steps: seq<Step>)
      requires w.Valid() && FrameOk(FrameOf(w))
      modifies w, w.data
      ensures w.Valid() && FrameOf(w) == old(FrameOf(w)) && w.wavlen == old(w.wavlen)
      ensures Snapshot(w.data) == Multislice(ph, FrameOf(w), Max(nSlices, 0), old(Snapshot(w.data)))
      ensures nSlices > 0 ==> w.realSpace
      ensures steps == Schedule(totalSliceCount, Max(nSlices, 0))
    {
      ghost var m0 := Snapshot(w.data);
      ghost var f := FrameOf(w);
      steps := [];
      var islice := 0;
      while islice < nSlices
        invariant 0 <= islice <= Max(nSlices, 0)
        invariant SlicedUpTo(w, ph, f, m0, islice, steps)
        invariant w.wavlen == old(w.wavlen) && (islice > 0 ==> w.realSpace)
      {
        steps := SliceIteration(w, ph, islice, f, m0, steps);
        islice := islice + 1;
      }
      assert islice == Max(nSlices, 0);
    }

    /** The state of the slice loop after islice turns: the wave is the
        multislice result of that many slices and the hooks of those slices
        have been called. */
    ghost predicate SlicedUpTo(w: Wave, ph: Physics, f: Frame, m0: seq<seq<Complex>>, islice: nat, steps: seq<Step>)
      reads this, w, w.data
    {
      FrameOk(f) && Shaped(m0, f.nx, f.ny) && w.Valid() && FrameOf(w) == f &&
      Snapshot(w.data) == Multislice(ph, f, islice, m0) && steps == Schedule(totalSliceCount, islice)
    }

    /** One turn of the slice loop: slice islice is applied and its hooks
        are appended. */
    method SliceIteration(w: Wave, ph: Physics, islice: nat, ghost f: Frame, ghost m0: seq<seq<Complex>>, steps: seq<Step>)
      returns (steps': seq<Step>)
      requires SlicedUpTo(w, ph, f, m0, islice, steps)
      modifies w, w.data
      ensures SlicedUpTo(w, ph, f, m0, islice + 1, steps')
      ensures w.wavlen == old(w.wavlen) && w.realSpace
    {
      var hooks := SliceOnce(w, ph, islice);
      steps' := steps + hooks;
    }

    /** The body of RunMultislice's slice loop: slice islice applied to
        the wave, and the two hooks it calls. */
    method SliceOnce(w: Wave, ph: Physics, islice: int) returns (hooks: seq<Step>)
      requires w.Valid() && FrameOk(FrameOf(w))
      modifies w, w.data
      ensures w.Valid() && FrameOf(w) == old(FrameOf(w)) && w.wavlen == old(w.wavlen) && w.realSpace
      ensures Snapshot(w.data) == SliceStep(ph, FrameOf(w), islice, old(Snapshot(w.data)))
      ensures hooks == [CollectIntensity(totalSliceCount + islice, false), PostSliceProcess(totalSliceCount + islice, true)]
    {
      ghost var f := FrameOf(w);
      ghost var m := Snapshot(w.data);
      var absolute := totalSliceCount + islice;
      Transmit(w, ph, islice);
      ghost var m1 := Snapshot(w.data);
      w.ToFourierSpace(ph.ft);
      ghost var m2 := Snapshot(w.data);
      assert FrameOf(w) == f;
      Propagate(w);
      ghost var m3 := Snapshot(w.data);
      hooks := [CollectIntensity(absolute, w.realSpace)];
      w.ToRealSpace(ph.ift);
      ghost var m4 := Snapshot(w.data);
      assert FrameOf(w) == f;
      Normalize(w);
      hooks := hooks + [PostSliceProcess(absolute, w.realSpace)];
      assert m1 == TransmitGrid(ph, f, islice, m);
      assert m2 == Transformed(ph.ft, m1, f.nx, f.ny);
      assert m3 == PropagateGrid(f, m2);
      assert m4 == Transformed(ph.ift, m3, f.nx, f.ny);
    }

    /** AddDPToAvgArray, with the running mean (avg count + dp) / (count + 1)
        and the chi-square accumulator starting at zero: every pixel of the
        average moves to the mean including the wave's diffraction pattern,
        and chisq[m_avgCount] grows by the mean squared change. */
    method AddDPToAvgArray(w: Wave)
      requires w.Valid() && |avgArray| >= w.nx * w.ny && 0 <= avgCount < |chisq|
      modifies this
      ensures |avgArray| == |old(avgArray)| && avgCount == old(avgCount)
      ensures forall i :: 0 <= i < w.nx * w.ny ==>
        avgArray[i] == MeanStep(old(avgArray)[i], w.diffpat[i], avgCount)
      ensures forall i :: w.nx * w.ny <= i < |avgArray| ==> avgArray[i] == old(avgArray)[i]
      ensures chisq == old(chisq)[avgCount := old(chisq)[avgCount] +
        Deviation(old(avgArray), w.diffpat[..], avgCount, w.nx * w.ny) / R(w.nx * w.ny)]
      ensures dz == old(dz) && Prop() == old(Prop())
    {
      var px := w.nx * w.ny;
      ghost var avg0 := avgArray;
      var chi := 0.0;
      var i := 0;
      while i < px
        invariant avgCount == old(avgCount)
        invariant 0 <= i <= px && |avgArray| == |avg0|
        invariant forall k :: 0 <= k < i ==> avgArray[k] == MeanStep(avg0[k], w.diffpat[k], avgCount)
        invariant forall k :: i <= k < |avgArray| ==> avgArray[k] == avg0[k]
        invariant chi == Deviation(avg0, w.diffpat[..], avgCount, i)
        invariant chisq == old(chisq) && dz == old(dz) && Prop() == old(Prop())
      {
        var t := MeanStep(avgArray[i], w.diffpat[i], avgCount);
        chi := chi + Square(avgArray[i] - t);
        avgArray := avgArray[i := t];
        i := i + 1;
      }
      chisq := chisq[avgCount := chisq[avgCount] + chi / R(px)];
    }
  }

  // ---------------------------------------------------------------- Propagate as written

  /** (0, 0), (1, 0), ..., (n - 1, 0). */
  function Column0(n: nat): (r: seq<(int, int)>)
    ensures |r| == n && forall k :: 0 <= k < n ==> r[k] == (k, 0)
  {
    seq(n, k => (k, 0))
  }

  /** The cells the two loops of Propagate visit as written: the inner loop
      tests and increments i instead of j, so it walks (0, 0), (1, 0), ...,
      (ny - 1, 0) once and the outer loop then runs out. */
  method PropagateVisitsAsWritten(nx: nat, ny: nat) returns (cells: seq<(int, int)>)
    ensures cells == if nx > 0 then Column0(ny) else []
  {
    cells := [];
    var i := 0;
    while i < nx
      invariant i == 0 || i >= ny + 1
      invariant nx == 0 ==> i == 0
      invariant cells == if i == 0 then [] else Column0(ny)
      decreases nx - i
    {
      var j := 0;
      ghost var first := i == 0;
      while i < ny
        invariant j == 0 && (first ==> 0 <= i <= ny) && (!first ==> i >= ny + 1)
        invariant cells == if first then Column0(i) else Column0(ny)
        decreases ny - i
      {
        cells := cells + [(i, j)];
        assert cells == Column0(i + 1);
        i := i + 1;
      }
      i := i + 1;
    }
  }

  /** As written, Propagate leaves every column but the first untouched (so
      nothing outside the band limit there is cleared), and with more rows
      than columns it reaches past the last column. */
  lemma PropagateMissesCellsAsWritten(nx: nat, ny: nat, cells: seq<(int, int)>)
    requires cells == if nx > 0 then Column0(ny) else []
    ensures nx >= 1 && ny >= 2 ==> (0, 1) !in cells
    ensures 0 < nx < ny ==> (nx, 0) in cells
    ensures nx >= 2 && ny >= 1 ==> |cells| < nx * ny
  {
    if 0 < nx < ny {
      assert cells[nx] == (nx, 0);
    }
    if nx >= 2 && ny >= 1 {
      CellLayout.MulMonotone(2, nx, ny);
    }
  }

}
