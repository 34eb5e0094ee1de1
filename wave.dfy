// The state of a wave function (libs/wavefunctions/wave_base.hpp): the
// complex wave m_wave[ix][iy], whether it is held in real or in Fourier
// space, the squared spatial frequencies of the grid and their cutoff, and
// the flat diffraction pattern. The transforms between the two spaces are an
// external library here: a transform is a parameter giving each entry of the
// transformed grid.

module WaveBase {
  import opened Numerics
  import CellLayout

  /** Entry (i, j) of the transform of a grid. */
  type Transform = (seq<seq<Complex>>, int, int) -> Complex

  /** The grid a transform produces from m, nx by ny. */
  function Transformed(t: Transform, m: seq<seq<Complex>>, nx: nat, ny: nat): (r: seq<seq<Complex>>)
    ensures |r| == nx && forall i :: 0 <= i < nx ==> |r[i]| == ny
    ensures forall i, j :: 0 <= i < nx && 0 <= j < ny ==> r[i][j] == t(m, i, j)
  {
    seq(nx, i => seq(ny, j => t(m, i, j)))
  }

  /** An nx by ny grid. */
  predicate Shaped(m: seq<seq<Complex>>, nx: int, ny: int)
  {
    |m| == nx && forall i :: 0 <= i < |m| ==> |m[i]| == ny
  }

  /** An array whose every cell equals the grid's is the grid. */
  lemma SnapshotIs(a: array2<Complex>, m: seq<seq<Complex>>)
    requires Shaped(m, a.Length0, a.Length1)
    requires forall i, j :: 0 <= i < a.Length0 && 0 <= j < a.Length1 ==> a[i, j] == m[i][j]
    ensures Snapshot(a) == m
  {
    var s := Snapshot(a);
    forall i | 0 <= i < a.Length0
      ensures s[i] == m[i]
    {
    }
  }

  /** Apply f to every cell of a, row by row. */
  method MapCells(a: array2<Complex>, f: (int, int, Complex) --> Complex)
    requires forall i, j, c :: 0 <= i < a.Length0 && 0 <= j < a.Length1 ==> f.requires(i, j, c)
    modifies a
    ensures forall i, j :: 0 <= i < a.Length0 && 0 <= j < a.Length1 ==> a[i, j] == f(i, j, old(a[i, j]))
  {
    var i := 0;
    while i < a.Length0
      invariant 0 <= i <= a.Length0
      invariant forall r, c :: 0 <= r < a.Length0 && 0 <= c < a.Length1 ==>
        a[r, c] == if r < i then f(r, c, old(a[r, c])) else old(a[r, c])
    {
      var j := 0;
      while j < a.Length1
        invariant 0 <= j <= a.Length1
        invariant forall r, c :: 0 <= r < a.Length0 && 0 <= c < a.Length1 ==>
          a[r, c] == if r < i || (r == i && c < j) then f(r, c, old(a[r, c])) else old(a[r, c])
      {
        a[i, j] := f(i, j, a[i, j]);
        j := j + 1;
      }
      i := i + 1;
    }
  }

  class Wave {
    /** m_nx, m_ny. */
    const nx: int
    const ny: int
    /** m_wave, indexed [ix][iy]. */
    const data: array2<Complex>
    /** m_diffpat, one value per pixel, flat. */
    const diffpat: array<real>
    /** m_realSpace: true while data holds the real-space wave. */
    var realSpace: bool
    /** m_kx2, m_ky2: the squared spatial frequency of each column and row. */
    var kx2: seq<real>
    var ky2: seq<real>
    /** m_k2max: the squared band limit. */
    var k2max: real
    /** m_wavlen: the electron wavelength. */
    var wavlen: real

    predicate Valid()
      reads this
    {
      0 < nx && 0 < ny && data.Length0 == nx && data.Length1 == ny &&
      diffpat.Length == nx * ny && |kx2| == nx && |ky2| == ny
    }

    /** A wave of nx by ny pixels, zero, in real space. */
    constructor (nx: int, ny: int, kx2: seq<real>, ky2: seq<real>, k2max: real, wavlen: real)
      requires 0 < nx && 0 < ny && |kx2| == nx && |ky2| == ny
      ensures Valid() && fresh(data) && fresh(diffpat) && realSpace
      ensures this.nx == nx && this.ny == ny && this.kx2 == kx2 && this.ky2 == ky2
      ensures this.k2max == k2max && this.wavlen == wavlen
    {
      this.nx := nx;
      this.ny := ny;
      data := new Complex[nx, ny]((i, j) => Zero);
      CellLayout.MulMonotone(1, nx, ny);
      diffpat := new real[nx * ny](i => 0.0);
      realSpace := true;
      this.kx2 := kx2;
      this.ky2 := ky2;
      this.k2max := k2max;
      this.wavlen := wavlen;
    }

    /** GetTotalPixels: m_nx * m_ny as an unsigned product. */
    function TotalPixels(): (n: int)
      reads this
      ensures 0 <= n < TwoTo32
      ensures 0 <= nx * ny < TwoTo32 ==> n == nx * ny
    {
      U32(nx * ny)
    }

    /** Flat index i of the wave's storage, taken in row-major order of
        data[ix][iy]: row i / ny, column i % ny. */
    function PixelIntensity(i: int): (r: real)
      requires Valid() && 0 <= i < nx * ny
      reads this, data
      ensures r >= 0.0
      ensures r == Norm2(data[i / ny, i % ny])
    {
      FlatCell(i, nx, ny);
      Norm2(data[i / ny, i % ny])
    }

    /** GetPixelIntensity(x, y): the flat pixel x + m_nx * y. */
    function PixelIntensityAt(x: int, y: int): (r: real)
      requires Valid() && 0 <= x < nx && 0 <= y < ny
      reads this, data
      ensures r >= 0.0
    {
      FlatIndexInGrid(x, y, nx, ny);
      PixelIntensity(x + nx * y)
    }

    /** On a square wave the (x, y) accessor reads cell [y][x] of the
        row-major storage: x + nx y addresses row y. */
    lemma PixelAtReadsRowY(x: int, y: int)
      requires Valid() && nx == ny && 0 <= x < nx && 0 <= y < ny
      ensures PixelIntensityAt(x, y) == Norm2(data[y, x])
    {
      FlatIndexInGrid(x, y, nx, ny);
      CellLayout.DigitsOf(x + nx * y, ny, y, x);
    }

    /** GetDiffPatPixel(i). */
    function DiffPatPixel(i: int): real
      requires 0 <= i < diffpat.Length
      reads diffpat
    {
      diffpat[i]
    }

    /** GetDiffPatPixel(x, y): flat index x + m_nx * y. */
    function DiffPatPixelAt(x: int, y: int): real
      requires Valid() && 0 <= x < nx && 0 <= y < ny
      reads this, diffpat
    {
      FlatIndexInGrid(x, y, nx, ny);
      diffpat[x + nx * y]
    }

    /** SetDiffPatPixel(i, v): entry i becomes v, no other entry changes. */
    method SetDiffPatPixel(i: int, v: real)
      requires 0 <= i < diffpat.Length
      modifies diffpat
      ensures DiffPatPixel(i) == v
      ensures forall j :: 0 <= j < diffpat.Length && j != i ==> DiffPatPixel(j) == old(DiffPatPixel(j))
    {
      diffpat[i] := v;
    }

    /** SetDiffPatPixel(x, y, v): the pixel the (x, y) getter reads becomes
        v, and the getter's other pixels keep their value. */
    method SetDiffPatPixelAt(x: int, y: int, v: real)
      requires Valid() && 0 <= x < nx && 0 <= y < ny
      modifies diffpat
      ensures DiffPatPixelAt(x, y) == v
      ensures forall x', y' :: 0 <= x' < nx && 0 <= y' < ny && (x', y') != (x, y) ==>
        DiffPatPixelAt(x', y') == old(DiffPatPixelAt(x', y'))
    {
      FlatIndexInGrid(x, y, nx, ny);
      diffpat[x + nx * y] := v;
      forall x', y' | 0 <= x' < nx && 0 <= y' < ny && (x', y') != (x, y)
        ensures x' + nx * y' != x + nx * y
      {
        FlatIndexDistinct(x, y, x', y', nx);
      }
    }

    /** ToFourierSpace: the wave is replaced by its transform and marked as
        being in Fourier space. */
    method ToFourierSpace(ft: Transform)
      requires Valid()
      modifies this, data
      ensures Valid() && !realSpace && unchangedScalars()
      ensures Snapshot(data) == Transformed(ft, old(Snapshot(data)), nx, ny)
    {
      Apply(ft);
      realSpace := false;
    }

    /** ToRealSpace: the inverse direction. */
    method ToRealSpace(ift: Transform)
      requires Valid()
      modifies this, data
      ensures Valid() && realSpace && unchangedScalars()
      ensures Snapshot(data) == Transformed(ift, old(Snapshot(data)), nx, ny)
    {
      Apply(ift);
      realSpace := true;
    }

    /** The frequencies, the cutoff and the wavelength are kept. */
    twostate predicate unchangedScalars()
      reads this
    {
      kx2 == old(kx2) && ky2 == old(ky2) && k2max == old(k2max) && wavlen == old(wavlen)
    }

    method Apply(t: Transform)
      requires Valid()
      modifies data
      ensures Snapshot(data) == Transformed(t, old(Snapshot(data)), nx, ny)
    {
      var m := Snapshot(data);
      forall i, j | 0 <= i < nx && 0 <= j < ny {
        data[i, j] := t(m, i, j);
      }
      SnapshotIs(data, Transformed(t, m, nx, ny));
    }
  }

  /** Flat index x + nx y of a pixel of an nx by ny grid lies in
      [0, nx ny). */
  lemma FlatIndexInGrid(x: int, y: int, nx: int, ny: int)
    requires 0 <= x < nx && 0 <= y < ny
    ensures 0 <= x + nx * y < nx * ny
  {
    CellLayout.MulMonotone(y, ny - 1, nx);
    assert (ny - 1) * nx == nx * ny - nx;
  }

  /** Distinct pixels have distinct flat indices. */
  lemma FlatIndexDistinct(x: int, y: int, x': int, y': int, nx: int)
    requires 0 <= x < nx && 0 <= x' < nx && 0 <= y && 0 <= y'
    requires (x, y) != (x', y')
    ensures x + nx * y != x' + nx * y'
  {
    if x + nx * y == x' + nx * y' {
      assert y * nx + x == y' * nx + x';
      CellLayout.SplitUnique(y, x, y', x', nx);
    }
  }

  /** Flat index i of an nx by ny grid names row i / ny, column i % ny. */
  lemma FlatCell(i: int, nx: int, ny: int)
    requires 0 < ny && 0 <= i < nx * ny
    ensures 0 <= i / ny < nx && 0 <= i % ny < ny
  {
    CellLayout.DivMod(i, ny);
    CellLayout.QuotientNonNegative(i, ny);
    CellLayout.LtFromMul(i / ny, nx, ny);
  }
}
