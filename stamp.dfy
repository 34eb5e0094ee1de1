// Depositing one atom of the 3D FFT potential into the slice stack
// (libs/potentials/pot_3d_fft.cpp, AddAtomNonPeriodic and AddAtomPeriodic):
// for every pixel column (iax, iay) of the atom's box whose distance from the
// atom falls inside the table, and for every slice iaz of the box, the table
// is read at radial index ir and layer offset iOffsetZ, interpolated linearly
// in r, and the value is added to the real part of
// m_trans1[iAtomZ + iaz][y][x].  Both modes share this loop nest; they differ
// in the box and in how a column index becomes a pixel (as is, or wrapped).

module SliceStamp {
  import opened Numerics
  import CellLayout

  /** One atom's footprint: its table (nr entries per z layer), the offset
      limit and step through the layers, the layer offset of the first slice,
      the slice range iAtomZ + [z0, z1], the column ranges [x0, x1] and
      [y0, y1], the boundary mode and grid size, and the geometry of the
      radial distance. */
  datatype Stamp = Stamp(
    tab: seq<real>, nr: int, upper: int, step: int, off0: int,
    iAtomZ: int, z0: int, z1: int,
    x0: int, x1: int, y0: int, y1: int,
    periodic: bool, nx: int, ny: int,
    dx: real, dy: real, dr: real, boxX: real, boxY: real)

  /** Every read stays inside the table, every box column maps to at most
      one pixel and back, and the slice range is a range. */
  predicate StampOk(st: Stamp)
  {
    st.nr >= 2 && 0 <= st.upper && st.upper + st.nr - 1 <= |st.tab| &&
    0 <= st.off0 < TwoTo32 && st.dr > 0.0 && st.z0 <= st.z1 + 1 &&
    AxisOk(st.periodic, st.x0, st.x1, st.nx) && AxisOk(st.periodic, st.y0, st.y1, st.ny)
  }

  /** A range of column indices: inside [0, n) when clipped, shorter than n
      when wrapped. */
  predicate AxisOk(periodic: bool, lo: int, hi: int, n: int)
  {
    n > 0 && (if periodic then hi - lo < n else 0 <= lo && hi < n)
  }

  /** The pixel column index i is written to: wrapped as (i + n) % n in the
      periodic mode, as is otherwise. */
  function Target(periodic: bool, n: int, i: int): int
    requires n > 0
  {
    if periodic then (i + n) % n else i
  }

  /** The column index that writes pixel c: the one congruent to c from lo
      on in the periodic mode, c itself otherwise. */
  function Source(periodic: bool, lo: int, n: int, c: int): int
    requires n > 0
  {
    if periodic then lo + (c - lo) % n else c
  }

  /** Within the range, Target and Source are inverse: pixel c is written by
      column i exactly when i is the column of c; and Target lands inside
      the grid. */
  lemma AxisBijection(periodic: bool, lo: int, hi: int, n: int, i: int, c: int)
    requires AxisOk(periodic, lo, hi, n) && lo <= i <= hi && 0 <= c < n
    ensures 0 <= Target(periodic, n, i) < n
    ensures c == Target(periodic, n, i) <==> Source(periodic, lo, n, c) == i
  {
    if periodic {
      var t := (i + n) % n;
      CellLayout.DivMod(i + n, n);
      var q := (i + n) / n;
      if c == t {
        assert c - lo == (1 - q) * n + (i - lo);
        CellLayout.DigitsOf(c - lo, n, 1 - q, i - lo);
      }
      if Source(periodic, lo, n, c) == i {
        CellLayout.DivMod(c - lo, n);
        var k := (c - lo) / n;
        assert i + n == (1 - k) * n + c;
        CellLayout.DigitsOf(i + n, n, 1 - k, c);
      }
    }
  }

  /** Where a pixel column meets the table: ir and the fraction ddr - ir of
      the radial distance in units of dr. */
  datatype Ring = Ring(ir: int, frac: real)

  function Square(v: real): real
  {
    v * v
  }

  /** The ring of column (iax, iay), if it lies closer than nr - 1 table
      steps to the atom. */
  function RingAt(st: Stamp, sqrt: real -> real, iax: int, iay: int): (o: Option<Ring>)
    requires st.dr > 0.0
    ensures o.Some? ==> 0 <= o.value.ir < st.nr - 1 && 0.0 <= o.value.frac < 1.0
  {
    var x2 := Square(iax as real * st.dx - st.boxX);
    var y2 := Square(iay as real * st.dy - st.boxY);
    var ddr := sqrt(x2 + y2) / st.dr;
    var ir := Floor(ddr);
    if 0 <= ir < st.nr - 1 then Some(Ring(ir, ddr - ir as real)) else None
  }

  /** The layer offset of slice iaz: iOffsetZ advances by one step per slice
      as a 32-bit unsigned value. */
  function Offset(st: Stamp, iaz: int): int
  {
    U32(st.off0 + (iaz - st.z0) * st.step)
  }

  /** The value added at layer offset off: the table interpolated linearly
      in r, or nothing once the offset reaches the limit. */
  function PotVal(st: Stamp, g: Ring, off: int): real
    requires StampOk(st) && 0 <= g.ir < st.nr - 1 && 0 <= off
  {
    if off < st.upper then (1.0 - g.frac) * st.tab[g.ir + off] + g.frac * st.tab[g.ir + 1 + off]
    else 0.0
  }

  /** Adding a real value to a complex pixel changes its real part. */
  function AddReal(c: Complex, v: real): Complex
  {
    Complex(c.re + v, c.im)
  }

  /** The new value of pixel (s, y, x), given its old value c. */
  function Stamped(st: Stamp, sqrt: real -> real, c: Complex, s: int, y: int, x: int): Complex
    requires StampOk(st)
  {
    BoxDone(st, sqrt, st.x1 + 1, c, s, y, x)
  }

  /** Pixel value c after the box columns iax < lim have been deposited. */
  function BoxDone(st: Stamp, sqrt: real -> real, lim: int, c: Complex, s: int, y: int, x: int): Complex
    requires StampOk(st)
  {
    var ix := Source(st.periodic, st.x0, st.nx, x);
    var iy := Source(st.periodic, st.y0, st.ny, y);
    var ring := RingAt(st, sqrt, ix, iy);
    if 0 <= x < st.nx && 0 <= y < st.ny && st.x0 <= ix < lim && st.y0 <= iy <= st.y1 && ring.Some? then
      Deposited(st, ring.value, c, s, st.z1 + 1)
    else c
  }

  /** Pixel value c after the columns iay < lim of box column iax have been
      deposited. */
  function RowDone(st: Stamp, sqrt: real -> real, iax: int, lim: int, c: Complex, s: int, y: int, x: int): Complex
    requires StampOk(st)
  {
    var iy := Source(st.periodic, st.y0, st.ny, y);
    var ring := RingAt(st, sqrt, iax, iy);
    if x == Target(st.periodic, st.nx, iax) && 0 <= y < st.ny && st.y0 <= iy < lim && ring.Some? then
      Deposited(st, ring.value, c, s, st.z1 + 1)
    else c
  }

  /** Pixels outside the box, or beyond the table's reach, are left alone. */
  lemma StampedOutsideUnchanged(st: Stamp, sqrt: real -> real, c: Complex, s: int, y: int, x: int)
    requires StampOk(st)
    requires !(st.z0 <= s - st.iAtomZ <= st.z1) ||
      RingAt(st, sqrt, Source(st.periodic, st.x0, st.nx, x), Source(st.periodic, st.y0, st.ny, y)).None?
    ensures Stamped(st, sqrt, c, s, y, x) == c
  {
  }

  /** A pixel inside the box and the table's reach gets the interpolated
      table value of its slice's layer. */
  lemma StampedInside(st: Stamp, sqrt: real -> real, c: Complex, s: int, y: int, x: int)
    requires StampOk(st) && 0 <= x < st.nx && 0 <= y < st.ny
    requires var ix := Source(st.periodic, st.x0, st.nx, x);
      var iy := Source(st.periodic, st.y0, st.ny, y);
      st.x0 <= ix <= st.x1 && st.y0 <= iy <= st.y1 && st.z0 <= s - st.iAtomZ <= st.z1 &&
      RingAt(st, sqrt, ix, iy).Some?
    ensures var ring := RingAt(st, sqrt, Source(st.periodic, st.x0, st.nx, x), Source(st.periodic, st.y0, st.ny, y));
      Stamped(st, sqrt, c, s, y, x) == AddReal(c, PotVal(st, ring.value, Offset(st, s - st.iAtomZ)))
  {
  }

  /** With a non-negative table, an atom never lowers the potential: each
      deposited value lies between two table entries. */
  lemma StampedRaises(st: Stamp, sqrt: real -> real, c: Complex, s: int, y: int, x: int)
    requires StampOk(st) && forall k :: 0 <= k < |st.tab| ==> st.tab[k] >= 0.0
    ensures Stamped(st, sqrt, c, s, y, x).re >= c.re
    ensures Stamped(st, sqrt, c, s, y, x).im == c.im
  {
    var ix := Source(st.periodic, st.x0, st.nx, x);
    var iy := Source(st.periodic, st.y0, st.ny, y);
    var ring := RingAt(st, sqrt, ix, iy);
    if ring.Some? {
      var off := Offset(st, s - st.iAtomZ);
      if off < st.upper {
        var g := ring.value;
        Interpolation(g.frac, st.tab[g.ir + off], st.tab[g.ir + 1 + off]);
      }
    }
  }

  /** Linear interpolation between two values with weight f in [0, 1)
      lies between them. */
  lemma Interpolation(f: real, a: real, b: real)
    requires 0.0 <= f < 1.0
    ensures (if a < b then a else b) <= (1.0 - f) * a + f * b <= (if a < b then b else a)
  {
    if a < b {
      LerpBetween(f, a, b);
    } else {
      LerpBetweenDown(f, b, a);
    }
  }

  lemma LerpBetween(f: real, lo: real, hi: real)
    requires 0.0 <= f <= 1.0 && lo <= hi
    ensures lo <= (1.0 - f) * lo + f * hi <= hi
  {
    var d := hi - lo;
    var w := f * d;
    Fraction(f, d);
    LerpIdentity(f, lo, hi, d, w);
    assert lo <= lo + w <= lo + d;
  }

  lemma LerpIdentity(f: real, lo: real, hi: real, d: real, w: real)
    requires d == hi - lo && w == f * d
    ensures (1.0 - f) * lo + f * hi == lo + w
  {
  }

  lemma LerpBetweenDown(f: real, lo: real, hi: real)
    requires 0.0 <= f <= 1.0 && lo <= hi
    ensures lo <= (1.0 - f) * hi + f * lo <= hi
  {
    var d := hi - lo;
    var w := (1.0 - f) * d;
    Fraction(1.0 - f, d);
    LerpDownIdentity(f, lo, hi, d, w);
    assert lo <= lo + w <= lo + d;
  }

  lemma LerpDownIdentity(f: real, lo: real, hi: real, d: real, w: real)
    requires d == hi - lo && w == (1.0 - f) * d
    ensures (1.0 - f) * hi + f * lo == lo + w
  {
  }

  lemma Fraction(f: real, d: real)
    requires 0.0 <= f <= 1.0 && 0.0 <= d
    ensures 0.0 <= f * d <= d
  {
    assert d - f * d == (1.0 - f) * d;
  }

  /** The stack can hold every pixel the stamp writes. */
  predicate Fits(t: array3<Complex>, st: Stamp)
    reads {}
  {
    t.Length1 >= st.ny && t.Length2 >= st.nx &&
    (st.z0 <= st.z1 ==> 0 <= st.iAtomZ + st.z0 && st.iAtomZ + st.z1 < t.Length0)
  }

  /** Pixel value c of slice s after the slices iaz < lim of a column with
      ring g have been deposited. */
  function Deposited(st: Stamp, g: Ring, c: Complex, s: int, lim: int): Complex
    requires StampOk(st) && 0 <= g.ir < st.nr - 1
  {
    if st.z0 <= s - st.iAtomZ < lim then AddReal(c, PotVal(st, g, Offset(st, s - st.iAtomZ))) else c
  }

  /** The slices of one pixel column (iax, iay), as the iaz loop does them. */
  method Column(t: array3<Complex>, st: Stamp, sqrt: real -> real, iax: int, iay: int)
    requires StampOk(st) && Fits(t, st)
    requires st.x0 <= iax <= st.x1 && st.y0 <= iay <= st.y1
    modifies t
    ensures forall s, y, x :: 0 <= s < t.Length0 && 0 <= y < t.Length1 && 0 <= x < t.Length2 ==>
      t[s, y, x] ==
        (var ring := RingAt(st, sqrt, iax, iay);
         if y == Target(st.periodic, st.ny, iay) && x == Target(st.periodic, st.nx, iax) && ring.Some?
         then Deposited(st, ring.value, old(t[s, y, x]), s, st.z1 + 1)
         else old(t[s, y, x]))
  {
    AxisBijection(st.periodic, st.x0, st.x1, st.nx, iax, 0);
    AxisBijection(st.periodic, st.y0, st.y1, st.ny, iay, 0);
    var ring := RingAt(st, sqrt, iax, iay);
    if ring.Some? {
      var g := ring.value;
      var px := Target(st.periodic, st.nx, iax);
      var py := Target(st.periodic, st.ny, iay);
      ColumnSlices(t, st, g, px, py);
    }
  }

  method ColumnSlices(t: array3<Complex>, st: Stamp, g: Ring, px: int, py: int)
    requires StampOk(st) && Fits(t, st) && 0 <= g.ir < st.nr - 1 && 0.0 <= g.frac < 1.0
    requires 0 <= px < t.Length2 && 0 <= py < t.Length1
    modifies t
    ensures forall s, y, x :: 0 <= s < t.Length0 && 0 <= y < t.Length1 && 0 <= x < t.Length2 ==>
      t[s, y, x] == (if y == py && x == px then Deposited(st, g, old(t[s, y, x]), s, st.z1 + 1) else old(t[s, y, x]))
  {
    var ir, ddr := g.ir, g.frac;
    var iOff := st.off0;
    var iaz := st.z0;
    while iaz <= st.z1
      invariant st.z0 <= iaz <= st.z1 + 1
      invariant iOff == Offset(st, iaz)
      invariant forall s, y, x :: 0 <= s < t.Length0 && 0 <= y < t.Length1 && 0 <= x < t.Length2 ==>
        t[s, y, x] == (if y == py && x == px then Deposited(st, g, old(t[s, y, x]), s, iaz) else old(t[s, y, x]))
    {
      // the source's branch for a negative iOffsetZ is dead: it is unsigned
      var potVal := 0.0;
      if iOff < st.upper {
        potVal := (1.0 - ddr) * st.tab[ir + iOff] + ddr * st.tab[ir + 1 + iOff];
      }
      assert potVal == PotVal(st, g, Offset(st, iaz));
      t[st.iAtomZ + iaz, py, px] := AddReal(t[st.iAtomZ + iaz, py, px], potVal);
      U32Add(st.off0 + (iaz - st.z0) * st.step, st.step);
      assert st.off0 + (iaz - st.z0) * st.step + st.step == st.off0 + (iaz + 1 - st.z0) * st.step;
      iOff := U32(iOff + st.step);
      iaz := iaz + 1;
    }
  }

  /** All columns iay of the box at column iax. */
  method Row(t: array3<Complex>, st: Stamp, sqrt: real -> real, iax: int)
    requires StampOk(st) && Fits(t, st) && st.x0 <= iax <= st.x1
    modifies t
    ensures forall s, y, x :: 0 <= s < t.Length0 && 0 <= y < t.Length1 && 0 <= x < t.Length2 ==>
      t[s, y, x] == RowDone(st, sqrt, iax, st.y1 + 1, old(t[s, y, x]), s, y, x)
  {
    var iay := st.y0;
    while iay <= st.y1
      invariant iay == st.y0 || st.y0 <= iay <= st.y1 + 1
      invariant forall s, y, x :: 0 <= s < t.Length0 && 0 <= y < t.Length1 && 0 <= x < t.Length2 ==>
        t[s, y, x] == RowDone(st, sqrt, iax, iay, old(t[s, y, x]), s, y, x)
    {
      forall y | 0 <= y < st.ny
        ensures y == Target(st.periodic, st.ny, iay) <==> Source(st.periodic, st.y0, st.ny, y) == iay
      {
        AxisBijection(st.periodic, st.y0, st.y1, st.ny, iay, y);
      }
      AxisBijection(st.periodic, st.y0, st.y1, st.ny, iay, 0);
      Column(t, st, sqrt, iax, iay);
      iay := iay + 1;
    }
  }

  /** All columns of the box (iax outer, iay inner, iaz innermost). */
  method Box(t: array3<Complex>, st: Stamp, sqrt: real -> real)
    requires StampOk(st) && Fits(t, st)
    modifies t
    ensures forall s, y, x :: 0 <= s < t.Length0 && 0 <= y < t.Length1 && 0 <= x < t.Length2 ==>
      t[s, y, x] == Stamped(st, sqrt, old(t[s, y, x]), s, y, x)
  {
    var iax := st.x0;
    while iax <= st.x1
      invariant iax == st.x0 || st.x0 <= iax <= st.x1 + 1
      invariant forall s, y, x :: 0 <= s < t.Length0 && 0 <= y < t.Length1 && 0 <= x < t.Length2 ==>
        t[s, y, x] == BoxDone(st, sqrt, iax, old(t[s, y, x]), s, y, x)
    {
      forall x | 0 <= x < st.nx
        ensures x == Target(st.periodic, st.nx, iax) <==> Source(st.periodic, st.x0, st.nx, x) == iax
      {
        AxisBijection(st.periodic, st.x0, st.x1, st.nx, iax, x);
      }
      AxisBijection(st.periodic, st.x0, st.x1, st.nx, iax, 0);
      Row(t, st, sqrt, iax);
      iax := iax + 1;
    }
  }
}
