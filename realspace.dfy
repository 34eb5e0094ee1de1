// The neighbourhood walk of the real-space potentials
// (libs/potentials/RealSpacePotential.cpp): for an atom at (atomX, atomY,
// atomZ), every pixel offset (iax, iay) of the box [-iRadX, iRadX] x
// [-iRadY, iRadY] around the atom's pixel whose corner lies within the atom
// radius is handed to the dimension-specific _AddAtomRealSpace: wrapped onto
// the image in the periodic mode, and only when it falls on the image in the
// clipped mode. What the callback does belongs to the subclasses; the walk is
// modelled by the sequence of calls it makes.

module RealSpace {
  import opened Numerics
  import CellLayout

  /** Pixel sizes, image size, the box half-widths, the squared atom radius,
      the thickness of the first slice and the boundary mode. */
  datatype RealConfig = RealConfig(
    dx: real, dy: real, nx: int, ny: int,
    iRadX: int, iRadY: int, atomRadius2: real,
    sliceThickness: real, periodicXY: bool)

  predicate ConfigOk(cfg: RealConfig)
  {
    cfg.dx > 0.0 && cfg.dy > 0.0 && cfg.nx > 0 && cfg.ny > 0 &&
    cfg.iRadX >= 0 && cfg.iRadY >= 0 && cfg.sliceThickness > 0.0
  }

  /** An atom's position and its cell: floor(x / dx), floor(y / dy), and
      floor(z / thickness) as the unsigned value the callback receives. */
  datatype Site = Site(atomX: real, atomY: real, atomZ: real, iAtomX: int, iAtomY: int, iAtomZ: int)

  function SiteOf(cfg: RealConfig, atomX: real, atomY: real, atomZ: real): Site
    requires ConfigOk(cfg)
  {
    Site(atomX, atomY, atomZ, Floor(atomX / cfg.dx), Floor(atomY / cfg.dy), U32(Floor(atomZ / cfg.sliceThickness)))
  }

  /** The atom lies in the pixel its cell indices name. */
  lemma SiteInPixel(cfg: RealConfig, atomX: real, atomY: real, atomZ: real)
    requires ConfigOk(cfg)
    ensures var s := SiteOf(cfg, atomX, atomY, atomZ);
      s.iAtomX as real * cfg.dx <= atomX < (s.iAtomX as real + 1.0) * cfg.dx &&
      s.iAtomY as real * cfg.dy <= atomY < (s.iAtomY as real + 1.0) * cfg.dy
  {
    PixelOf(atomX, cfg.dx);
    PixelOf(atomY, cfg.dy);
  }

  lemma PixelOf(a: real, d: real)
    requires d > 0.0
    ensures Floor(a / d) as real * d <= a
    ensures (Floor(a / d) as real + 1.0) * d > a
  {
    var q := a / d;
    var f := Floor(q) as real;
    assert q * d == a;
    MulLe(f, q, d);
    MulLt(q, f + 1.0, d);
    assert q * d < (f + 1.0) * d;
    assert a < (f + 1.0) * d;
    assert f == Floor(a / d) as real;
  }

  /** One call of _AddAtomRealSpace: the offset of the pixel corner from
      the atom and the pixel, on both axes, then z and the slice. */
  datatype Call = Call(x: real, ix: int, y: real, iy: int, atomZ: real, iAtomZ: int)

  /** The offset of pixel corner i from the atom at a, at spacing d. */
  function Offset(i: int, d: real, a: real): real
  {
    i as real * d - a
  }

  /** The pixel of (unwrapped) index i, shifted by 16 n into the positive
      range in unsigned arithmetic and reduced modulo n. */
  function WrapIndex(i: int, n: int): (r: int)
    requires n > 0
    ensures 0 <= r < n
  {
    U32(i + 16 * n) % n
  }

  /** The wrap is the ordinary remainder as long as the shifted index is
      non-negative and fits an unsigned. */
  lemma WrapIndexIsMod(i: int, n: int)
    requires n > 0 && -16 * n <= i && i + 16 * n < TwoTo32
    ensures WrapIndex(i, n) == i % n
  {
    var q, r := i / n, i % n;
    CellLayout.DivMod(i, n);
    assert i + 16 * n == (q + 16) * n + r;
    CellLayout.DigitsOf(i + 16 * n, n, q + 16, r);
  }

  /** The squared distance of (x, y) from the atom. */
  function Dist2(x: real, y: real): real
  {
    x * x + y * y
  }

  /** The first and last offset walked on one axis: the whole box in the
      periodic mode, the part over the image [0, n) in the clipped mode. */
  function Lo(periodic: bool, iAtom: int, iRad: int): int
  {
    if periodic then -iRad else Max(-iRad, -iAtom)
  }

  function Hi(periodic: bool, iAtom: int, iRad: int, n: int): int
  {
    if periodic then iRad else Min(iRad, n - 1 - iAtom)
  }

  function XLo(cfg: RealConfig, s: Site): int { Lo(cfg.periodicXY, s.iAtomX, cfg.iRadX) }
  function XHi(cfg: RealConfig, s: Site): int { Hi(cfg.periodicXY, s.iAtomX, cfg.iRadX, cfg.nx) }
  function YLo(cfg: RealConfig, s: Site): int { Lo(cfg.periodicXY, s.iAtomY, cfg.iRadY) }
  function YHi(cfg: RealConfig, s: Site): int { Hi(cfg.periodicXY, s.iAtomY, cfg.iRadY, cfg.ny) }

  /** Offset (iax, iay) passes the radius filter. */
  predicate Within(cfg: RealConfig, s: Site, iax: int, iay: int)
  {
    Dist2(Offset(s.iAtomX + iax, cfg.dx, s.atomX), Offset(s.iAtomY + iay, cfg.dy, s.atomY)) <= cfg.atomRadius2
  }

  /** The offsets of column iax the walk reports, rows YLo..hi. */
  function RowVisits(cfg: RealConfig, s: Site, iax: int, hi: int): seq<(int, int)>
    decreases hi - YLo(cfg, s)
  {
    if hi < YLo(cfg, s) then []
    else RowVisits(cfg, s, iax, hi - 1) + (if Within(cfg, s, iax, hi) then [(iax, hi)] else [])
  }

  /** The offsets the walk reports in columns XLo..hi, column by column. */
  function Visits(cfg: RealConfig, s: Site, hi: int): seq<(int, int)>
    decreases hi - XLo(cfg, s)
  {
    if hi < XLo(cfg, s) then []
    else Visits(cfg, s, hi - 1) + RowVisits(cfg, s, hi, YHi(cfg, s))
  }

  /** Every offset the walk reports, in order. */
  function Walk(cfg: RealConfig, s: Site): seq<(int, int)>
  {
    Visits(cfg, s, XHi(cfg, s))
  }

  /** The call made for offset v. */
  function CallAt(cfg: RealConfig, s: Site, v: (int, int)): Call
    requires cfg.nx > 0 && cfg.ny > 0
  {
    Call(Offset(s.iAtomX + v.0, cfg.dx, s.atomX), WrapIndex(s.iAtomX + v.0, cfg.nx),
         Offset(s.iAtomY + v.1, cfg.dy, s.atomY), WrapIndex(s.iAtomY + v.1, cfg.ny),
         s.atomZ, s.iAtomZ)
  }

  function CallsOf(cfg: RealConfig, s: Site, vs: seq<(int, int)>): (cs: seq<Call>)
    requires cfg.nx > 0 && cfg.ny > 0
    ensures |cs| == |vs|
  {
    seq(|vs|, k requires 0 <= k < |vs| => CallAt(cfg, s, vs[k]))
  }

  lemma CallsOfAppend(cfg: RealConfig, s: Site, a: seq<(int, int)>, b: seq<(int, int)>)
    requires cfg.nx > 0 && cfg.ny > 0
    ensures CallsOf(cfg, s, a + b) == CallsOf(cfg, s, a) + CallsOf(cfg, s, b)
  {
  }

  // ---------------------------------------------------------------- the walk

  /** AddAtomRealSpace: the calls made for an atom at (atomX, atomY, atomZ). */
  method AddAtomRealSpace(cfg: RealConfig, atomX: real, atomY: real, atomZ: real) returns (calls: seq<Call>)
    requires ConfigOk(cfg)
    ensures var s := SiteOf(cfg, atomX, atomY, atomZ); calls == CallsOf(cfg, s, Walk(cfg, s))
  {
    var iAtomX := Floor(atomX / cfg.dx);
    var iAtomY := Floor(atomY / cfg.dy);
    var iAtomZ := U32(Floor(atomZ / cfg.sliceThickness));
    var s := Site(atomX, atomY, atomZ, iAtomX, iAtomY, iAtomZ);
    ghost var hi := XHi(cfg, s);
    calls := [];
    var iax := -cfg.iRadX;
    while iax <= cfg.iRadX
      invariant -cfg.iRadX <= iax <= cfg.iRadX + 1
      invariant !cfg.periodicXY && iax > -cfg.iRadX ==> iax + iAtomX >= 0
      invariant calls == CallsOf(cfg, s, Visits(cfg, s, Min(iax - 1, hi)))
    {
      if !cfg.periodicXY {
        if iax + iAtomX < 0 {
          iax := -iAtomX;
          if Abs(iax) > cfg.iRadX {
            break;
          }
        }
        if iax + iAtomX >= cfg.nx {
          break;
        }
      }
      var x := Offset(iAtomX + iax, cfg.dx, atomX);
      var ix := WrapIndex(iAtomX + iax, cfg.nx);
      var row := Row(cfg, s, iax, x, ix);
      CallsOfAppend(cfg, s, Visits(cfg, s, iax - 1), RowVisits(cfg, s, iax, YHi(cfg, s)));
      calls := calls + row;
      iax := iax + 1;
    }
  }

  function Abs(i: int): int { if i < 0 then -i else i }

  /** The inner loop of the walk: the calls for column iax, whose offset
      and pixel are x and ix. */
  method Row(cfg: RealConfig, s: Site, iax: int, x: real, ix: int) returns (row: seq<Call>)
    requires ConfigOk(cfg)
    requires x == Offset(s.iAtomX + iax, cfg.dx, s.atomX) && ix == WrapIndex(s.iAtomX + iax, cfg.nx)
    ensures row == CallsOf(cfg, s, RowVisits(cfg, s, iax, YHi(cfg, s)))
  {
    row := [];
    var iay := -cfg.iRadY;
    RowStart(cfg, s, iax);
    while iay <= cfg.iRadY
      invariant -cfg.iRadY <= iay <= cfg.iRadY + 1
      invariant !cfg.periodicXY && iay > -cfg.iRadY ==> iay + s.iAtomY >= 0
      invariant RowUpTo(cfg, s, iax, iay, row)
    {
      if !cfg.periodicXY {
        if iay + s.iAtomY < 0 {
          RowJump(cfg, s, iax, iay, row);
          iay := -s.iAtomY;
          if Abs(iay) > cfg.iRadY {
            break;
          }
        }
        if iay + s.iAtomY >= cfg.ny {
          break;
        }
      }
      var y := Offset(s.iAtomY + iay, cfg.dy, s.atomY);
      var iy := WrapIndex(s.iAtomY + iay, cfg.ny);
      var r2 := Dist2(x, y);
      var call := Call(x, ix, y, iy, s.atomZ, s.iAtomZ);
      RowAdvance(cfg, s, iax, iay, row, call, r2 <= cfg.atomRadius2);
      if r2 <= cfg.atomRadius2 {
        row := row + [call];
      }
      iay := iay + 1;
    }
  }

  /** The calls of column iax for the rows before iay. */
  ghost predicate RowUpTo(cfg: RealConfig, s: Site, iax: int, iay: int, row: seq<Call>)
    requires cfg.nx > 0 && cfg.ny > 0
  {
    row == CallsOf(cfg, s, RowVisits(cfg, s, iax, Min(iay - 1, YHi(cfg, s))))
  }

  lemma RowStart(cfg: RealConfig, s: Site, iax: int)
    requires cfg.nx > 0 && cfg.ny > 0 && cfg.iRadY >= 0
    ensures RowUpTo(cfg, s, iax, -cfg.iRadY, [])
  {
    assert RowVisits(cfg, s, iax, Min(-cfg.iRadY - 1, YHi(cfg, s))) == [];
  }

  /** In the clipped mode the rows below the image report nothing, so the
      walk may jump to the first row over it. */
  lemma RowJump(cfg: RealConfig, s: Site, iax: int, iay: int, row: seq<Call>)
    requires cfg.nx > 0 && cfg.ny > 0 && !cfg.periodicXY
    requires -cfg.iRadY <= iay && iay + s.iAtomY < 0 && RowUpTo(cfg, s, iax, iay, row)
    ensures RowUpTo(cfg, s, iax, -s.iAtomY, row)
  {
    assert RowVisits(cfg, s, iax, Min(iay - 1, YHi(cfg, s))) == [];
    assert RowVisits(cfg, s, iax, Min(-s.iAtomY - 1, YHi(cfg, s))) == [];
  }

  /** Row iay of the box adds its call when it passes the radius filter. */
  lemma RowAdvance(cfg: RealConfig, s: Site, iax: int, iay: int, row: seq<Call>, call: Call, take: bool)
    requires cfg.nx > 0 && cfg.ny > 0
    requires YLo(cfg, s) <= iay <= YHi(cfg, s) && RowUpTo(cfg, s, iax, iay, row)
    requires call == CallAt(cfg, s, (iax, iay)) && take == Within(cfg, s, iax, iay)
    ensures RowUpTo(cfg, s, iax, iay + 1, if take then row + [call] else row)
  {
    var piece := if Within(cfg, s, iax, iay) then [(iax, iay)] else [];
    assert RowVisits(cfg, s, iax, iay) == RowVisits(cfg, s, iax, iay - 1) + piece;
    CallsOfAppend(cfg, s, RowVisits(cfg, s, iax, iay - 1), piece);
  }

  // ---------------------------------------------------------------- what the walk reports

  /** Offset a comes before offset b: by column, then by row. */
  predicate Before(a: (int, int), b: (int, int))
  {
    a.0 < b.0 || (a.0 == b.0 && a.1 < b.1)
  }

  /** The reported offsets of one column lie in rows YLo..hi, pass the
      radius filter, increase, number at most hi - YLo + 1, and include
      every such row that passes the filter. */
  lemma {:induction false} RowVisitsFacts(cfg: RealConfig, s: Site, iax: int, hi: int)
    ensures var r := RowVisits(cfg, s, iax, hi);
      forall k :: 0 <= k < |r| ==> r[k].0 == iax && YLo(cfg, s) <= r[k].1 <= hi && Within(cfg, s, iax, r[k].1)
    ensures var r := RowVisits(cfg, s, iax, hi);
      forall k, l :: 0 <= k < l < |r| ==> r[k].1 < r[l].1
    ensures |RowVisits(cfg, s, iax, hi)| <= Max(0, hi - YLo(cfg, s) + 1)
    ensures forall iay :: YLo(cfg, s) <= iay <= hi && Within(cfg, s, iax, iay) ==> (iax, iay) in RowVisits(cfg, s, iax, hi)
    decreases hi - YLo(cfg, s)
  {
    if hi >= YLo(cfg, s) {
      RowVisitsFacts(cfg, s, iax, hi - 1);
      var r := RowVisits(cfg, s, iax, hi);
      var p := RowVisits(cfg, s, iax, hi - 1);
      assert r == p + (if Within(cfg, s, iax, hi) then [(iax, hi)] else []);
      forall iay | YLo(cfg, s) <= iay <= hi && Within(cfg, s, iax, iay)
        ensures (iax, iay) in r
      {
        if iay < hi {
          assert (iax, iay) in p;
        } else {
          assert r[|r| - 1] == (iax, hi);
        }
      }
    }
  }

  /** The same over columns XLo..hi: the offsets lie in the box and pass
      the filter, come in increasing order, number at most
      (hi - XLo + 1)(2 iRadY + 1), and include every offset of the box
      that passes the filter. */
  lemma {:induction false} VisitsFacts(cfg: RealConfig, s: Site, hi: int)
    requires cfg.iRadY >= 0
    ensures var v := Visits(cfg, s, hi);
      forall k :: 0 <= k < |v| ==>
        XLo(cfg, s) <= v[k].0 <= hi && YLo(cfg, s) <= v[k].1 <= YHi(cfg, s) && Within(cfg, s, v[k].0, v[k].1)
    ensures var v := Visits(cfg, s, hi);
      forall k, l :: 0 <= k < l < |v| ==> Before(v[k], v[l])
    ensures |Visits(cfg, s, hi)| <= Max(0, hi - XLo(cfg, s) + 1) * (2 * cfg.iRadY + 1)
    ensures forall iax, iay :: XLo(cfg, s) <= iax <= hi && YLo(cfg, s) <= iay <= YHi(cfg, s) && Within(cfg, s, iax, iay) ==>
      (iax, iay) in Visits(cfg, s, hi)
  {
    VisitsInBox(cfg, s, hi);
    VisitsOrdered(cfg, s, hi);
    VisitsCount(cfg, s, hi);
    VisitsComplete(cfg, s, hi);
  }

  /** Offset o lies in columns XLo..hi and rows YLo..YHi and passes the
      radius filter. */
  predicate InColumns(cfg: RealConfig, s: Site, hi: int, o: (int, int))
  {
    XLo(cfg, s) <= o.0 <= hi && YLo(cfg, s) <= o.1 <= YHi(cfg, s) && Within(cfg, s, o.0, o.1)
  }

  lemma {:induction false} VisitsInBox(cfg: RealConfig, s: Site, hi: int)
    ensures forall k :: 0 <= k < |Visits(cfg, s, hi)| ==> InColumns(cfg, s, hi, Visits(cfg, s, hi)[k])
    decreases hi - XLo(cfg, s)
  {
    if hi >= XLo(cfg, s) {
      VisitsInBox(cfg, s, hi - 1);
      RowVisitsFacts(cfg, s, hi, YHi(cfg, s));
      var p := Visits(cfg, s, hi - 1);
      var r := RowVisits(cfg, s, hi, YHi(cfg, s));
      var v := Visits(cfg, s, hi);
      assert v == p + r;
      forall k | 0 <= k < |v|
        ensures InColumns(cfg, s, hi, v[k])
      {
        if k < |p| {
          assert InColumns(cfg, s, hi - 1, p[k]);
          assert v[k] == p[k];
        } else {
          assert v[k] == r[k - |p|];
        }
      }
    }
  }

  /** The offsets come in increasing (column, row) order. */
  predicate InOrder(v: seq<(int, int)>)
  {
    forall k, l :: 0 <= k < l < |v| ==> Before(v[k], v[l])
  }

  lemma {:induction false} VisitsOrdered(cfg: RealConfig, s: Site, hi: int)
    ensures InOrder(Visits(cfg, s, hi))
    decreases hi - XLo(cfg, s)
  {
    if hi >= XLo(cfg, s) {
      VisitsOrdered(cfg, s, hi - 1);
      VisitsInBox(cfg, s, hi - 1);
      RowVisitsFacts(cfg, s, hi, YHi(cfg, s));
      var p := Visits(cfg, s, hi - 1);
      forall k | 0 <= k < |p|
        ensures p[k].0 < hi
      {
        assert InColumns(cfg, s, hi - 1, p[k]);
      }
      OrderedAppend(p, RowVisits(cfg, s, hi, YHi(cfg, s)), hi);
    }
  }

  /** Offsets in columns below c, in order, followed by offsets of column c
      in increasing rows, are in order. */
  lemma OrderedAppend(p: seq<(int, int)>, r: seq<(int, int)>, c: int)
    requires InOrder(p)
    requires forall k :: 0 <= k < |p| ==> p[k].0 < c
    requires forall k :: 0 <= k < |r| ==> r[k].0 == c
    requires forall k, l :: 0 <= k < l < |r| ==> r[k].1 < r[l].1
    ensures InOrder(p + r)
  {
    var v := p + r;
    forall k, l | 0 <= k < l < |v|
      ensures Before(v[k], v[l])
    {
      if l < |p| {
        assert v[k] == p[k] && v[l] == p[l];
      } else if k < |p| {
        assert v[k] == p[k] && v[l] == r[l - |p|];
      } else {
        assert v[k] == r[k - |p|] && v[l] == r[l - |p|];
      }
    }
  }

  lemma {:induction false} VisitsCount(cfg: RealConfig, s: Site, hi: int)
    requires cfg.iRadY >= 0
    ensures |Visits(cfg, s, hi)| <= Max(0, hi - XLo(cfg, s) + 1) * (2 * cfg.iRadY + 1)
    decreases hi - XLo(cfg, s)
  {
    if hi >= XLo(cfg, s) {
      VisitsCount(cfg, s, hi - 1);
      RowVisitsFacts(cfg, s, hi, YHi(cfg, s));
      var p := Visits(cfg, s, hi - 1);
      var r := RowVisits(cfg, s, hi, YHi(cfg, s));
      assert |Visits(cfg, s, hi)| == |p| + |r|;
      var w := 2 * cfg.iRadY + 1;
      var m := hi - XLo(cfg, s);
      assert Max(0, hi - 1 - XLo(cfg, s) + 1) == m;
      assert |r| <= w;
      assert Max(0, hi - XLo(cfg, s) + 1) == m + 1;
      MulSucc(m, w);
    }
  }

  lemma MulSucc(m: int, w: int)
    ensures (m + 1) * w == m * w + w
  {
  }

  lemma {:induction false} VisitsComplete(cfg: RealConfig, s: Site, hi: int)
    ensures forall iax, iay :: XLo(cfg, s) <= iax <= hi && YLo(cfg, s) <= iay <= YHi(cfg, s) && Within(cfg, s, iax, iay) ==>
      (iax, iay) in Visits(cfg, s, hi)
    decreases hi - XLo(cfg, s)
  {
    if hi >= XLo(cfg, s) {
      VisitsComplete(cfg, s, hi - 1);
      RowVisitsFacts(cfg, s, hi, YHi(cfg, s));
      var p := Visits(cfg, s, hi - 1);
      var r := RowVisits(cfg, s, hi, YHi(cfg, s));
      var v := Visits(cfg, s, hi);
      assert v == p + r;
      forall iax, iay | XLo(cfg, s) <= iax <= hi && YLo(cfg, s) <= iay <= YHi(cfg, s) && Within(cfg, s, iax, iay)
        ensures (iax, iay) in v
      {
        if iax < hi {
          assert (iax, iay) in p;
        } else {
          assert (iax, iay) in r;
        }
      }
    }
  }


  /** The walk calls _AddAtomRealSpace at most (2 iRadX + 1)(2 iRadY + 1)
      times. */
  lemma CallCount(cfg: RealConfig, s: Site)
    requires ConfigOk(cfg)
    ensures |Walk(cfg, s)| <= (2 * cfg.iRadX + 1) * (2 * cfg.iRadY + 1)
  {
    VisitsFacts(cfg, s, XHi(cfg, s));
    var c := Max(0, XHi(cfg, s) - XLo(cfg, s) + 1);
    assert c <= 2 * cfg.iRadX + 1;
    CellLayout.MulMonotone(c, 2 * cfg.iRadX + 1, 2 * cfg.iRadY + 1);
  }

  /** Offsets are walked in increasing order, every one of them passes the
      radius filter and lies in the box, and every offset of the box (over
      the image, in the clipped mode) that passes the filter is walked. */
  lemma WalkIsTheFilteredBox(cfg: RealConfig, s: Site)
    requires ConfigOk(cfg)
    ensures var v := Walk(cfg, s);
      (forall k, l :: 0 <= k < l < |v| ==> Before(v[k], v[l])) &&
      (forall k :: 0 <= k < |v| ==>
        -cfg.iRadX <= v[k].0 <= cfg.iRadX && -cfg.iRadY <= v[k].1 <= cfg.iRadY && Within(cfg, s, v[k].0, v[k].1))
    ensures forall iax, iay :: XLo(cfg, s) <= iax <= XHi(cfg, s) && YLo(cfg, s) <= iay <= YHi(cfg, s) && Within(cfg, s, iax, iay) ==>
      (iax, iay) in Walk(cfg, s)
  {
    VisitsFacts(cfg, s, XHi(cfg, s));
  }

  /** In the clipped mode the walked offsets are exactly those whose pixel
      lies on the image. */
  lemma ClippedRangeIsOnImage(periodic: bool, iAtom: int, iRad: int, n: int, i: int)
    requires !periodic
    ensures Lo(periodic, iAtom, iRad) <= i <= Hi(periodic, iAtom, iRad, n) <==>
      (-iRad <= i <= iRad && 0 <= iAtom + i < n)
  {
  }

  /** Every call is for a pixel of the image and a corner within the atom
      radius; in the clipped mode the pixel is the atom's pixel plus the
      offset, unwrapped. */
  lemma CallsOnImage(cfg: RealConfig, s: Site, k: int)
    requires ConfigOk(cfg) && 0 <= k < |Walk(cfg, s)|
    requires 16 * cfg.nx + cfg.nx < TwoTo32 && 16 * cfg.ny + cfg.ny < TwoTo32
    ensures var c := CallsOf(cfg, s, Walk(cfg, s))[k];
      0 <= c.ix < cfg.nx && 0 <= c.iy < cfg.ny && Dist2(c.x, c.y) <= cfg.atomRadius2
    ensures var c := CallsOf(cfg, s, Walk(cfg, s))[k]; var v := Walk(cfg, s)[k];
      !cfg.periodicXY ==> c.ix == s.iAtomX + v.0 && c.iy == s.iAtomY + v.1
  {
    VisitsFacts(cfg, s, XHi(cfg, s));
    var v := Walk(cfg, s)[k];
    if !cfg.periodicXY {
      WrapIndexIsMod(s.iAtomX + v.0, cfg.nx);
      WrapIndexIsMod(s.iAtomY + v.1, cfg.ny);
      CellLayout.DigitsOf(s.iAtomX + v.0, cfg.nx, 0, s.iAtomX + v.0);
      CellLayout.DigitsOf(s.iAtomY + v.1, cfg.ny, 0, s.iAtomY + v.1);
    }
  }

  // ---------------------------------------------------------------- as written

  /** The columns the clipped mode walks as written. iAtomX is unsigned, so
      iax + iAtomX is unsigned too: the test for a negative column never
      fires, and a column left of the image wraps to a huge value that ends
      the loop. */
  function ClippedColumnsAsWritten(iAtomU: int, iRad: int, n: int, iax: int): seq<int>
    decreases iRad - iax + 1
  {
    if iax > iRad || U32(iax + iAtomU) >= n then []
    else [iax] + ClippedColumnsAsWritten(iAtomU, iRad, n, iax + 1)
  }

  /** As written, an atom closer to the left edge than its radius (iAtomX <
      iRadX) adds nothing at all in the clipped mode, while the intended
      walk covers the columns from the edge on. */
  lemma LeftEdgeAtomDroppedAsWritten(iAtom: int, iRad: int, n: int)
    requires 0 <= iAtom < iRad && iAtom < n < TwoTo32 - iRad
    ensures ClippedColumnsAsWritten(U32(iAtom), iRad, n, -iRad) == []
    ensures Lo(false, iAtom, iRad) == -iAtom <= Hi(false, iAtom, iRad, n)
  {
    assert U32(-iRad + iAtom) == -iRad + iAtom + TwoTo32;
  }

  /** The offset of a pixel corner as written: the column is the unsigned
      sum iAtomX + iax, converted to floating point. */
  function OffsetAsWritten(iAtomU: int, iax: int, d: real, a: real): real
  {
    U32(iAtomU + iax) as real * d - a
  }

  /** As written, a column left of the image (iAtomX + iax < 0) is placed
      2^32 columns to the right, so in the periodic mode its corner never
      passes the radius filter and the wrapped neighbours are lost. */
  lemma PeriodicLeftColumnsAsWritten(iAtom: int, iax: int, d: real, a: real)
    requires -TwoTo32 <= iAtom + iax < 0
    ensures OffsetAsWritten(U32(iAtom), iax, d, a) == Offset(iAtom + iax, d, a) + TwoTo32 as real * d
  {
    U32Add(iAtom, iax);
  }

  /** An atom at x = 0.5 on pixels of size 1 with radius 2: the column
      left of it is 1.5 away, but as written it is placed 2^32 - 1.5 away. */
  lemma PeriodicLeftNeighbourLostAsWritten()
    ensures Dist2(Offset(-1, 1.0, 0.5), 0.0) <= 4.0
    ensures Dist2(OffsetAsWritten(U32(0), -1, 1.0, 0.5), 0.0) > 4.0
  {
    PeriodicLeftColumnsAsWritten(0, -1, 1.0, 0.5);
    var x := OffsetAsWritten(U32(0), -1, 1.0, 0.5);
    assert x >= 2.0;
    assert x * x >= 2.0 * x;
  }
}
