// The adjustment of the tail of the scattering-factor table made by
// SliceSetup (libs/potentials/pot_3d_fft.cpp and pot_2d_fft.cpp): row 0 of
// scatPar holds the k grid of the spline, rows 1 .. N_ELEM-1 the factors of
// each element.  The last three grid points are pinned to kmax, 1.1 kmax and
// 1.2 kmax; if the grid ran past kmax, the entries before them are walked
// backwards and lowered onto kmax - 0.001 (ix + 1), their factors zeroed,
// until an entry is already below that value.

module ScatteringTail {

  /** The value the ix-th entry before the pinned three is lowered to. */
  function Target(kmax: real, ix: int): real
  {
    kmax - 0.001 * ((ix + 1) as real)
  }

  /** The walk index at which the backward walk from ix stops: the first
      entry already below its target, or the walk's bound nsf - 10. */
  function WalkEnd(row: seq<real>, kmax: real, ix: nat): (n: nat)
    requires |row| >= 10 && ix <= |row| - 10
    ensures ix <= n <= |row| - 10
    decreases |row| - 10 - ix
  {
    if ix == |row| - 10 || row[|row| - 4 - ix] < Target(kmax, ix) then ix
    else WalkEnd(row, kmax, ix + 1)
  }

  /** How many entries the adjustment lowers: none unless entry nsf-4 lies
      beyond kmax. */
  function Stop(row: seq<real>, kmax: real): (n: nat)
    requires |row| >= 10
    ensures n <= |row| - 10
  {
    if row[|row| - 4] > kmax then WalkEnd(row, kmax, 0) else 0
  }

  /** Column j is one of the lowered entries. */
  predicate Walked(nsf: int, stop: int, j: int)
  {
    nsf - 4 - stop < j <= nsf - 4
  }

  /** The new value at (r, j), given the old grid row and the old value v. */
  function Clamped(row: seq<real>, kmax: real, r: int, j: int, v: real): real
    requires |row| >= 10
  {
    var nsf := |row|;
    var stop := Stop(row, kmax);
    if r == 0 then
      if j == nsf - 1 then 1.2 * kmax
      else if j == nsf - 2 then 1.1 * kmax
      else if j == nsf - 3 then kmax
      else if Walked(nsf, stop, j) then Target(kmax, nsf - 4 - j)
      else v
    else if Walked(nsf, stop, j) then 0.0
    else v
  }

  /** Row 0 of a grid as a sequence. */
  function Row0(scat: array2<real>): (row: seq<real>)
    reads scat
    ensures |row| == scat.Length1
    ensures forall j :: 0 <= j < scat.Length1 ==> row[j] == scat[0, j]
    requires scat.Length0 > 0
  {
    seq(scat.Length1, j requires 0 <= j < scat.Length1 reads scat => scat[0, j])
  }

  /** Every entry the walk passes before it stops is not below its target. */
  lemma {:induction false} WalkEndPassed(row: seq<real>, kmax: real, ix: nat, k: int)
    requires |row| >= 10 && ix <= |row| - 10
    requires ix <= k < WalkEnd(row, kmax, ix)
    ensures row[|row| - 4 - k] >= Target(kmax, k)
    decreases |row| - 10 - ix
  {
    if k > ix {
      WalkEndPassed(row, kmax, ix + 1, k);
    }
  }

  /** The walk stops on an entry below its target, unless it ran to its
      bound. */
  lemma {:induction false} WalkEndStops(row: seq<real>, kmax: real, ix: nat)
    requires |row| >= 10 && ix <= |row| - 10
    ensures var n := WalkEnd(row, kmax, ix);
      n == |row| - 10 || row[|row| - 4 - n] < Target(kmax, n)
    decreases |row| - 10 - ix
  {
    if !(ix == |row| - 10 || row[|row| - 4 - ix] < Target(kmax, ix)) {
      WalkEndStops(row, kmax, ix + 1);
    }
  }

  /** The adjustment only lowers grid points: each rewritten entry was at
      or above the value it gets. */
  lemma ClampLowers(row: seq<real>, kmax: real, j: int)
    requires |row| >= 10 && 0 <= j < |row| && Walked(|row|, Stop(row, kmax), j)
    ensures Clamped(row, kmax, 0, j, row[j]) <= row[j]
  {
    if row[|row| - 4] > kmax {
      WalkEndPassed(row, kmax, 0, |row| - 4 - j);
    }
  }

  /** Without a grid point past kmax at nsf-4, only the three pinned grid
      points change and no factor changes. */
  lemma NoOvershootNoWalk(row: seq<real>, kmax: real, r: int, j: int, v: real)
    requires |row| >= 10 && row[|row| - 4] <= kmax && j < |row| - 3
    ensures Clamped(row, kmax, r, j, v) == v
  {
  }

  /** For a positive kmax, the adjusted grid is strictly increasing from the
      first lowered entry to the end; when the walk stopped on a lower entry,
      that entry continues the increase. */
  lemma TailIncreasing(row: seq<real>, kmax: real, i: int, j: int)
    requires |row| >= 10 && kmax > 0.0
    requires |row| - 4 - Stop(row, kmax) < i < j < |row|
    ensures Clamped(row, kmax, 0, i, row[i]) < Clamped(row, kmax, 0, j, row[j])
  {
  }

  lemma WalkStopsBelow(row: seq<real>, kmax: real)
    requires |row| >= 10 && row[|row| - 4] > kmax && Stop(row, kmax) < |row| - 10
    ensures var i := |row| - 4 - Stop(row, kmax);
      Clamped(row, kmax, 0, i, row[i]) < Clamped(row, kmax, 0, i + 1, row[i + 1])
  {
    WalkEndStops(row, kmax, 0);
  }

  /** The adjustment of SliceSetup, in place on scatPar (nelem rows of nsf
      grid points); returns the walk index it stopped at. */
  method ClampTail(scat: array2<real>, kmax: real) returns (stop: int)
    requires scat.Length0 >= 1 && scat.Length1 >= 10
    modifies scat
    ensures stop == Stop(old(Row0(scat)), kmax)
    ensures forall r, j :: 0 <= r < scat.Length0 && 0 <= j < scat.Length1 ==>
      scat[r, j] == Clamped(old(Row0(scat)), kmax, r, j, old(scat[r, j]))
  {
    ghost var row := Row0(scat);
    var nsf := scat.Length1;
    scat[0, nsf - 1] := 1.2 * kmax;
    scat[0, nsf - 2] := 1.1 * kmax;
    scat[0, nsf - 3] := kmax;
    stop := 0;
    if scat[0, nsf - 4] > scat[0, nsf - 3] {
      stop := LowerTail(scat, kmax, row);
    }
  }

  /** The backward walk of the adjustment, once the last three grid points
      are pinned and entry nsf-4 lies beyond kmax: lowers the entries it
      passes and zeroes their factors. */
  method LowerTail(scat: array2<real>, kmax: real, ghost row: seq<real>) returns (ix: int)
    requires scat.Length0 >= 1 && scat.Length1 >= 10 && |row| == scat.Length1
    requires scat[0, scat.Length1 - 3] == kmax
    requires forall j :: 0 <= j < scat.Length1 - 3 ==> scat[0, j] == row[j]
    modifies scat
    ensures ix == WalkEnd(row, kmax, 0)
    ensures forall r, j :: 0 <= r < scat.Length0 && 0 <= j < scat.Length1 ==>
      scat[r, j] == (if Walked(scat.Length1, ix, j) then (if r == 0 then Target(kmax, scat.Length1 - 4 - j) else 0.0)
                     else old(scat[r, j]))
  {
    var nsf := scat.Length1;
    ix := 0;
    while ix < nsf - 10
      invariant 0 <= ix <= nsf - 10 && WalkEnd(row, kmax, ix) == WalkEnd(row, kmax, 0)
      invariant forall r, j :: 0 <= r < scat.Length0 && 0 <= j < nsf ==>
        scat[r, j] == (if Walked(nsf, ix, j) then (if r == 0 then Target(kmax, nsf - 4 - j) else 0.0)
                       else old(scat[r, j]))
    {
      if scat[0, nsf - 4 - ix] < scat[0, nsf - 3] - 0.001 * ((ix + 1) as real) {
        break;
      }
      scat[0, nsf - 4 - ix] := scat[0, nsf - 3] - 0.001 * ((ix + 1) as real);
      ZeroFactors(scat, nsf - 4 - ix);
      ix := ix + 1;
    }
  }

  /** Zeroes column j of every element row (rows 1 and up). */
  method ZeroFactors(scat: array2<real>, j: int)
    requires 0 <= j < scat.Length1
    modifies scat
    ensures forall r, c :: 0 <= r < scat.Length0 && 0 <= c < scat.Length1 ==>
      scat[r, c] == (if r >= 1 && c == j then 0.0 else old(scat[r, c]))
  {
    var iy := 1;
    while iy < scat.Length0
      invariant 1 <= iy <= scat.Length0 || scat.Length0 == 0
      invariant forall r, c :: 0 <= r < scat.Length0 && 0 <= c < scat.Length1 ==>
        scat[r, c] == (if 1 <= r < iy && c == j then 0.0 else old(scat[r, c]))
    {
      scat[iy, j] := 0.0;
      iy := iy + 1;
    }
  }
}
