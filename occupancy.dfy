// Coincident-site grouping and the cumulative-occupancy choice of
// CCrystal::ReplicateUnitCell (libs/crystal.cpp).
//
// Base atoms that sit on the same site (within 1e-6 on each axis) form a
// group.  ReplicateUnitCell scans the base list from the top down; the
// group headed by entry i is the run i, i-1, ..., e+1 of entries that
// coincide with entry i.  Per unit cell one random number picks which
// member survives: member t keeps its atomic number when the choice falls
// into its occupancy interval [lastOcc, lastOcc + occ), where lastOcc is
// the occupancy of the members above it; every other member becomes a
// vacancy (Znum = 0).

module Occupancy {
  import opened Numerics
  import opened Atoms

  /** Coordinates closer than this are the same site. */
  const SiteTolerance: real := 0.000001

  function Abs(v: real): real { if v < 0.0 then -v else v }

  predicate Coincident(a: Atom, b: Atom)
  {
    Abs(a.x - b.x) < SiteTolerance && Abs(a.y - b.y) < SiteTolerance && Abs(a.z - b.z) < SiteTolerance
  }

  /** The downward scan of the jequal loop: starting at j, walk down while
      entries coincide with entry i; the result is the first entry that does
      not, or -1. */
  function ScanDown(src: seq<Atom>, i: int, j: int): (e: int)
    requires -1 <= j < i < |src|
    ensures -1 <= e <= j
    ensures forall k :: e < k <= j ==> Coincident(src[i], src[k])
    ensures e >= 0 ==> !Coincident(src[i], src[e])
    decreases j + 1
  {
    if j < 0 || !Coincident(src[i], src[j]) then j else ScanDown(src, i, j - 1)
  }

  /** jequal after the grouping step for head i: the group is (e, i].
      Only with vacancy handling and a positive Znum does the scan run;
      otherwise the group is the single entry i. */
  function GroupEnd(src: seq<Atom>, i: int, handle: bool): (e: int)
    requires 0 <= i < |src|
    ensures -1 <= e < i
    ensures forall k :: e < k < i ==> Coincident(src[i], src[k])
    ensures !(handle && src[i].Znum > 0) ==> e == i - 1
    ensures handle && src[i].Znum > 0 && e >= 0 ==> !Coincident(src[i], src[e])
  {
    if handle && src[i].Znum > 0 then ScanDown(src, i, i - 1) else i - 1
  }

  /** Sum of the occupancies of entries lo .. hi-1. */
  function SumOcc(s: seq<Atom>, lo: int, hi: int): real
    requires 0 <= lo && hi <= |s|
    decreases hi - lo
  {
    if lo >= hi then 0.0 else s[lo].occ + SumOcc(s, lo + 1, hi)
  }

  /** totalOccupancy after the grouping step for head i. */
  function GroupOcc(src: seq<Atom>, i: int, handle: bool): (t: real)
    requires 0 <= i < |src|
    ensures !(handle && src[i].Znum > 0) ==> t == 1.0
    ensures handle && src[i].Znum > 0 ==> t == SumOcc(src, GroupEnd(src, i, handle) + 1, i + 1)
  {
    if handle && src[i].Znum > 0 then SumOcc(src, GroupEnd(src, i, handle) + 1, i + 1) else 1.0
  }

  /** Whether a random choice is needed for the group headed by i. */
  predicate NeedsChoice(total: real, e: int, i: int)
  {
    total < 1.0 || e < i - 1
  }

  /** The choice drawn from a uniform deviate r in (0, 1): r itself for a
      total occupancy below one, r scaled by the total otherwise. */
  function ScaledChoice(total: real, r: real): real
  {
    if total < 1.0 then r else total * r
  }

  lemma PositiveProduct(a: real, b: real)
    requires a > 0.0 && b > 0.0
    ensures a * b > 0.0
  {
  }

  /** For a full group the scaled choice lands inside [0, total), so some
      member survives; below full occupancy it may land beyond the total and
      the site stays empty. */
  lemma ScaledChoiceRange(total: real, r: real)
    requires 0.0 <= r < 1.0
    ensures total >= 1.0 ==> 0.0 <= ScaledChoice(total, r) < total
    ensures total < 1.0 ==> ScaledChoice(total, r) == r
  {
    if total >= 1.0 {
      PositiveProduct(total, 1.0 - r);
      assert total * (1.0 - r) == total - total * r;
      if r > 0.0 {
        PositiveProduct(total, r);
      }
    }
  }

  /** Member t of the group headed by h survives the choice: the choice lies
      in [lastOcc, lastOcc + occ(t)), lastOcc being the occupancy of the
      members t+1 .. h visited before it. */
  predicate Kept(base: seq<Atom>, h: int, t: int, choice: real)
    requires 0 <= t <= h < |base|
  {
    var lastOcc := SumOcc(base, t + 1, h + 1);
    lastOcc <= choice < lastOcc + base[t].occ
  }

  /** jChoice after walking the members h, h-1, ..., lo: the last member met
      that survives, which is the lowest surviving index, or h if none. */
  function Chosen(base: seq<Atom>, h: int, lo: int, choice: real): (j: int)
    requires 0 <= lo && h < |base|
    ensures lo <= j <= h || j == h
    ensures j != h ==> lo <= j && Kept(base, h, j, choice)
    decreases h - lo
  {
    if lo > h then h
    else if Kept(base, h, lo, choice) then lo
    else Chosen(base, h, lo + 1, choice)
  }

  /** Vacancies produced while walking the members h, h-1, ..., lo. */
  function VacCount(base: seq<Atom>, h: int, lo: int, choice: real): (n: nat)
    requires 0 <= lo && h < |base|
    ensures n <= if lo > h then 0 else h - lo + 1
    decreases h - lo
  {
    if lo > h then 0
    else (if Kept(base, h, lo, choice) then 0 else 1) + VacCount(base, h, lo + 1, choice)
  }

  predicate NonNegativeOcc(base: seq<Atom>, lo: int, hi: int)
    requires 0 <= lo && hi <= |base|
  {
    forall t :: lo <= t < hi ==> base[t].occ >= 0.0
  }

  lemma {:induction false} SumOccMonotone(base: seq<Atom>, a: int, b: int, hi: int)
    requires 0 <= a <= b <= hi <= |base|
    requires NonNegativeOcc(base, a, hi)
    ensures SumOcc(base, a, hi) >= SumOcc(base, b, hi)
    decreases b - a
  {
    if a < b {
      SumOccMonotone(base, a + 1, b, hi);
    }
  }

  /** A member below a surviving one cannot survive too: its interval
      starts where the survivor's ends or above. */
  lemma {:induction false} KeptBlocksBelow(base: seq<Atom>, h: int, t1: int, t2: int, choice: real)
    requires 0 <= t1 <= t2 <= h < |base|
    requires NonNegativeOcc(base, t1, h + 1)
    ensures t1 < t2 && Kept(base, h, t2, choice) ==> !Kept(base, h, t1, choice)
  {
    if t1 < t2 {
      SumOccMonotone(base, t1 + 1, t2, h + 1);
      assert SumOcc(base, t2, h + 1) == base[t2].occ + SumOcc(base, t2 + 1, h + 1);
    }
  }

  /** At most one member survives a choice: the occupancy intervals of
      distinct members are disjoint. */
  lemma KeptUnique(base: seq<Atom>, h: int, t1: int, t2: int, choice: real)
    requires 0 <= t1 <= t2 <= h < |base|
    requires NonNegativeOcc(base, t1, h + 1)
    requires Kept(base, h, t1, choice) && Kept(base, h, t2, choice)
    ensures t1 == t2
  {
    KeptBlocksBelow(base, h, t1, t2, choice);
  }

  /** Walking down from t, some member at or below t (and above e) survives
      whenever the choice is at least the occupancy above t but below the
      group total. */
  lemma {:induction false} KeptExistsFrom(base: seq<Atom>, h: int, e: int, t: int, choice: real)
    requires -1 <= e < t <= h < |base|
    requires SumOcc(base, t + 1, h + 1) <= choice < SumOcc(base, e + 1, h + 1)
    ensures exists k :: e < k <= t && Kept(base, h, k, choice)
    decreases t - e
  {
    if !Kept(base, h, t, choice) {
      assert SumOcc(base, t, h + 1) == base[t].occ + SumOcc(base, t + 1, h + 1);
      KeptExistsFrom(base, h, e, t - 1, choice);
    }
  }

  lemma {:induction false} ChosenIsLowestKept(base: seq<Atom>, h: int, lo: int, k: int, choice: real)
    requires 0 <= lo <= k <= h < |base|
    requires Kept(base, h, k, choice)
    requires forall t :: lo <= t < k ==> !Kept(base, h, t, choice)
    ensures Chosen(base, h, lo, choice) == k
    decreases k - lo
  {
    if lo < k {
      ChosenIsLowestKept(base, h, lo + 1, k, choice);
    }
  }

  lemma {:induction false} VacCountNoneKept(base: seq<Atom>, h: int, lo: int, choice: real)
    requires 0 <= lo && h < |base|
    requires forall t :: lo <= t <= h ==> !Kept(base, h, t, choice)
    ensures VacCount(base, h, lo, choice) == if lo > h then 0 else h - lo + 1
    ensures Chosen(base, h, lo, choice) == h
    decreases h - lo
  {
    if lo <= h {
      VacCountNoneKept(base, h, lo + 1, choice);
    }
  }

  lemma {:induction false} VacCountOneKept(base: seq<Atom>, h: int, lo: int, k: int, choice: real)
    requires 0 <= lo <= k <= h < |base|
    requires Kept(base, h, k, choice)
    requires forall t :: lo <= t <= h && t != k ==> !Kept(base, h, t, choice)
    ensures VacCount(base, h, lo, choice) == h - lo
    decreases h - lo
  {
    if lo < k {
      VacCountOneKept(base, h, lo + 1, k, choice);
    } else {
      VacCountNoneKept(base, h, lo + 1, choice);
    }
  }

  /** The occupancy intervals of the group (e, h] partition [0, total):
      a choice in that range is kept by exactly one member, jChoice names
      it, and the other h - e - 1 members become vacancies. */
  lemma {:induction false} ExactlyOneSurvives(base: seq<Atom>, h: int, e: int, choice: real)
    requires -1 <= e < h < |base|
    requires NonNegativeOcc(base, e + 1, h + 1)
    requires 0.0 <= choice < SumOcc(base, e + 1, h + 1)
    ensures e < Chosen(base, h, e + 1, choice) <= h
    ensures Kept(base, h, Chosen(base, h, e + 1, choice), choice)
    ensures forall t :: e < t <= h && Kept(base, h, t, choice) ==> t == Chosen(base, h, e + 1, choice)
    ensures VacCount(base, h, e + 1, choice) == h - e - 1
  {
    assert SumOcc(base, h + 1, h + 1) == 0.0;
    KeptExistsFrom(base, h, e, h, choice);
    var k :| e < k <= h && Kept(base, h, k, choice);
    forall t | e < t <= h && Kept(base, h, t, choice)
      ensures t == k
    {
      if t <= k { KeptUnique(base, h, t, k, choice); } else { KeptUnique(base, h, k, t, choice); }
    }
    ChosenIsLowestKept(base, h, e + 1, k, choice);
    VacCountOneKept(base, h, e + 1, k, choice);
  }

  /** A choice at or beyond the group total (possible only when the total is
      below one) is kept by nobody: every member becomes a vacancy and
      jChoice stays at the head. */
  lemma {:induction false} AllVacant(base: seq<Atom>, h: int, e: int, choice: real)
    requires -1 <= e < h < |base|
    requires NonNegativeOcc(base, e + 1, h + 1)
    requires choice >= SumOcc(base, e + 1, h + 1)
    ensures forall t :: e < t <= h ==> !Kept(base, h, t, choice)
    ensures VacCount(base, h, e + 1, choice) == h - e
    ensures Chosen(base, h, e + 1, choice) == h
  {
    forall t | e < t <= h
      ensures !Kept(base, h, t, choice)
    {
      SumOccMonotone(base, e + 1, t, h + 1);
      assert SumOcc(base, t, h + 1) == base[t].occ + SumOcc(base, t + 1, h + 1);
    }
    VacCountNoneKept(base, h, e + 1, choice);
  }

  // ------------------------------------------------------------------
  // The forward variant of CCrystal::TiltBoxed: groups are scanned up from
  // their first entry, and the member walk goes upwards.

  /** The upward scan: starting at j, walk up while entries coincide with
      entry i; the result is the first entry that does not, or |src|. */
  function ScanUp(src: seq<Atom>, i: int, j: int): (e: int)
    requires 0 <= i < j <= |src|
    ensures j <= e <= |src|
    ensures forall k :: j <= k < e ==> Coincident(src[i], src[k])
    ensures e < |src| ==> !Coincident(src[i], src[e])
    decreases |src| - j
  {
    if j == |src| || !Coincident(src[i], src[j]) then j else ScanUp(src, i, j + 1)
  }

  /** jequal after the forward grouping step for the entry i: the group is
      [i, e). */
  function GroupEndFwd(src: seq<Atom>, i: int, handle: bool): (e: int)
    requires 0 <= i < |src|
    ensures i < e <= |src|
    ensures forall k :: i < k < e ==> Coincident(src[i], src[k])
    ensures !(handle && src[i].Znum > 0) ==> e == i + 1
    ensures handle && src[i].Znum > 0 && e < |src| ==> !Coincident(src[i], src[e])
  {
    if handle && src[i].Znum > 0 then ScanUp(src, i, i + 1) else i + 1
  }

  /** totOcc after the forward grouping step. */
  function GroupOccFwd(src: seq<Atom>, i: int, handle: bool): (t: real)
    requires 0 <= i < |src|
    ensures !(handle && src[i].Znum > 0) ==> t == 1.0
    ensures handle && src[i].Znum > 0 ==> t == SumOcc(src, i, GroupEndFwd(src, i, handle))
  {
    if handle && src[i].Znum > 0 then SumOcc(src, i, GroupEndFwd(src, i, handle)) else 1.0
  }

  /** Member t of the group starting at lo survives the forward walk: the
      choice lies in [lastOcc, lastOcc + occ(t)), lastOcc being the
      occupancy of the members lo .. t-1 below it. */
  predicate KeptFwd(base: seq<Atom>, lo: int, t: int, choice: real)
    requires 0 <= lo <= t < |base|
  {
    var lastOcc := SumOcc(base, lo, t);
    lastOcc <= choice < lastOcc + base[t].occ
  }

  /** jChoice after walking the members lo, lo+1, ..., hi-1: the last
      member met that survives, which is the highest one, or lo if none. */
  function ChosenFwd(base: seq<Atom>, lo: int, hi: int, choice: real): (j: int)
    requires 0 <= lo <= hi <= |base|
    ensures lo <= j && (j < hi || j == lo)
    ensures j != lo ==> KeptFwd(base, lo, j, choice)
    decreases hi - lo
  {
    if hi == lo then lo
    else if KeptFwd(base, lo, hi - 1, choice) then hi - 1
    else ChosenFwd(base, lo, hi - 1, choice)
  }

  lemma {:induction false} SumOccSplit(base: seq<Atom>, lo: int, mid: int, hi: int)
    requires 0 <= lo <= mid <= hi <= |base|
    ensures SumOcc(base, lo, hi) == SumOcc(base, lo, mid) + SumOcc(base, mid, hi)
    decreases mid - lo
  {
    if lo < mid {
      SumOccSplit(base, lo + 1, mid, hi);
    }
  }

  /** The forward intervals are disjoint too: a member above a survivor
      cannot survive. */
  lemma KeptFwdBlocksAbove(base: seq<Atom>, lo: int, t1: int, t2: int, choice: real)
    requires 0 <= lo <= t1 <= t2 < |base|
    requires NonNegativeOcc(base, lo, t2 + 1)
    ensures t1 < t2 && KeptFwd(base, lo, t1, choice) ==> !KeptFwd(base, lo, t2, choice)
  {
    if t1 < t2 {
      SumOccSplit(base, lo, t1 + 1, t2);
      SumOccSplit(base, lo, t1, t1 + 1);
      SumOccMonotone(base, t1 + 1, t2, t2);
      assert SumOcc(base, t2, t2) == 0.0;
    }
  }

  /** Walking up to t, some member of [lo, t) survives whenever the choice
      lies below the occupancy of [lo, t). */
  lemma {:induction false} KeptFwdExistsBelow(base: seq<Atom>, lo: int, t: int, choice: real)
    requires 0 <= lo < t <= |base|
    requires 0.0 <= choice < SumOcc(base, lo, t)
    ensures exists k :: lo <= k < t && KeptFwd(base, lo, k, choice)
    decreases t - lo
  {
    SumOccSplit(base, lo, t - 1, t);
    assert SumOcc(base, t - 1, t) == base[t - 1].occ;
    if !KeptFwd(base, lo, t - 1, choice) {
      assert choice < SumOcc(base, lo, t - 1);
      KeptFwdExistsBelow(base, lo, t - 1, choice);
    }
  }

  /** In TiltBoxed a choice inside [0, totOcc) is kept by exactly one
      member of the group [lo, hi), and jChoice names it. */
  lemma {:induction false} ExactlyOneSurvivesFwd(base: seq<Atom>, lo: int, hi: int, choice: real)
    requires 0 <= lo < hi <= |base|
    requires NonNegativeOcc(base, lo, hi)
    requires 0.0 <= choice < SumOcc(base, lo, hi)
    ensures KeptFwd(base, lo, ChosenFwd(base, lo, hi, choice), choice)
    ensures forall t :: lo <= t < hi && KeptFwd(base, lo, t, choice) ==> t == ChosenFwd(base, lo, hi, choice)
  {
    KeptFwdExistsBelow(base, lo, hi, choice);
    var k :| lo <= k < hi && KeptFwd(base, lo, k, choice);
    forall t | lo <= t < hi && KeptFwd(base, lo, t, choice)
      ensures t == k
    {
      if t <= k { KeptFwdBlocksAbove(base, lo, t, k, choice); } else { KeptFwdBlocksAbove(base, lo, k, t, choice); }
    }
    ChosenFwdIsHighestKept(base, lo, hi, k, choice);
  }

  lemma {:induction false} ChosenFwdIsHighestKept(base: seq<Atom>, lo: int, hi: int, k: int, choice: real)
    requires 0 <= lo <= k < hi <= |base|
    requires KeptFwd(base, lo, k, choice)
    requires forall t :: k < t < hi ==> !KeptFwd(base, lo, t, choice)
    ensures ChosenFwd(base, lo, hi, choice) == k
    decreases hi - lo
  {
    if hi - 1 > k {
      ChosenFwdIsHighestKept(base, lo, hi - 1, k, choice);
    }
  }
}
