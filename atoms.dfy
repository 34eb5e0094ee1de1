// The atom record of the crystal builder and the two qsort comparators
// of libs/crystal.cpp.

module Atoms {

  /** One atom: position (fractional or cartesian, depending on the stage),
      Debye-Waller factor, occupancy, charge and atomic number. */
  datatype Atom = Atom(x: real, y: real, z: real, dw: real, occ: real, q: real, Znum: int)

  /** Three-way comparison of two coordinates, ascending. */
  function CompareCoord(a: real, b: real): (c: int)
    ensures c == 0 <==> a == b
    ensures c == 1 <==> a > b
    ensures c == -1 <==> a < b
  {
    if a == b then 0 else if a > b then 1 else -1
  }

  /** AtomCompareZnum: heavier atoms sort first. */
  function CompareZnum(a: Atom, b: Atom): (c: int)
    ensures c == 0 <==> a.Znum == b.Znum
    ensures c == -1 <==> a.Znum > b.Znum
    ensures c == 1 <==> a.Znum < b.Znum
  {
    if a.Znum == b.Znum then 0 else if a.Znum > b.Znum then -1 else 1
  }

  /** The (z, y, x) key in ascending lexicographic order: the reference
      definition the comparator AtomCompareZYX is checked against. */
  predicate KeyBelow(a: Atom, b: Atom)
  {
    a.z < b.z || (a.z == b.z && (a.y < b.y || (a.y == b.y && a.x < b.x)))
  }

  predicate SameKey(a: Atom, b: Atom)
  {
    a.z == b.z && a.y == b.y && a.x == b.x
  }

  /** AtomCompareZYX: compare z, then y on a tie, then x on a tie. */
  function CompareZYX(a: Atom, b: Atom): (c: int)
    ensures c == 0 <==> SameKey(a, b)
    ensures c == -1 <==> KeyBelow(a, b)
    ensures c == 1 <==> KeyBelow(b, a)
  {
    var cz := CompareCoord(a.z, b.z);
    if cz != 0 then cz
    else
      var cy := CompareCoord(a.y, b.y);
      if cy != 0 then cy else CompareCoord(a.x, b.x)
  }

  /** Both comparators are antisymmetric, as qsort requires. */
  lemma CompareAntisymmetric(a: Atom, b: Atom)
    ensures CompareZYX(a, b) == -CompareZYX(b, a)
    ensures CompareZnum(a, b) == -CompareZnum(b, a)
  {
  }

  /** Both comparators are transitive, so they are total preorders. */
  lemma CompareTransitive(a: Atom, b: Atom, c: Atom)
    ensures CompareZYX(a, b) <= 0 && CompareZYX(b, c) <= 0 ==> CompareZYX(a, c) <= 0
    ensures CompareZnum(a, b) <= 0 && CompareZnum(b, c) <= 0 ==> CompareZnum(a, c) <= 0
  {
  }

  /** A sequence in the order qsort with AtomCompareZYX leaves it in. */
  predicate SortedZYX(s: seq<Atom>)
  {
    forall i, j :: 0 <= i < j < |s| ==> CompareZYX(s[i], s[j]) <= 0
  }

  /** In a (z, y, x)-sorted sequence, atoms with the same key are contiguous. */
  lemma {:induction false} SortedKeepsEqualKeysTogether(s: seq<Atom>, i: int, j: int, k: int)
    requires SortedZYX(s)
    requires 0 <= i < k < j < |s| && SameKey(s[i], s[j])
    ensures SameKey(s[i], s[k])
  {
    assert CompareZYX(s[i], s[k]) <= 0;
    assert CompareZYX(s[k], s[j]) <= 0;
  }
}
