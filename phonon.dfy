// The binary phonon file read by CCrystal::PhononDisplacement
// (libs/crystal.cpp) and the conversion of its eigenfrequencies into
// displacement amplitudes.
//
// The file is a stream of 32-bit words: Nk and Ns as 32-bit integers, the
// Ns masses, then per k-point its three coordinates followed by 3*Ns
// branches, each one eigenfrequency omega and 3*Ns complex eigenvector
// components (two words each).  Floating-point words are kept as their
// bit patterns; only the amplitude step interprets them.

module PhononFile {
  import opened Numerics

  const TwoTo31: int := 0x8000_0000

  /** A 32-bit word of the file, as its unsigned value. */
  newtype Word = x: int | 0 <= x < 0x1_0000_0000

  /** A 32-bit word read as a two's-complement `int`. */
  function Int32Of(w: Word): (i: int)
    ensures -TwoTo31 <= i < TwoTo31
    ensures i >= 0 <==> w < 0x8000_0000
  {
    if w < 0x8000_0000 then w as int else w as int - TwoTo32
  }

  /** The word an `int` in the 32-bit range is stored as. */
  function WordOf(i: int): Word
    requires -TwoTo31 <= i < TwoTo31
  {
    if i >= 0 then i as Word else (i + TwoTo32) as Word
  }

  lemma Int32RoundTrip(i: int, w: Word)
    requires -TwoTo31 <= i < TwoTo31
    ensures Int32Of(WordOf(i)) == i
    ensures WordOf(Int32Of(w)) == w
  {
  }

  /** One branch: its eigenfrequency and its 3*Ns complex components as
      6*Ns words (real part, imaginary part). */
  datatype Branch = Branch(omega: Word, eig: seq<Word>)

  /** One k-point: three coordinates and 3*Ns branches. */
  datatype KPoint = KPoint(k: seq<Word>, branches: seq<Branch>)

  datatype Table = Table(nk: int, ns: int, masses: seq<Word>, kpoints: seq<KPoint>)

  predicate BranchOk(b: Branch, ns: int)
  {
    |b.eig| == 6 * ns
  }

  predicate KPointOk(p: KPoint, ns: int)
  {
    |p.k| == 3 && |p.branches| == 3 * ns && forall l :: 0 <= l < |p.branches| ==> BranchOk(p.branches[l], ns)
  }

  /** The shape the reader gives a table: non-negative counts that fit the
      32-bit header, Ns masses, Nk k-points of 3*Ns branches each. */
  predicate WellFormed(t: Table)
  {
    0 <= t.nk < TwoTo31 && 0 <= t.ns < TwoTo31 && |t.masses| == t.ns && |t.kpoints| == t.nk &&
    forall i :: 0 <= i < |t.kpoints| ==> KPointOk(t.kpoints[i], t.ns)
  }

  /** The number of words of a file with Nk k-points and Ns species. */
  function WordCount(nk: int, ns: int): int
  {
    2 + ns + nk * (3 + 3 * ns * (1 + 6 * ns))
  }

  // ---------------------------------------------------------------- writing

  function EncodeBranch(b: Branch): seq<Word>
  {
    [b.omega] + b.eig
  }

  function EncodeBranches(bs: seq<Branch>): seq<Word>
  {
    if bs == [] then [] else EncodeBranch(bs[0]) + EncodeBranches(bs[1..])
  }

  function EncodeKPoint(p: KPoint): seq<Word>
  {
    p.k + EncodeBranches(p.branches)
  }

  function EncodeKPoints(ps: seq<KPoint>): seq<Word>
  {
    if ps == [] then [] else EncodeKPoint(ps[0]) + EncodeKPoints(ps[1..])
  }

  /** The file a table is stored as. */
  function Encode(t: Table): seq<Word>
    requires WellFormed(t)
  {
    [WordOf(t.nk), WordOf(t.ns)] + t.masses + EncodeKPoints(t.kpoints)
  }

  // ---------------------------------------------------------------- reading

  /** A value read from the front of a word stream and the words left. */
  datatype Parsed<T> = Parsed(value: T, rest: seq<Word>)

  /** fread of n words: None when fewer are left. */
  function Take(w: seq<Word>, n: int): (r: Option<Parsed<seq<Word>>>)
    requires n >= 0
    ensures r.Some? <==> n <= |w|
    ensures r.Some? ==> r.value.value + r.value.rest == w && |r.value.value| == n
  {
    if n <= |w| then Some(Parsed(w[..n], w[n..])) else None
  }

  /** One omega word followed by 3*Ns complex components. */
  function ReadBranch(w: seq<Word>, ns: int): Option<Parsed<Branch>>
    requires ns >= 0
  {
    if |w| < 1 then None
    else match Take(w[1..], 6 * ns)
      case None => None
      case Some(e) => Some(Parsed(Branch(w[0], e.value), e.rest))
  }

  function ReadBranches(w: seq<Word>, n: nat, ns: int): Option<Parsed<seq<Branch>>>
    requires ns >= 0
    decreases n
  {
    if n == 0 then Some(Parsed([], w))
    else match ReadBranch(w, ns)
      case None => None
      case Some(b) =>
        match ReadBranches(b.rest, n - 1, ns)
        case None => None
        case Some(bs) => Some(Parsed([b.value] + bs.value, bs.rest))
  }

  function ReadKPoint(w: seq<Word>, ns: int): Option<Parsed<KPoint>>
    requires ns >= 0
  {
    match Take(w, 3)
    case None => None
    case Some(k) =>
      match ReadBranches(k.rest, 3 * ns, ns)
      case None => None
      case Some(bs) => Some(Parsed(KPoint(k.value, bs.value), bs.rest))
  }

  function ReadKPoints(w: seq<Word>, n: nat, ns: int): Option<Parsed<seq<KPoint>>>
    requires ns >= 0
    decreases n
  {
    if n == 0 then Some(Parsed([], w))
    else match ReadKPoint(w, ns)
      case None => None
      case Some(p) =>
        match ReadKPoints(p.rest, n - 1, ns)
        case None => None
        case Some(ps) => Some(Parsed([p.value] + ps.value, ps.rest))
  }

  /** The table a word stream holds: Nk and Ns, the masses, the k-points.
      A stream too short for its header's counts, or with a negative count,
      holds no table. */
  function Decode(w: seq<Word>): Option<Table>
  {
    if |w| < 2 then None
    else
      var nk, ns := Int32Of(w[0]), Int32Of(w[1]);
      if nk < 0 || ns < 0 then None
      else match Take(w[2..], ns)
        case None => None
        case Some(m) =>
          match ReadKPoints(m.rest, nk, ns)
          case None => None
          case Some(ps) => Some(Table(nk, ns, m.value, ps.value))
  }

  // ---------------------------------------------------------------- round trips

  lemma BranchRoundTrip(b: Branch, ns: int, rest: seq<Word>)
    requires ns >= 0 && BranchOk(b, ns)
    ensures ReadBranch(EncodeBranch(b) + rest, ns) == Some(Parsed(b, rest))
  {
    var w := EncodeBranch(b) + rest;
    assert w[1..] == b.eig + rest;
  }

  lemma {:induction false} BranchesRoundTrip(bs: seq<Branch>, ns: int, rest: seq<Word>)
    requires ns >= 0 && forall l :: 0 <= l < |bs| ==> BranchOk(bs[l], ns)
    ensures ReadBranches(EncodeBranches(bs) + rest, |bs|, ns) == Some(Parsed(bs, rest))
    decreases |bs|
  {
    if bs == [] {
      assert EncodeBranches(bs) + rest == rest;
    } else {
      var tail := EncodeBranches(bs[1..]) + rest;
      assert EncodeBranches(bs) + rest == EncodeBranch(bs[0]) + tail;
      BranchRoundTrip(bs[0], ns, tail);
      BranchesRoundTrip(bs[1..], ns, rest);
      assert [bs[0]] + bs[1..] == bs;
    }
  }

  lemma KPointRoundTrip(p: KPoint, ns: int, rest: seq<Word>)
    requires ns >= 0 && KPointOk(p, ns)
    ensures ReadKPoint(EncodeKPoint(p) + rest, ns) == Some(Parsed(p, rest))
  {
    var w := EncodeKPoint(p) + rest;
    assert w == p.k + (EncodeBranches(p.branches) + rest);
    assert Take(w, 3) == Some(Parsed(p.k, EncodeBranches(p.branches) + rest));
    BranchesRoundTrip(p.branches, ns, rest);
  }

  lemma {:induction false} KPointsRoundTrip(ps: seq<KPoint>, ns: int, rest: seq<Word>)
    requires ns >= 0 && forall i :: 0 <= i < |ps| ==> KPointOk(ps[i], ns)
    ensures ReadKPoints(EncodeKPoints(ps) + rest, |ps|, ns) == Some(Parsed(ps, rest))
    decreases |ps|
  {
    if ps == [] {
      assert EncodeKPoints(ps) + rest == rest;
    } else {
      var tail := EncodeKPoints(ps[1..]) + rest;
      assert EncodeKPoints(ps) + rest == EncodeKPoint(ps[0]) + tail;
      KPointRoundTrip(ps[0], ns, tail);
      KPointsRoundTrip(ps[1..], ns, rest);
      assert [ps[0]] + ps[1..] == ps;
    }
  }

  /** Reading back a written table gives the table, whatever follows it. */
  lemma DecodeEncode(t: Table, rest: seq<Word>)
    requires WellFormed(t)
    ensures Decode(Encode(t) + rest) == Some(t)
  {
    var w := Encode(t) + rest;
    Int32RoundTrip(t.nk, 0);
    Int32RoundTrip(t.ns, 0);
    assert w[0] == WordOf(t.nk) && w[1] == WordOf(t.ns);
    assert w[2..] == t.masses + (EncodeKPoints(t.kpoints) + rest);
    KPointsRoundTrip(t.kpoints, t.ns, rest);
  }

  lemma BranchPrefix(w: seq<Word>, ns: int, b: Branch, rest: seq<Word>)
    requires ns >= 0 && ReadBranch(w, ns) == Some(Parsed(b, rest))
    ensures BranchOk(b, ns) && w == EncodeBranch(b) + rest
  {
    assert w == [w[0]] + w[1..];
  }

  lemma {:induction false} BranchesPrefix(w: seq<Word>, n: nat, ns: int, bs: seq<Branch>, rest: seq<Word>)
    requires ns >= 0 && ReadBranches(w, n, ns) == Some(Parsed(bs, rest))
    ensures |bs| == n && (forall l :: 0 <= l < n ==> BranchOk(bs[l], ns))
    ensures w == EncodeBranches(bs) + rest
    decreases n
  {
    if n > 0 {
      var b := ReadBranch(w, ns).value;
      var tl := ReadBranches(b.rest, n - 1, ns).value;
      BranchPrefix(w, ns, b.value, b.rest);
      BranchesPrefix(b.rest, n - 1, ns, tl.value, tl.rest);
      assert bs == [b.value] + tl.value && rest == tl.rest;
      assert bs[0] == b.value && bs[1..] == tl.value;
      AppendAssoc(EncodeBranch(b.value), EncodeBranches(tl.value), rest);
    } else {
      assert EncodeBranches([]) + w == w;
    }
  }

  lemma KPointPrefix(w: seq<Word>, ns: int, p: KPoint, rest: seq<Word>)
    requires ns >= 0 && ReadKPoint(w, ns) == Some(Parsed(p, rest))
    ensures KPointOk(p, ns) && w == EncodeKPoint(p) + rest
  {
    var k := Take(w, 3).value;
    BranchesPrefix(k.rest, 3 * ns, ns, p.branches, rest);
    AppendAssoc(p.k, EncodeBranches(p.branches), rest);
  }

  lemma {:induction false} KPointsPrefix(w: seq<Word>, n: nat, ns: int, ps: seq<KPoint>, rest: seq<Word>)
    requires ns >= 0 && ReadKPoints(w, n, ns) == Some(Parsed(ps, rest))
    ensures |ps| == n && (forall i :: 0 <= i < n ==> KPointOk(ps[i], ns))
    ensures w == EncodeKPoints(ps) + rest
    decreases n
  {
    if n > 0 {
      var p := ReadKPoint(w, ns).value;
      var tl := ReadKPoints(p.rest, n - 1, ns).value;
      KPointPrefix(w, ns, p.value, p.rest);
      KPointsPrefix(p.rest, n - 1, ns, tl.value, tl.rest);
      assert ps == [p.value] + tl.value && rest == tl.rest;
      assert ps[0] == p.value && ps[1..] == tl.value;
      AppendAssoc(EncodeKPoint(p.value), EncodeKPoints(tl.value), rest);
    } else {
      assert EncodeKPoints([]) + w == w;
    }
  }

  /** A decoded table is well formed and is exactly what the front of the
      stream stores: writing it back gives those words. */
  lemma EncodeDecode(w: seq<Word>)
    requires Decode(w).Some?
    ensures WellFormed(Decode(w).value)
    ensures Encode(Decode(w).value) <= w
  {
    var nk, ns := Int32Of(w[0]), Int32Of(w[1]);
    var m := Take(w[2..], ns).value;
    var r := ReadKPoints(m.rest, nk, ns).value;
    KPointsPrefix(m.rest, nk, ns, r.value, r.rest);
    var t := Table(nk, ns, m.value, r.value);
    assert Decode(w).value == t;
    Int32RoundTrip(nk, w[0]);
    Int32RoundTrip(ns, w[1]);
    var head := [w[0], w[1]] + m.value;
    assert Encode(t) == head + EncodeKPoints(r.value);
    AppendAssoc(head, EncodeKPoints(r.value), r.rest);
    assert w == [w[0], w[1]] + w[2..];
    AppendAssoc([w[0], w[1]], m.value, m.rest);
    assert Encode(t) + r.rest == w;
  }

  // ---------------------------------------------------------------- word count

  lemma {:induction false} BranchesLength(bs: seq<Branch>, ns: int)
    requires forall l :: 0 <= l < |bs| ==> BranchOk(bs[l], ns)
    ensures |EncodeBranches(bs)| == |bs| * (1 + 6 * ns)
    decreases |bs|
  {
    if bs != [] {
      BranchesLength(bs[1..], ns);
      assert |bs| * (1 + 6 * ns) == (1 + 6 * ns) + (|bs| - 1) * (1 + 6 * ns);
    }
  }

  lemma {:induction false} KPointsLength(ps: seq<KPoint>, ns: int)
    requires forall i :: 0 <= i < |ps| ==> KPointOk(ps[i], ns)
    ensures |EncodeKPoints(ps)| == |ps| * (3 + 3 * ns * (1 + 6 * ns))
    decreases |ps|
  {
    if ps != [] {
      BranchesLength(ps[0].branches, ns);
      KPointsLength(ps[1..], ns);
      var kw := 3 + 3 * ns * (1 + 6 * ns);
      assert |ps| * kw == kw + (|ps| - 1) * kw;
    }
  }

  /** A table of Nk k-points and Ns species takes
      2 + Ns + Nk (3 + 3 Ns (1 + 6 Ns)) words. */
  lemma EncodedLength(t: Table)
    requires WellFormed(t)
    ensures |Encode(t)| == WordCount(t.nk, t.ns)
  {
    KPointsLength(t.kpoints, t.ns);
  }

  /** A stream holds a table exactly when its header counts are
      non-negative and it has at least the words they call for. */
  lemma DecodeSucceedsIff(w: seq<Word>)
    requires |w| >= 2 && Int32Of(w[0]) >= 0 && Int32Of(w[1]) >= 0
    ensures Decode(w).Some? <==> |w| >= WordCount(Int32Of(w[0]), Int32Of(w[1]))
  {
    var nk, ns := Int32Of(w[0]), Int32Of(w[1]);
    if Decode(w).Some? {
      EncodeDecode(w);
      EncodedLength(Decode(w).value);
    }
    if |w| >= WordCount(nk, ns) {
      WordCountTimes(nk, ns);
      var t := ShapedTable(w, nk, ns);
      ShapedTableEncodes(w, nk, ns);
      DecodeEncode(t, w[WordCount(nk, ns)..]);
    }
  }

  lemma AppendAssoc(a: seq<Word>, b: seq<Word>, c: seq<Word>)
    ensures (a + b) + c == a + (b + c)
  {
  }

  lemma SplitAt(w: seq<Word>, i: int)
    requires 0 <= i <= |w|
    ensures w[..i] + w[i..] == w
  {
  }

  /** n * k by repeated addition, so that the lengths below unfold one
      record at a time. */
  function Times(n: nat, k: nat): nat
  {
    if n == 0 then 0 else k + Times(n - 1, k)
  }

  lemma {:induction false} TimesIsProduct(n: nat, k: nat)
    ensures Times(n, k) == n * k
  {
    if n > 0 {
      TimesIsProduct(n - 1, k);
    }
  }

  /** Words per branch and per k-point. */
  function BranchWords(ns: nat): nat
  {
    1 + 6 * ns
  }

  function KPointWords(ns: nat): nat
  {
    3 + Times(3 * ns, BranchWords(ns))
  }

  lemma WordCountTimes(nk: nat, ns: nat)
    ensures WordCount(nk, ns) == 2 + ns + Times(nk, KPointWords(ns))
  {
    TimesIsProduct(3 * ns, BranchWords(ns));
    TimesIsProduct(nk, KPointWords(ns));
  }

  /** Some well-formed table with the given counts, built from w itself. */
  function ShapedTable(w: seq<Word>, nk: int, ns: int): (t: Table)
    requires 0 <= nk < TwoTo31 && 0 <= ns < TwoTo31
    requires |w| >= 2 + ns + Times(nk, KPointWords(ns))
    ensures WellFormed(t) && t.nk == nk && t.ns == ns
  {
    Table(nk, ns, w[2..2 + ns], ShapedKPoints(w[2 + ns..], nk, ns))
  }

  /** ... whose encoding is the front of w. */
  lemma ShapedTableEncodes(w: seq<Word>, nk: int, ns: int)
    requires 0 <= nk < TwoTo31 && 0 <= ns < TwoTo31 && |w| >= 2
    requires Int32Of(w[0]) == nk && Int32Of(w[1]) == ns
    requires |w| >= 2 + ns + Times(nk, KPointWords(ns))
    ensures Encode(ShapedTable(w, nk, ns)) + w[2 + ns + Times(nk, KPointWords(ns))..] == w
  {
    Int32RoundTrip(nk, w[0]);
    Int32RoundTrip(ns, w[1]);
    var t := ShapedTable(w, nk, ns);
    var ps := t.kpoints;
    var tail := w[2 + ns + Times(nk, KPointWords(ns))..];
    var head := [w[0], w[1]] + w[2..2 + ns];
    assert w[2 + ns..][Times(nk, KPointWords(ns))..] == tail;
    assert EncodeKPoints(ps) + tail == w[2 + ns..];
    assert Encode(t) == head + EncodeKPoints(ps);
    AppendAssoc(head, EncodeKPoints(ps), tail);
    assert head == w[..2 + ns];
    SplitAt(w, 2 + ns);
  }

  function ShapedBranch(w: seq<Word>, ns: nat): (b: Branch)
    requires |w| >= BranchWords(ns)
    ensures BranchOk(b, ns) && EncodeBranch(b) == w[..BranchWords(ns)]
  {
    Branch(w[0], w[1..BranchWords(ns)])
  }

  function ShapedBranches(w: seq<Word>, n: nat, ns: nat): (bs: seq<Branch>)
    requires |w| >= Times(n, BranchWords(ns))
    ensures |bs| == n && forall l :: 0 <= l < n ==> BranchOk(bs[l], ns)
    ensures EncodeBranches(bs) + w[Times(n, BranchWords(ns))..] == w
    decreases n
  {
    if n == 0 then []
    else
      var bw := BranchWords(ns);
      var b := ShapedBranch(w, ns);
      var rest := ShapedBranches(w[bw..], n - 1, ns);
      assert w[bw..][Times(n - 1, bw)..] == w[Times(n, bw)..];
      var bs := [b] + rest;
      assert bs[0] == b && bs[1..] == rest;
      assert EncodeBranches(bs) == w[..bw] + EncodeBranches(rest);
      AppendAssoc(w[..bw], EncodeBranches(rest), w[Times(n, bw)..]);
      SplitAt(w, bw);
      bs
  }

  function ShapedKPoint(w: seq<Word>, ns: nat): (p: KPoint)
    requires |w| >= KPointWords(ns)
    ensures KPointOk(p, ns) && EncodeKPoint(p) == w[..KPointWords(ns)]
  {
    var kw := KPointWords(ns);
    var bs := ShapedBranches(w[3..], 3 * ns, ns);
    assert w[3..][Times(3 * ns, BranchWords(ns))..] == w[kw..];
    assert EncodeBranches(bs) == w[3..kw] by {
      assert w[3..] == w[3..kw] + w[kw..];
    }
    assert w[..kw] == w[..3] + w[3..kw];
    KPoint(w[..3], bs)
  }

  function ShapedKPoints(w: seq<Word>, n: nat, ns: nat): (ps: seq<KPoint>)
    requires |w| >= Times(n, KPointWords(ns))
    ensures |ps| == n && forall i :: 0 <= i < n ==> KPointOk(ps[i], ns)
    ensures EncodeKPoints(ps) + w[Times(n, KPointWords(ns))..] == w
    decreases n
  {
    if n == 0 then []
    else
      var kw := KPointWords(ns);
      var p := ShapedKPoint(w, ns);
      var rest := ShapedKPoints(w[kw..], n - 1, ns);
      assert w[kw..][Times(n - 1, kw)..] == w[Times(n, kw)..];
      var ps := [p] + rest;
      assert ps[0] == p && ps[1..] == rest;
      assert EncodeKPoints(ps) == w[..kw] + EncodeKPoints(rest);
      AppendAssoc(w[..kw], EncodeKPoints(rest), w[Times(n, kw)..]);
      SplitAt(w, kw);
      ps
  }

  // ---------------------------------------------------------------- amplitudes

  /** Frequencies at or below this (in THz) are given no amplitude. */
  const OmegaCutoff: real := 0.0001
  const ThzAmuHbar: real := 0.15745702964189
  const ThzHbarKb: real := 1.90963567802059

  /** The parts of the amplitude formula that are transcendental:
      bose(x) stands for 1 / (exp(x) - 1) and sqrt for the square root. */
  datatype Physics = Physics(bose: real -> real, sqrt: real -> real)

  /** The mean thermal occupation of a branch: bose(hbar omega / kB T) above
      absolute zero, none at T = 0. */
  function Occupation(omega: real, temperature: real, ph: Physics): real
  {
    if temperature > 0.0 then ph.bose(ThzHbarKb * omega / temperature) else 0.0
  }

  /** The amplitude a branch of frequency omega gets, for a species of the
      given mass, out of nk k-points. */
  function Amplitude(omega: real, mass: real, nk: int, temperature: real, ph: Physics): (a: real)
    requires mass != 0.0 && nk > 0
    ensures omega <= OmegaCutoff ==> a == 0.0
  {
    if omega > OmegaCutoff then
      ph.sqrt((Occupation(omega, temperature, ph) + 0.5) /
              (2.0 * Pi * (nk as real) * 2.0 * mass * omega * ThzAmuHbar))
    else 0.0
  }

  /** What the physics functions satisfy: the Bose factor is non-negative
      for positive arguments and the root of a positive number is positive. */
  ghost predicate Sane(ph: Physics)
  {
    (forall x: real :: x > 0.0 ==> ph.bose(x) >= 0.0) &&
    (forall x: real :: x > 0.0 ==> ph.sqrt(x) > 0.0)
  }

  lemma PositiveProduct(a: real, b: real)
    requires a > 0.0 && b > 0.0
    ensures a * b > 0.0
  {
  }

  lemma PositiveQuotient(a: real, b: real)
    requires a > 0.0 && b > 0.0
    ensures a / b > 0.0
  {
  }

  /** For a positive mass and at least one k-point, a branch has a
      non-zero amplitude exactly when its frequency is above the cutoff. */
  lemma AmplitudeZeroIff(omega: real, mass: real, nk: int, temperature: real, ph: Physics)
    requires Sane(ph) && mass > 0.0 && nk > 0
    ensures Amplitude(omega, mass, nk, temperature, ph) == 0.0 <==> omega <= OmegaCutoff
    ensures Amplitude(omega, mass, nk, temperature, ph) >= 0.0
  {
    if omega > OmegaCutoff {
      var occ := Occupation(omega, temperature, ph);
      if temperature > 0.0 {
        PositiveQuotient(ThzHbarKb * omega, temperature);
      }
      assert occ >= 0.0;
      var d := 2.0 * Pi * (nk as real) * 2.0 * mass * omega * ThzAmuHbar;
      PositiveProduct(2.0 * Pi, nk as real);
      PositiveProduct(2.0 * Pi * (nk as real), 2.0);
      PositiveProduct(2.0 * Pi * (nk as real) * 2.0, mass);
      PositiveProduct(2.0 * Pi * (nk as real) * 2.0 * mass, omega);
      PositiveProduct(2.0 * Pi * (nk as real) * 2.0 * mass * omega, ThzAmuHbar);
      PositiveQuotient(occ + 0.5, d);
    }
  }

  /** The frequency array read from a table: row ix holds the 3*Ns branch
      frequencies of k-point ix, each word read as a float by floatOf. */
  method LoadOmega(t: Table, floatOf: Word -> real) returns (omega: array2<real>)
    requires WellFormed(t)
    ensures fresh(omega) && omega.Length0 == t.nk && omega.Length1 == 3 * t.ns
    ensures forall ix, iy :: 0 <= ix < t.nk && 0 <= iy < 3 * t.ns ==>
      omega[ix, iy] == floatOf(t.kpoints[ix].branches[iy].omega)
  {
    omega := new real[t.nk, 3 * t.ns];
    var ix := 0;
    while ix < t.nk
      invariant 0 <= ix <= t.nk
      invariant forall i, iy :: 0 <= i < ix && 0 <= iy < 3 * t.ns ==>
        omega[i, iy] == floatOf(t.kpoints[i].branches[iy].omega)
    {
      var iy := 0;
      while iy < 3 * t.ns
        invariant 0 <= iy <= 3 * t.ns
        invariant forall i, j :: 0 <= i < ix && 0 <= j < 3 * t.ns ==>
          omega[i, j] == floatOf(t.kpoints[i].branches[j].omega)
        invariant forall j :: 0 <= j < iy ==> omega[ix, j] == floatOf(t.kpoints[ix].branches[j].omega)
      {
        assert KPointOk(t.kpoints[ix], t.ns);
        omega[ix, iy] := floatOf(t.kpoints[ix].branches[iy].omega);
        iy := iy + 1;
      }
      ix := ix + 1;
    }
  }

  /** The in-place conversion of every frequency into its amplitude: column
      iy + 3*idd belongs to species idd, whose mass is masses[idd]. */
  method ToAmplitudes(omega: array2<real>, masses: seq<real>, temperature: real, ph: Physics)
    requires omega.Length1 == 3 * |masses|
    requires forall idd :: 0 <= idd < |masses| ==> masses[idd] != 0.0
    modifies omega
    ensures forall ix, c :: 0 <= ix < omega.Length0 && 0 <= c < omega.Length1 ==>
      omega[ix, c] == Amplitude(old(omega[ix, c]), masses[c / 3], omega.Length0, temperature, ph)
  {
    var ix := 0;
    while ix < omega.Length0
      invariant 0 <= ix <= omega.Length0
      invariant forall i, c :: 0 <= i < ix && 0 <= c < omega.Length1 ==>
        omega[i, c] == Amplitude(old(omega[i, c]), masses[c / 3], omega.Length0, temperature, ph)
      invariant forall i, c :: ix <= i < omega.Length0 && 0 <= c < omega.Length1 ==>
        omega[i, c] == old(omega[i, c])
    {
      AmplitudeRow(omega, ix, masses, temperature, ph);
      ix := ix + 1;
    }
  }

  method AmplitudeRow(omega: array2<real>, ix: int, masses: seq<real>, temperature: real, ph: Physics)
    requires omega.Length1 == 3 * |masses| && 0 <= ix < omega.Length0
    requires forall idd :: 0 <= idd < |masses| ==> masses[idd] != 0.0
    modifies omega
    ensures forall c :: 0 <= c < omega.Length1 ==>
      omega[ix, c] == Amplitude(old(omega[ix, c]), masses[c / 3], omega.Length0, temperature, ph)
    ensures forall i, c :: 0 <= i < omega.Length0 && i != ix && 0 <= c < omega.Length1 ==>
      omega[i, c] == old(omega[i, c])
  {
    var idd := 0;
    while idd < |masses|
      invariant 0 <= idd <= |masses|
      invariant forall c :: 0 <= c < 3 * idd ==>
        omega[ix, c] == Amplitude(old(omega[ix, c]), masses[c / 3], omega.Length0, temperature, ph)
      invariant forall c :: 3 * idd <= c < omega.Length1 ==> omega[ix, c] == old(omega[ix, c])
      invariant forall i, c :: 0 <= i < omega.Length0 && i != ix && 0 <= c < omega.Length1 ==>
        omega[i, c] == old(omega[i, c])
    {
      var iy := 0;
      while iy < 3
        invariant 0 <= iy <= 3
        invariant forall c :: 0 <= c < 3 * idd + iy ==>
          omega[ix, c] == Amplitude(old(omega[ix, c]), masses[c / 3], omega.Length0, temperature, ph)
        invariant forall c :: 3 * idd + iy <= c < omega.Length1 ==> omega[ix, c] == old(omega[ix, c])
        invariant forall i, c :: 0 <= i < omega.Length0 && i != ix && 0 <= c < omega.Length1 ==>
          omega[i, c] == old(omega[i, c])
      {
        var c := iy + 3 * idd;
        assert c / 3 == idd;
        omega[ix, c] := Amplitude(omega[ix, c], masses[idd], omega.Length0, temperature, ph);
        iy := iy + 1;
      }
      idd := idd + 1;
    }
  }
}
