// CCrystal (libs/crystal.cpp): the super-cell builder.  The class keeps
// the base (unit-cell) atoms and the atom vector it fills in place, the
// bounding box fields m_minX .. m_maxZ, the cell lengths and the size of
// the rebased super cell.

module Crystal {
  import opened Numerics
  import opened Atoms
  import opened Occupancy
  import opened CellLayout

  datatype Vec3 = Vec3(x: real, y: real, z: real)

  const Origin: Vec3 := Vec3(0.0, 0.0, 0.0)

  /** What std::vector<atom>::resize appends: a value-initialised atom. */
  const Placeholder: Atom := Atom(0.0, 0.0, 0.0, 0.0, 0.0, 0.0, 0)

  /** std::vector::resize: keep the first n entries, pad with placeholders. */
  function Resize(s: seq<Atom>, n: nat): (r: seq<Atom>)
    ensures |r| == n
    ensures forall j :: 0 <= j < n && j < |s| ==> r[j] == s[j]
    ensures forall j :: |s| <= j < n ==> r[j] == Placeholder
  {
    if n <= |s| then s[..n] else s + seq(n - |s|, _ => Placeholder)
  }

  /** The inputs of one replication run that come from outside the
      routine: the vacancy switch, the TDS switch, the ran1() deviate drawn
      for the group headed by base atom h in cell c, and the displacement
      PhononDisplacement returns for atom jChoice in cell c. */
  datatype ReplicaInputs = ReplicaInputs(
    handleVacancies: bool,
    useTDS: bool,
    draw: (int, Cell) -> real,
    phonon: (int, Cell) -> Vec3)

  /** The group head whose walk covers base atom k, when ReplicateUnitCell
      walks the groups down from top. */
  function HeadOf(base: seq<Atom>, handle: bool, top: int, k: int): (h: int)
    requires 0 <= k <= top < |base|
    ensures k <= h <= top && GroupEnd(base, h, handle) < k
    decreases top
  {
    var e := GroupEnd(base, top, handle);
    if e < k then top else HeadOf(base, handle, e, k)
  }

  /** Stepping the walk from head i to the next head e = GroupEnd(i):
      members of (e, i] are headed by i, and atoms at or below e have the
      same head whether the walk starts at i or at e. */
  lemma HeadAdvance(base: seq<Atom>, handle: bool, i: int)
    requires 0 <= i < |base|
    ensures forall t :: GroupEnd(base, i, handle) < t <= i ==> HeadOf(base, handle, i, t) == i
    ensures forall t :: 0 <= t <= GroupEnd(base, i, handle) ==>
      HeadOf(base, handle, i, t) == HeadOf(base, handle, GroupEnd(base, i, handle), t)
  {
  }

  /** The head of the group holding base atom k in the full walk. */
  function Head(base: seq<Atom>, handle: bool, k: int): (h: int)
    requires 0 <= k < |base|
    ensures k <= h < |base| && GroupEnd(base, h, handle) < k
  {
    HeadOf(base, handle, |base| - 1, k)
  }

  /** The choice and the surviving member for the group headed by h in
      cell c. */
  datatype SiteDecision = SiteDecision(needs: bool, choice: real, jChoice: int)

  function Decide(base: seq<Atom>, inp: ReplicaInputs, h: int, c: Cell): (s: SiteDecision)
    requires 0 <= h < |base|
    ensures GroupEnd(base, h, inp.handleVacancies) < s.jChoice <= h
  {
    var e := GroupEnd(base, h, inp.handleVacancies);
    var total := GroupOcc(base, h, inp.handleVacancies);
    var needs := NeedsChoice(total, e, h);
    var choice := ScaledChoice(total, inp.draw(h, c));
    SiteDecision(needs, choice, if needs then Chosen(base, h, e + 1, choice) else h)
  }

  lemma DecideFacts(base: seq<Atom>, inp: ReplicaInputs, h: int, c: Cell, e: int, total: real)
    requires 0 <= h < |base|
    requires e == GroupEnd(base, h, inp.handleVacancies) && total == GroupOcc(base, h, inp.handleVacancies)
    ensures Decide(base, inp, h, c).needs == NeedsChoice(total, e, h)
    ensures Decide(base, inp, h, c).choice == ScaledChoice(total, inp.draw(h, c))
    ensures Decide(base, inp, h, c).jChoice ==
      if NeedsChoice(total, e, h) then Chosen(base, h, e + 1, ScaledChoice(total, inp.draw(h, c))) else h
  {
  }

  /** Base atom b copied into cell c and displaced by u, keeping its Znum or
      turned into a vacancy (Znum = 0). */
  function Place(b: Atom, c: Cell, u: Vec3, keep: bool): Atom
  {
    Atom(b.x + c.icx as real + u.x, b.y + c.icy as real + u.y, b.z + c.icz as real + u.z,
         b.dw, b.occ, b.q, if keep then b.Znum else 0)
  }

  /** The displacement of the whole group headed by h in cell c: that of the
      surviving member, or none without TDS. */
  function Shift(inp: ReplicaInputs, s: SiteDecision, c: Cell): Vec3
  {
    if inp.useTDS then inp.phonon(s.jChoice, c) else Origin
  }

  /** The atom ReplicateUnitCell leaves in the slot of base atom k and cell
      c: dw, occ and q of the base atom; its Znum, or 0 when the choice made
      it a vacancy; fractional position base + cell + u, where u is the
      displacement of the surviving member and is 0 without TDS. */
  function Replica(base: seq<Atom>, inp: ReplicaInputs, c: Cell, k: int): Atom
    requires 0 <= k < |base|
  {
    var h := Head(base, inp.handleVacancies, k);
    var s := Decide(base, inp, h, c);
    Place(base[k], c, Shift(inp, s, c), !s.needs || Kept(base, h, k, s.choice))
  }

  /** The non-positional fields of slot atom a after the choice step. */
  predicate Stamped(a: Atom, b: Atom, keep: bool)
  {
    a.dw == b.dw && a.occ == b.occ && a.q == b.q && a.Znum == (if keep then b.Znum else 0)
  }

  /** Member t of the group headed by h keeps its Znum under decision s. */
  predicate Survives(base: seq<Atom>, s: SiteDecision, h: int, t: int)
    requires 0 <= t <= h < |base|
  {
    !s.needs || Kept(base, h, t, s.choice)
  }

  /** Replica of member t of the group headed by h. */
  function GroupReplica(base: seq<Atom>, inp: ReplicaInputs, c: Cell, h: int, t: int): Atom
    requires 0 <= t <= h < |base|
  {
    var s := Decide(base, inp, h, c);
    Place(base[t], c, Shift(inp, s, c), Survives(base, s, h, t))
  }

  lemma ReplicaOfGroup(base: seq<Atom>, inp: ReplicaInputs, c: Cell, h: int, t: int)
    requires 0 <= t <= h < |base| && Head(base, inp.handleVacancies, t) == h
    ensures Replica(base, inp, c, t) == GroupReplica(base, inp, c, h, t)
  {
  }

  /** Cells after `cur` in the descending icx / icy / icz walk order. */
  predicate LexAfter(c: Cell, cur: Cell)
  {
    c.icx > cur.icx || (c.icx == cur.icx && (c.icy > cur.icy || (c.icy == cur.icy && c.icz > cur.icz)))
  }

  /** Slots whose final value is already in place: every slot of a base atom
      above i, and the slots of the group (e, i] in cells already visited. */
  predicate Done(c: Cell, k: int, i: int, e: int, cur: Cell)
  {
    k > i || (e < k <= i && LexAfter(c, cur))
  }

  ghost predicate Filled(s: seq<Atom>, base: seq<Atom>, inp: ReplicaInputs, d: Dims, i: int, e: int, cur: Cell)
    requires d.nbase == |base|
  {
    forall c, k :: ValidCell(d, c) && 0 <= k < |base| && 0 <= Slot(d, c, k) < |s| && Done(c, k, i, e, cur) ==>
      s[Slot(d, c, k)] == Replica(base, inp, c, k)
  }

  /** Before the walk no slot is done: no base atom lies above the top
      one and no cell comes after the top cell. */
  lemma NothingFilled(s: seq<Atom>, base: seq<Atom>, inp: ReplicaInputs, d: Dims, e: int)
    requires d.nbase == |base|
    ensures Filled(s, base, inp, d, |base| - 1, e, Cell(d.ncx - 1, d.ncy - 1, d.ncz - 1))
  {
  }

  /** Filling the group slots of cell cur moves the walk one cell on. */
  lemma FillStep(s: seq<Atom>, s': seq<Atom>, base: seq<Atom>, inp: ReplicaInputs, d: Dims,
                 i: int, e: int, cur: Cell, jCell: int)
    requires d.nbase == |base| && |s| == |s'|
    requires ValidCell(d, cur) && -1 <= e < i < |base| && jCell == CellIndex(d, cur) * d.nbase
    requires 0 <= jCell + e + 1 && jCell + i < |s|
    requires Filled(s, base, inp, d, i, e, cur)
    requires forall j :: 0 <= j < |s| && !(jCell + e < j <= jCell + i) ==> s'[j] == s[j]
    requires forall t :: e < t <= i ==> s'[jCell + t] == Replica(base, inp, cur, t)
    ensures Filled(s', base, inp, d, i, e, cur.(icz := cur.icz - 1))
  {
    var next := cur.(icz := cur.icz - 1);
    forall c, k | ValidCell(d, c) && 0 <= k < |base| && 0 <= Slot(d, c, k) < |s'| && Done(c, k, i, e, next)
      ensures s'[Slot(d, c, k)] == Replica(base, inp, c, k)
    {
      if c == cur && e < k <= i {
        assert Slot(d, c, k) == jCell + k;
      } else {
        var j := Slot(d, c, k);
        if jCell + e < j <= jCell + i {
          var t := j - jCell;
          SlotDecode(d, cur, t);
          SlotDecode(d, c, k);
        }
      }
    }
  }

  /** Leaving the icz loop: (cx, cy, -1) and (cx, cy - 1, ncz - 1) mark the
      same visited cells. */
  lemma CarryZ(s: seq<Atom>, base: seq<Atom>, inp: ReplicaInputs, d: Dims, i: int, e: int, cx: int, cy: int)
    requires d.nbase == |base|
    requires Filled(s, base, inp, d, i, e, Cell(cx, cy, -1))
    ensures Filled(s, base, inp, d, i, e, Cell(cx, cy - 1, d.ncz - 1))
  {
  }

  /** Leaving the icy loop. */
  lemma CarryY(s: seq<Atom>, base: seq<Atom>, inp: ReplicaInputs, d: Dims, i: int, e: int, cx: int)
    requires d.nbase == |base|
    requires Filled(s, base, inp, d, i, e, Cell(cx, -1, d.ncz - 1))
    ensures Filled(s, base, inp, d, i, e, Cell(cx - 1, d.ncy - 1, d.ncz - 1))
  {
  }

  /** Leaving the icx loop: the whole group (e, i] is in place, which is the
      starting point of the next group, headed by e. */
  lemma CarryGroup(s: seq<Atom>, base: seq<Atom>, inp: ReplicaInputs, d: Dims, i: int, e: int, e': int)
    requires d.nbase == |base|
    requires Filled(s, base, inp, d, i, e, Cell(-1, d.ncy - 1, d.ncz - 1))
    ensures Filled(s, base, inp, d, e, e', Cell(d.ncx - 1, d.ncy - 1, d.ncz - 1))
  {
    forall c, k | ValidCell(d, c) && 0 <= k < |base| && 0 <= Slot(d, c, k) < |s| &&
                  Done(c, k, e, e', Cell(d.ncx - 1, d.ncy - 1, d.ncz - 1))
      ensures s[Slot(d, c, k)] == Replica(base, inp, c, k)
    {
      assert Done(c, k, i, e, Cell(-1, d.ncy - 1, d.ncz - 1));
    }
  }

  /** Once every group is done, every slot holds its replica. */
  lemma FilledAll(s: seq<Atom>, base: seq<Atom>, inp: ReplicaInputs, d: Dims, cur: Cell)
    requires d.nbase == |base| && |s| == Total(d)
    requires Filled(s, base, inp, d, -1, -1, cur)
    ensures forall c, k :: ValidCell(d, c) && 0 <= k < |base| ==>
      0 <= Slot(d, c, k) < |s| && s[Slot(d, c, k)] == Replica(base, inp, c, k)
  {
    forall c, k | ValidCell(d, c) && 0 <= k < |base|
      ensures 0 <= Slot(d, c, k) < |s| && s[Slot(d, c, k)] == Replica(base, inp, c, k)
    {
      SlotInRange(d, c, k);
      assert Done(c, k, -1, -1, cur);
    }
  }

  /** The jequal loop of ReplicateUnitCell: the group headed by i and its
      total occupancy, read from `src`. */
  method ScanGroup(src: seq<Atom>, i: int, handle: bool) returns (jequal: int, totalOccupancy: real)
    requires 0 <= i < |src|
    ensures jequal == GroupEnd(src, i, handle)
    ensures totalOccupancy == GroupOcc(src, i, handle)
  {
    if handle && src[i].Znum > 0 {
      totalOccupancy := src[i].occ;
      jequal := i - 1;
      while jequal >= 0 && Coincident(src[i], src[jequal])
        invariant -1 <= jequal < i
        invariant ScanDown(src, i, jequal) == ScanDown(src, i, i - 1)
        invariant totalOccupancy == SumOcc(src, jequal + 1, i + 1)
      {
        totalOccupancy := totalOccupancy + src[jequal].occ;
        jequal := jequal - 1;
      }
    } else {
      jequal := i - 1;
      totalOccupancy := 1.0;
    }
  }

  // ------------------------------------------------------------------
  // The grouping defect of ReplicateUnitCell.

  /** As written, the grouping step of ReplicateUnitCell reads the head,
      the coincidence test and the occupancies from the freshly resized atom
      vector `scanned` instead of the base atoms; the member walk still uses
      the base occupancies. */
  function ReplicaAsWritten(base: seq<Atom>, scanned: seq<Atom>, inp: ReplicaInputs, c: Cell, k: int): Atom
    requires 0 <= k < |base| <= |scanned|
  {
    var grp := scanned[..|base|];
    var h := HeadOf(grp, inp.handleVacancies, |base| - 1, k);
    var e := GroupEnd(grp, h, inp.handleVacancies);
    var total := GroupOcc(grp, h, inp.handleVacancies);
    var needs := NeedsChoice(total, e, h);
    var choice := ScaledChoice(total, inp.draw(h, c));
    var jc := if needs then Chosen(base, h, e + 1, choice) else h;
    Place(base[k], c, if inp.useTDS then inp.phonon(jc, c) else Origin, !needs || Kept(base, h, k, choice))
  }

  /** Two half-occupied oxygen atoms sharing one site of the unit cell. */
  const SharedSite: seq<Atom> := [Atom(0.5, 0.5, 0.5, 0.0, 0.5, 0.0, 8), Atom(0.5, 0.5, 0.5, 0.0, 0.5, 0.0, 8)]

  /** On a first build the atom vector holds only placeholders (Znum 0), so
      the as-written grouping never forms a group: both atoms of the shared
      site survive in every cell, whatever the draw. */
  lemma PlaceholderGroupingKeepsBoth(inp: ReplicaInputs, c: Cell)
    requires inp.handleVacancies
    ensures ReplicaAsWritten(SharedSite, Resize([], 2), inp, c, 0).Znum == 8
    ensures ReplicaAsWritten(SharedSite, Resize([], 2), inp, c, 1).Znum == 8
  {
    var grp := Resize([], 2)[..2];
    assert grp[1].Znum == 0 && grp[0].Znum == 0;
    assert GroupEnd(grp, 1, true) == 0;
    assert HeadOf(grp, true, 1, 0) == 0;
    assert GroupEnd(grp, 0, true) == -1;
  }

  /** With the grouping read from the base atoms, exactly one atom of the
      shared site survives for any deviate in [0, 1). */
  lemma SharedSiteOneSurvives(inp: ReplicaInputs, c: Cell)
    requires inp.handleVacancies && 0.0 <= inp.draw(1, c) < 1.0
    ensures Replica(SharedSite, inp, c, 0).Znum + Replica(SharedSite, inp, c, 1).Znum == 8
    ensures Replica(SharedSite, inp, c, 0).Znum == 0 || Replica(SharedSite, inp, c, 1).Znum == 0
  {
    var base := SharedSite;
    assert Coincident(base[1], base[0]);
    assert ScanDown(base, 1, 0) == -1;
    assert GroupEnd(base, 1, true) == -1;
    assert Head(base, true, 0) == 1 && Head(base, true, 1) == 1;
    assert SumOcc(base, 0, 2) == 1.0 by {
      assert SumOcc(base, 2, 2) == 0.0;
      assert SumOcc(base, 1, 2) == 0.5;
    }
    var choice := ScaledChoice(1.0, inp.draw(1, c));
    ScaledChoiceRange(1.0, inp.draw(1, c));
    ExactlyOneSurvives(base, 1, -1, choice);
    var s := Decide(base, inp, 1, c);
    assert s.needs && s.choice == choice;
  }

  // ------------------------------------------------------------------
  // TiltBoxed: the boxed placement.

  /** The inputs of one boxed placement: vacancy switch, Einstein and TDS
      switches, the box, the lateral offset (m_offsetX, m_offsetY), the
      rotated fractional-to-cartesian map (a matrix product carried out by
      the matrix library), the range of unit cells that covers the box, the
      ran1() deviate per group and cell and the displacement per chosen atom
      and cell. */
  datatype BoxedInputs = BoxedInputs(
    handleVacancies: bool,
    einstein: bool,
    useTDS: bool,
    cube: Vec3,
    offsetX: real,
    offsetY: real,
    toCartesian: Vec3 -> Vec3,
    lo: Cell,
    hi: Cell,
    draw: (int, Cell) -> real,
    phonon: (int, Cell) -> Vec3)

  function Add3(a: Vec3, b: Vec3): Vec3
  {
    Vec3(a.x + b.x, a.y + b.y, a.z + b.z)
  }

  /** The box test: 0 <= x <= cubex, 0 <= y <= cubey, 0 <= z <= cubez. */
  predicate InBox(p: Vec3, cube: Vec3)
  {
    0.0 <= p.x <= cube.x && 0.0 <= p.y <= cube.y && 0.0 <= p.z <= cube.z
  }

  /** The candidate of group [iatom, jequal) in cell c: included when its
      undisplaced cartesian position lies in the box, placed at its
      displaced position and carrying the fields of the chosen member (the
      first member when the choice misses every interval). */
  function BoxedCandidate(base: seq<Atom>, bi: BoxedInputs, iatom: int, jequal: int, totOcc: real, c: Cell): Option<Atom>
    requires 0 <= iatom < jequal <= |base|
  {
    var b := base[iatom];
    var aOrig := Vec3(c.icx as real + b.x, c.icy as real + b.y, c.icz as real + b.z);
    var needs := totOcc < 1.0 || jequal > iatom + 1;
    var jc := if needs then ChosenFwd(base, iatom, jequal, ScaledChoice(totOcc, bi.draw(iatom, c))) else iatom;
    var a := if bi.useTDS then Add3(aOrig, bi.phonon(jc, c)) else aOrig;
    var shift := Vec3(bi.offsetX, bi.offsetY, 0.0);
    if InBox(Add3(bi.toCartesian(aOrig), shift), bi.cube) then
      var p := Add3(bi.toCartesian(a), shift);
      var m := base[jc];
      Some(Atom(p.x, p.y, p.z, m.dw, m.occ, m.q, m.Znum))
    else None
  }

  function OptList(o: Option<Atom>): seq<Atom>
  {
    if o.Some? then [o.value] else []
  }

  /** The included atoms of one group for cells (ix, iy, iz..hi). */
  function EmitZ(base: seq<Atom>, bi: BoxedInputs, iatom: int, jequal: int, totOcc: real, ix: int, iy: int, iz: int): seq<Atom>
    requires 0 <= iatom < jequal <= |base|
    decreases bi.hi.icz - iz
  {
    if iz > bi.hi.icz then []
    else OptList(BoxedCandidate(base, bi, iatom, jequal, totOcc, Cell(ix, iy, iz)))
         + EmitZ(base, bi, iatom, jequal, totOcc, ix, iy, iz + 1)
  }

  function EmitY(base: seq<Atom>, bi: BoxedInputs, iatom: int, jequal: int, totOcc: real, ix: int, iy: int): seq<Atom>
    requires 0 <= iatom < jequal <= |base|
    decreases bi.hi.icy - iy
  {
    if iy > bi.hi.icy then []
    else EmitZ(base, bi, iatom, jequal, totOcc, ix, iy, bi.lo.icz) + EmitY(base, bi, iatom, jequal, totOcc, ix, iy + 1)
  }

  function EmitX(base: seq<Atom>, bi: BoxedInputs, iatom: int, jequal: int, totOcc: real, ix: int): seq<Atom>
    requires 0 <= iatom < jequal <= |base|
    decreases bi.hi.icx - ix
  {
    if ix > bi.hi.icx then []
    else EmitY(base, bi, iatom, jequal, totOcc, ix, bi.lo.icy) + EmitX(base, bi, iatom, jequal, totOcc, ix + 1)
  }

  /** The included atoms of one group, cells in ascending ix, iy, iz order. */
  function GroupOutput(base: seq<Atom>, bi: BoxedInputs, iatom: int): seq<Atom>
    requires 0 <= iatom < |base|
  {
    var j := GroupEndFwd(base, iatom, bi.handleVacancies);
    EmitX(base, bi, iatom, j, GroupOccFwd(base, iatom, bi.handleVacancies), bi.lo.icx)
  }

  /** The per-group outputs of the groups starting at iatom, in order. */
  function GroupOutputs(base: seq<Atom>, bi: BoxedInputs, iatom: int): seq<seq<Atom>>
    requires 0 <= iatom <= |base|
    decreases |base| - iatom
  {
    if iatom == |base| then []
    else [GroupOutput(base, bi, iatom)] + GroupOutputs(base, bi, GroupEndFwd(base, iatom, bi.handleVacancies))
  }

  function Flatten(gs: seq<seq<Atom>>): seq<Atom>
  {
    if gs == [] then [] else gs[0] + Flatten(gs[1..])
  }

  /** What TiltBoxed leaves in the atom vector with one running atom count:
      every group's included atoms, one after the other. */
  function BoxedAtoms(base: seq<Atom>, bi: BoxedInputs): seq<Atom>
  {
    Flatten(GroupOutputs(base, bi, 0))
  }

  /** As written, `unsigned atomCount = 0` inside the group loop shadows the
      outer counter, so every group writes its included atoms from slot 0
      of the buffer again (writes past the end of the buffer are undefined
      in C++ and are dropped here). */
  function OverlayAsWritten(buf: seq<Atom>, gs: seq<seq<Atom>>): (r: seq<Atom>)
    ensures |r| == |buf|
    decreases |gs|
  {
    if gs == [] then buf
    else
      var g := gs[0];
      var n := if |g| <= |buf| then |g| else |buf|;
      OverlayAsWritten(g[..n] + buf[n..], gs[1..])
  }

  function BoxedAtomsAsWritten(buf: seq<Atom>, base: seq<Atom>, bi: BoxedInputs): (r: seq<Atom>)
    ensures |r| == |buf|
  {
    OverlayAsWritten(buf, GroupOutputs(base, bi, 0))
  }

  /** Two sites whose groups each keep one atom a and b: as written, the
      second group overwrites the first in slot 0 and a is lost, while the
      running count keeps both, in order. */
  lemma ShadowedCountLosesGroups(buf: seq<Atom>, base: seq<Atom>, bi: BoxedInputs, a: Atom, b: Atom)
    requires |buf| >= 2 && GroupOutputs(base, bi, 0) == [[a], [b]]
    ensures BoxedAtomsAsWritten(buf, base, bi) == [b] + buf[1..]
    ensures BoxedAtoms(base, bi) == [a, b]
  {
    var gs := [[a], [b]];
    assert gs[1..] == [[b]];
    assert [[b]][1..] == [];
    assert OverlayAsWritten(buf, gs) == OverlayAsWritten([a] + buf[1..], [[b]]);
    assert OverlayAsWritten([a] + buf[1..], [[b]]) == OverlayAsWritten([b] + ([a] + buf[1..])[1..], []);
    assert ([a] + buf[1..])[1..] == buf[1..];
    assert Flatten(gs[1..]) == [b] + Flatten([]);
  }

  /** Position of an atom as a vector. */
  function Pos(a: Atom): Vec3
  {
    Vec3(a.x, a.y, a.z)
  }

  /** The atom positions as vectors. */
  function Positions(s: seq<Atom>): (ps: seq<Vec3>)
    ensures |ps| == |s| && forall k :: 0 <= k < |s| ==> ps[k] == Pos(s[k])
  {
    seq(|s|, k requires 0 <= k < |s| => Pos(s[k]))
  }

  /** Without thermal displacement every atom TiltBoxed keeps lies in the
      box [0, cubex] x [0, cubey] x [0, cubez]. */
  predicate AllInBox(s: seq<Atom>, cube: Vec3)
  {
    forall k :: 0 <= k < |s| ==> InBox(Pos(s[k]), cube)
  }

  lemma CandidateInBox(base: seq<Atom>, bi: BoxedInputs, iatom: int, jequal: int, totOcc: real, c: Cell)
    requires 0 <= iatom < jequal <= |base| && !bi.useTDS
    ensures AllInBox(OptList(BoxedCandidate(base, bi, iatom, jequal, totOcc, c)), bi.cube)
  {
  }

  lemma {:induction false} EmitZInBox(base: seq<Atom>, bi: BoxedInputs, iatom: int, jequal: int, totOcc: real, ix: int, iy: int, iz: int)
    requires 0 <= iatom < jequal <= |base| && !bi.useTDS
    ensures AllInBox(EmitZ(base, bi, iatom, jequal, totOcc, ix, iy, iz), bi.cube)
    decreases bi.hi.icz - iz
  {
    if iz <= bi.hi.icz {
      CandidateInBox(base, bi, iatom, jequal, totOcc, Cell(ix, iy, iz));
      EmitZInBox(base, bi, iatom, jequal, totOcc, ix, iy, iz + 1);
    }
  }

  lemma {:induction false} EmitYInBox(base: seq<Atom>, bi: BoxedInputs, iatom: int, jequal: int, totOcc: real, ix: int, iy: int)
    requires 0 <= iatom < jequal <= |base| && !bi.useTDS
    ensures AllInBox(EmitY(base, bi, iatom, jequal, totOcc, ix, iy), bi.cube)
    decreases bi.hi.icy - iy
  {
    if iy <= bi.hi.icy {
      EmitZInBox(base, bi, iatom, jequal, totOcc, ix, iy, bi.lo.icz);
      EmitYInBox(base, bi, iatom, jequal, totOcc, ix, iy + 1);
    }
  }

  lemma {:induction false} EmitXInBox(base: seq<Atom>, bi: BoxedInputs, iatom: int, jequal: int, totOcc: real, ix: int)
    requires 0 <= iatom < jequal <= |base| && !bi.useTDS
    ensures AllInBox(EmitX(base, bi, iatom, jequal, totOcc, ix), bi.cube)
    decreases bi.hi.icx - ix
  {
    if ix <= bi.hi.icx {
      EmitYInBox(base, bi, iatom, jequal, totOcc, ix, bi.lo.icy);
      EmitXInBox(base, bi, iatom, jequal, totOcc, ix + 1);
    }
  }

  lemma {:induction false} GroupOutputsInBox(base: seq<Atom>, bi: BoxedInputs, iatom: int)
    requires 0 <= iatom <= |base| && !bi.useTDS
    ensures AllInBox(Flatten(GroupOutputs(base, bi, iatom)), bi.cube)
    decreases |base| - iatom
  {
    if iatom < |base| {
      var j := GroupEndFwd(base, iatom, bi.handleVacancies);
      EmitXInBox(base, bi, iatom, j, GroupOccFwd(base, iatom, bi.handleVacancies), bi.lo.icx);
      GroupOutputsInBox(base, bi, j);
      var gs := GroupOutputs(base, bi, iatom);
      assert gs[1..] == GroupOutputs(base, bi, j);
    }
  }

  /** Boxed mode keeps only atoms inside the box when TDS is off. */
  lemma BoxedAtomsInBox(base: seq<Atom>, bi: BoxedInputs)
    requires !bi.useTDS
    ensures AllInBox(BoxedAtoms(base, bi), bi.cube)
  {
    GroupOutputsInBox(base, bi, 0);
  }

  /** Every atom TiltBoxed keeps carries the Debye-Waller factor, occupancy,
      charge and atomic number of a base atom. */
  predicate FromBase(s: seq<Atom>, base: seq<Atom>)
  {
    forall k :: 0 <= k < |s| ==> SpeciesOfBase(s[k], base)
  }

  predicate SpeciesOfBase(a: Atom, base: seq<Atom>)
  {
    exists j :: 0 <= j < |base| && a.dw == base[j].dw && a.occ == base[j].occ && a.q == base[j].q && a.Znum == base[j].Znum
  }

  lemma FromBaseConcat(s: seq<Atom>, t: seq<Atom>, base: seq<Atom>)
    requires FromBase(s, base) && FromBase(t, base)
    ensures FromBase(s + t, base)
  {
    forall k | 0 <= k < |s + t|
      ensures SpeciesOfBase((s + t)[k], base)
    {
      if k < |s| { assert (s + t)[k] == s[k]; } else { assert (s + t)[k] == t[k - |s|]; }
    }
  }

  lemma {:induction false} EmitZFromBase(base: seq<Atom>, bi: BoxedInputs, iatom: int, jequal: int, totOcc: real, ix: int, iy: int, iz: int)
    requires 0 <= iatom < jequal <= |base|
    ensures FromBase(EmitZ(base, bi, iatom, jequal, totOcc, ix, iy, iz), base)
    decreases bi.hi.icz - iz
  {
    if iz <= bi.hi.icz {
      EmitZFromBase(base, bi, iatom, jequal, totOcc, ix, iy, iz + 1);
    }
  }

  lemma {:induction false} EmitYFromBase(base: seq<Atom>, bi: BoxedInputs, iatom: int, jequal: int, totOcc: real, ix: int, iy: int)
    requires 0 <= iatom < jequal <= |base|
    ensures FromBase(EmitY(base, bi, iatom, jequal, totOcc, ix, iy), base)
    decreases bi.hi.icy - iy
  {
    if iy <= bi.hi.icy {
      EmitZFromBase(base, bi, iatom, jequal, totOcc, ix, iy, bi.lo.icz);
      EmitYFromBase(base, bi, iatom, jequal, totOcc, ix, iy + 1);
      FromBaseConcat(EmitZ(base, bi, iatom, jequal, totOcc, ix, iy, bi.lo.icz), EmitY(base, bi, iatom, jequal, totOcc, ix, iy + 1), base);
    }
  }

  lemma {:induction false} EmitXFromBase(base: seq<Atom>, bi: BoxedInputs, iatom: int, jequal: int, totOcc: real, ix: int)
    requires 0 <= iatom < jequal <= |base|
    ensures FromBase(EmitX(base, bi, iatom, jequal, totOcc, ix), base)
    decreases bi.hi.icx - ix
  {
    if ix <= bi.hi.icx {
      EmitYFromBase(base, bi, iatom, jequal, totOcc, ix, bi.lo.icy);
      EmitXFromBase(base, bi, iatom, jequal, totOcc, ix + 1);
      FromBaseConcat(EmitY(base, bi, iatom, jequal, totOcc, ix, bi.lo.icy), EmitX(base, bi, iatom, jequal, totOcc, ix + 1), base);
    }
  }

  lemma {:induction false} GroupOutputsFromBase(base: seq<Atom>, bi: BoxedInputs, iatom: int)
    requires 0 <= iatom <= |base|
    ensures FromBase(Flatten(GroupOutputs(base, bi, iatom)), base)
    decreases |base| - iatom
  {
    if iatom < |base| {
      var j := GroupEndFwd(base, iatom, bi.handleVacancies);
      EmitXFromBase(base, bi, iatom, j, GroupOccFwd(base, iatom, bi.handleVacancies), bi.lo.icx);
      GroupOutputsFromBase(base, bi, j);
      var gs := GroupOutputs(base, bi, iatom);
      assert gs[1..] == GroupOutputs(base, bi, j);
      FromBaseConcat(gs[0], Flatten(gs[1..]), base);
    }
  }

  /** TiltBoxed's atoms all take their species and occupancy data from the base. */
  lemma BoxedAtomsFromBase(base: seq<Atom>, bi: BoxedInputs)
    ensures FromBase(BoxedAtoms(base, bi), base)
  {
    GroupOutputsFromBase(base, bi, 0);
  }

  /** Whether the cell loops of TiltBoxed run at all. */
  predicate CellsNonEmpty(bi: BoxedInputs)
  {
    bi.lo.icx <= bi.hi.icx && bi.lo.icy <= bi.hi.icy && bi.lo.icz <= bi.hi.icz
  }

  /** The forward jequal loop of TiltBoxed for the group starting at iatom. */
  method ScanGroupFwd(src: seq<Atom>, iatom: int, handle: bool) returns (jequal: int, totOcc: real)
    requires 0 <= iatom < |src|
    ensures jequal == GroupEndFwd(src, iatom, handle)
    ensures totOcc == GroupOccFwd(src, iatom, handle)
  {
    var b := src[iatom];
    if handle && b.Znum > 0 {
      totOcc := b.occ;
      jequal := iatom + 1;
      assert SumOcc(src, iatom + 1, iatom + 1) == 0.0;
      while jequal < |src| && Coincident(b, src[jequal])
        invariant iatom < jequal <= |src|
        invariant ScanUp(src, iatom, jequal) == ScanUp(src, iatom, iatom + 1)
        invariant totOcc == SumOcc(src, iatom, jequal)
        decreases |src| - jequal
      {
        SumOccSplit(src, iatom, jequal, jequal + 1);
        assert SumOcc(src, jequal, jequal + 1) == src[jequal].occ;
        totOcc := totOcc + src[jequal].occ;
        jequal := jequal + 1;
      }
    } else {
      jequal, totOcc := iatom + 1, 1.0;
    }
  }

  /** The forward member walk: members lo, lo+1, ..., hi-1; a member whose
      interval [lastOcc, lastOcc + occ) holds the choice becomes jChoice. */
  method WalkGroupFwd(src: seq<Atom>, lo: int, hi: int, choice: real) returns (jChoice: int)
    requires 0 <= lo < hi <= |src|
    ensures jChoice == ChosenFwd(src, lo, hi, choice)
  {
    jChoice := lo;
    var lastOcc := 0.0;
    var i2 := lo;
    while i2 < hi
      invariant lo <= i2 <= hi
      invariant lastOcc == SumOcc(src, lo, i2)
      invariant jChoice == ChosenFwd(src, lo, i2, choice)
    {
      SumOccSplit(src, lo, i2, i2 + 1);
      assert SumOcc(src, i2, i2 + 1) == src[i2].occ;
      if !(choice < lastOcc || choice >= lastOcc + src[i2].occ) {
        jChoice := i2;
      }
      lastOcc := lastOcc + src[i2].occ;
      i2 := i2 + 1;
    }
  }

  /** The choice of one boxed cell: the deviate itself below full
      occupancy, scaled by the total otherwise. */
  method BoxedChoice(src: seq<Atom>, bi: BoxedInputs, iatom: int, jequal: int, totOcc: real, c: Cell) returns (jChoice: int)
    requires 0 <= iatom < jequal <= |src|
    ensures jChoice == if totOcc < 1.0 || jequal > iatom + 1
                       then ChosenFwd(src, iatom, jequal, ScaledChoice(totOcc, bi.draw(iatom, c))) else iatom
  {
    jChoice := iatom;
    if totOcc < 1.0 || jequal > iatom + 1 {
      var choice;
      if totOcc < 1.0 {
        choice := bi.draw(iatom, c);
      } else {
        choice := totOcc * bi.draw(iatom, c);
      }
      jChoice := WalkGroupFwd(src, iatom, jequal, choice);
    }
  }

  /** One pass of the iz loop body of TiltBoxed (Einstein mode). */
  method BoxedSite(src: seq<Atom>, bi: BoxedInputs, iatom: int, jequal: int, totOcc: real, c: Cell) returns (o: Option<Atom>)
    requires 0 <= iatom < jequal <= |src|
    ensures o == BoxedCandidate(src, bi, iatom, jequal, totOcc, c)
  {
    var b := src[iatom];
    var aOrig := Vec3(c.icx as real + b.x, c.icy as real + b.y, c.icz as real + b.z);
    var jChoice := BoxedChoice(src, bi, iatom, jequal, totOcc, c);
    var a := aOrig;
    if bi.useTDS {
      var u := bi.phonon(jChoice, c);
      a := Vec3(aOrig.x + u.x, aOrig.y + u.y, aOrig.z + u.z);
    }
    var p0 := bi.toCartesian(aOrig);
    var x, y, z := p0.x + bi.offsetX, p0.y + bi.offsetY, p0.z + 0.0;
    if 0.0 <= x <= bi.cube.x && 0.0 <= y <= bi.cube.y && 0.0 <= z <= bi.cube.z {
      var p := bi.toCartesian(a);
      var m := src[jChoice];
      o := Some(Atom(p.x + bi.offsetX, p.y + bi.offsetY, p.z + 0.0, m.dw, m.occ, m.q, m.Znum));
    } else {
      o := None;
    }
  }

  lemma AppendAssoc(a: seq<Atom>, b: seq<Atom>, c: seq<Atom>)
    ensures a + b + c == a + (b + c)
  {
  }

  /** The iz loop of TiltBoxed. */
  method EmitRow(src: seq<Atom>, bi: BoxedInputs, iatom: int, jequal: int, totOcc: real, ix: int, iy: int) returns (row: seq<Atom>)
    requires 0 <= iatom < jequal <= |src|
    ensures row == EmitZ(src, bi, iatom, jequal, totOcc, ix, iy, bi.lo.icz)
  {
    row := [];
    var iz := bi.lo.icz;
    while iz <= bi.hi.icz
      invariant row + EmitZ(src, bi, iatom, jequal, totOcc, ix, iy, iz) == EmitZ(src, bi, iatom, jequal, totOcc, ix, iy, bi.lo.icz)
      decreases bi.hi.icz - iz
    {
      var o := BoxedSite(src, bi, iatom, jequal, totOcc, Cell(ix, iy, iz));
      assert EmitZ(src, bi, iatom, jequal, totOcc, ix, iy, iz) == OptList(o) + EmitZ(src, bi, iatom, jequal, totOcc, ix, iy, iz + 1);
      AppendAssoc(row, OptList(o), EmitZ(src, bi, iatom, jequal, totOcc, ix, iy, iz + 1));
      row := row + OptList(o);
      iz := iz + 1;
    }
  }

  /** The iy loop of TiltBoxed. */
  method EmitPlane(src: seq<Atom>, bi: BoxedInputs, iatom: int, jequal: int, totOcc: real, ix: int) returns (plane: seq<Atom>)
    requires 0 <= iatom < jequal <= |src|
    ensures plane == EmitY(src, bi, iatom, jequal, totOcc, ix, bi.lo.icy)
  {
    plane := [];
    var iy := bi.lo.icy;
    while iy <= bi.hi.icy
      invariant plane + EmitY(src, bi, iatom, jequal, totOcc, ix, iy) == EmitY(src, bi, iatom, jequal, totOcc, ix, bi.lo.icy)
      decreases bi.hi.icy - iy
    {
      var row := EmitRow(src, bi, iatom, jequal, totOcc, ix, iy);
      assert EmitY(src, bi, iatom, jequal, totOcc, ix, iy) == row + EmitY(src, bi, iatom, jequal, totOcc, ix, iy + 1);
      AppendAssoc(plane, row, EmitY(src, bi, iatom, jequal, totOcc, ix, iy + 1));
      plane := plane + row;
      iy := iy + 1;
    }
  }

  /** The ix loop of TiltBoxed: all included copies of one group. */
  method EmitGroup(src: seq<Atom>, bi: BoxedInputs, iatom: int, jequal: int, totOcc: real) returns (g: seq<Atom>)
    requires 0 <= iatom < jequal <= |src|
    ensures g == EmitX(src, bi, iatom, jequal, totOcc, bi.lo.icx)
  {
    g := [];
    var ix := bi.lo.icx;
    while ix <= bi.hi.icx
      invariant g + EmitX(src, bi, iatom, jequal, totOcc, ix) == EmitX(src, bi, iatom, jequal, totOcc, bi.lo.icx)
      decreases bi.hi.icx - ix
    {
      var plane := EmitPlane(src, bi, iatom, jequal, totOcc, ix);
      assert EmitX(src, bi, iatom, jequal, totOcc, ix) == plane + EmitX(src, bi, iatom, jequal, totOcc, ix + 1);
      AppendAssoc(g, plane, EmitX(src, bi, iatom, jequal, totOcc, ix + 1));
      g := g + plane;
      ix := ix + 1;
    }
  }

  // ------------------------------------------------------------------
  // OffsetCenter and the MakeCrystal geometry.

  /** One coordinate of OffsetCenter: shift, then fold back by one cell
      length when the result left [0, a]. */
  function Wrap(v: real, a: real): (r: real)
    ensures r == v || r == v + a || r == v - a
    ensures a > 0.0 && -a <= v <= 2.0 * a ==> 0.0 <= r <= a
  {
    if v < 0.0 then v + a else if v > a then v - a else v
  }

  /** A 3x3 lattice matrix Mm; row i is the i-th lattice vector. */
  datatype Mat3 = Mat3(m00: real, m01: real, m02: real,
                       m10: real, m11: real, m12: real,
                       m20: real, m21: real, m22: real)

  /** Fractional to cartesian: x = Mm[0][0]*fx + Mm[1][0]*fy + Mm[2][0]*fz,
      and likewise for y and z. */
  function Cartesian(m: Mat3, v: Vec3): Vec3
  {
    Vec3(m.m00 * v.x + m.m10 * v.y + m.m20 * v.z,
         m.m01 * v.x + m.m11 * v.y + m.m21 * v.z,
         m.m02 * v.x + m.m12 * v.y + m.m22 * v.z)
  }

  /** A super-cell corner relative to the super-cell centre, rotated when a
      tilt is set, then moved back by the (unrotated) centre. */
  function CornerPosition(m: Mat3, n: Vec3, corner: Vec3, tilted: bool, rotate: Vec3 -> Vec3): Vec3
  {
    var bc := Vec3(n.x / 2.0, n.y / 2.0, n.z / 2.0);
    var u := Cartesian(m, Vec3(corner.x - bc.x, corner.y - bc.y, corner.z - bc.z));
    var ur := if tilted then rotate(u) else u;
    Add3(ur, Cartesian(m, bc))
  }

  /** The eight corners {0, ncx} x {0, ncy} x {0, ncz} in loop order. */
  function Corners(ncx: int, ncy: int, ncz: int): (cs: seq<Vec3>)
    ensures |cs| == 8
  {
    var x0, x1 := 0.0, ncx as real;
    var y0, y1 := 0.0, ncy as real;
    var z0, z1 := 0.0, ncz as real;
    [Vec3(x0, y0, z0), Vec3(x0, y0, z1), Vec3(x0, y1, z0), Vec3(x0, y1, z1),
     Vec3(x1, y0, z0), Vec3(x1, y0, z1), Vec3(x1, y1, z0), Vec3(x1, y1, z1)]
  }

  /** An axis-aligned box [lo, hi]: the m_minX..m_maxZ bounds of
      CalculateCrystalBoundaries and the boxXmin..boxZmax of MakeCrystal. */
  datatype Span3 = Span3(lo: Vec3, hi: Vec3)

  predicate Encloses(r: Span3, p: Vec3)
  {
    r.lo.x <= p.x <= r.hi.x && r.lo.y <= p.y <= r.hi.y && r.lo.z <= p.z <= r.hi.z
  }

  /** r contains b: its bounds are the same or wider. */
  predicate Widens(r: Span3, b: Span3)
  {
    r.lo.x <= b.lo.x && r.lo.y <= b.lo.y && r.lo.z <= b.lo.z &&
    b.hi.x <= r.hi.x && b.hi.y <= r.hi.y && b.hi.z <= r.hi.z
  }

  /** One update of the six bounds by a point: a bound moves only when the
      point lies beyond it. */
  function Grow(b: Span3, p: Vec3): (r: Span3)
    ensures Encloses(r, p) && Widens(r, b)
    ensures (r.lo.x == b.lo.x || r.lo.x == p.x) && (r.hi.x == b.hi.x || r.hi.x == p.x)
    ensures (r.lo.y == b.lo.y || r.lo.y == p.y) && (r.hi.y == b.hi.y || r.hi.y == p.y)
    ensures (r.lo.z == b.lo.z || r.lo.z == p.z) && (r.hi.z == b.hi.z || r.hi.z == p.z)
  {
    Span3(Vec3(if b.lo.x > p.x then p.x else b.lo.x, if b.lo.y > p.y then p.y else b.lo.y, if b.lo.z > p.z then p.z else b.lo.z),
          Vec3(if b.hi.x < p.x then p.x else b.hi.x, if b.hi.y < p.y then p.y else b.hi.y, if b.hi.z < p.z then p.z else b.hi.z))
  }

  /** The bounds b after updating by the first n points: they enclose every
      point and contain b. */
  function Widened(b: Span3, pts: seq<Vec3>, n: int): (r: Span3)
    requires 0 <= n <= |pts|
    ensures forall k :: 0 <= k < n ==> Encloses(r, pts[k])
    ensures Widens(r, b)
    decreases n
  {
    if n == 0 then b else Grow(Widened(b, pts, n - 1), pts[n - 1])
  }

  /** Each of the six bounds after the update is the old bound or is
      attained by one of the points. */
  lemma {:induction false} WidenedAttained(b: Span3, pts: seq<Vec3>, n: int)
    requires 0 <= n <= |pts|
    ensures var r := Widened(b, pts, n);
      (r.lo.x == b.lo.x || exists k :: 0 <= k < n && pts[k].x == r.lo.x) &&
      (r.hi.x == b.hi.x || exists k :: 0 <= k < n && pts[k].x == r.hi.x) &&
      (r.lo.y == b.lo.y || exists k :: 0 <= k < n && pts[k].y == r.lo.y) &&
      (r.hi.y == b.hi.y || exists k :: 0 <= k < n && pts[k].y == r.hi.y) &&
      (r.lo.z == b.lo.z || exists k :: 0 <= k < n && pts[k].z == r.lo.z) &&
      (r.hi.z == b.hi.z || exists k :: 0 <= k < n && pts[k].z == r.hi.z)
    decreases n
  {
    if n > 0 {
      WidenedAttained(b, pts, n - 1);
    }
  }

  /** The bounding box of a non-empty point list, started at its first point
      as the MakeCrystal corner loop does. */
  function SpanOf(pts: seq<Vec3>): Span3
    requires |pts| > 0
  {
    Widened(Span3(pts[0], pts[0]), pts, |pts|)
  }

  /** SpanOf is the tight box: it encloses every point and every one of its
      six bounds is attained by some point. */
  lemma SpanOfTight(pts: seq<Vec3>)
    requires |pts| > 0
    ensures forall k :: 0 <= k < |pts| ==> Encloses(SpanOf(pts), pts[k])
    ensures exists k :: 0 <= k < |pts| && pts[k].x == SpanOf(pts).lo.x
    ensures exists k :: 0 <= k < |pts| && pts[k].x == SpanOf(pts).hi.x
    ensures exists k :: 0 <= k < |pts| && pts[k].y == SpanOf(pts).lo.y
    ensures exists k :: 0 <= k < |pts| && pts[k].y == SpanOf(pts).hi.y
    ensures exists k :: 0 <= k < |pts| && pts[k].z == SpanOf(pts).lo.z
    ensures exists k :: 0 <= k < |pts| && pts[k].z == SpanOf(pts).hi.z
  {
    var r := SpanOf(pts);
    WidenedAttained(Span3(pts[0], pts[0]), pts, |pts|);
    if r.lo.x == pts[0].x { assert 0 <= 0 < |pts| && pts[0].x == r.lo.x; }
    if r.hi.x == pts[0].x { assert 0 <= 0 < |pts| && pts[0].x == r.hi.x; }
    if r.lo.y == pts[0].y { assert 0 <= 0 < |pts| && pts[0].y == r.lo.y; }
    if r.hi.y == pts[0].y { assert 0 <= 0 < |pts| && pts[0].y == r.hi.y; }
    if r.lo.z == pts[0].z { assert 0 <= 0 < |pts| && pts[0].z == r.lo.z; }
    if r.hi.z == pts[0].z { assert 0 <= 0 < |pts| && pts[0].z == r.hi.z; }
  }

  function Sub3(a: Vec3, b: Vec3): Vec3
  {
    Vec3(a.x - b.x, a.y - b.y, a.z - b.z)
  }

  /** The sizes of a box, hi - lo on each axis. */
  function Extent(b: Span3): Vec3
  {
    Sub3(b.hi, b.lo)
  }

  /** Moving the points by -lo of their bounding box puts them all inside
      [0, hi - lo]; the sizes hi - lo are non-negative. */
  lemma RebasedInsideSize(pts: seq<Vec3>)
    requires |pts| > 0
    ensures var r := SpanOf(pts);
      r.hi.x - r.lo.x >= 0.0 && r.hi.y - r.lo.y >= 0.0 && r.hi.z - r.lo.z >= 0.0
    ensures var r := SpanOf(pts);
      forall k :: 0 <= k < |pts| ==> Encloses(Span3(Origin, Sub3(r.hi, r.lo)), Sub3(pts[k], r.lo))
  {
    SpanOfTight(pts);
    assert Encloses(SpanOf(pts), pts[0]);
  }

  /** The placement parameters of the NCell branch of MakeCrystal: the
      lattice matrix Mm, the super-cell extent, whether any tilt angle is
      non-zero with the rotation RotateVect applies (a matrix-library call),
      and the xOffset, yOffset shift. */
  datatype Geometry = Geometry(m: Mat3, ncx: nat, ncy: nat, ncz: nat, tilted: bool,
                               rotate: Vec3 -> Vec3, xOffset: real, yOffset: real)

  /** The super-cell centre in cartesian coordinates, M (ncx/2, ncy/2, ncz/2). */
  function BoxCenter(g: Geometry): Vec3
  {
    Cartesian(g.m, Vec3(g.ncx as real / 2.0, g.ncy as real / 2.0, g.ncz as real / 2.0))
  }

  /** The eight corner positions visited by the corner loop, in its order. */
  function CornerPoints(g: Geometry): (pts: seq<Vec3>)
    ensures |pts| == 8
  {
    var n := Vec3(g.ncx as real, g.ncy as real, g.ncz as real);
    var cs := Corners(g.ncx, g.ncy, g.ncz);
    seq(8, k requires 0 <= k < 8 => CornerPosition(g.m, n, cs[k], g.tilted, g.rotate))
  }

  /** The super-cell box boxXmin..boxZmax. */
  function SuperBox(g: Geometry): Span3
  {
    SpanOf(CornerPoints(g))
  }

  function WithPos(a: Atom, p: Vec3): Atom
  {
    a.(x := p.x, y := p.y, z := p.z)
  }

  /** The tilt step: rotation about the super-cell centre, when tilted. */
  function TiltAbout(g: Geometry, p: Vec3): Vec3
  {
    if g.tilted then Add3(g.rotate(Sub3(p, BoxCenter(g))), BoxCenter(g)) else p
  }

  /** The passes of the NCell branch of MakeCrystal, one atom at a time:
      to cartesian coordinates, ... */
  function ToCartesianStep(g: Geometry, a: Atom): Atom
  {
    WithPos(a, Cartesian(g.m, Pos(a)))
  }

  /** ... the tilt about the super-cell centre, when tilted, ... */
  function TiltStep(g: Geometry, a: Atom): Atom
  {
    WithPos(a, TiltAbout(g, Pos(a)))
  }

  /** ... the rebase by the super-cell box minimum, ... */
  function RebaseStep(g: Geometry, a: Atom): Atom
  {
    WithPos(a, Sub3(Pos(a), SuperBox(g).lo))
  }

  /** ... and the lateral offset, applied only when one of them is non-zero. */
  function OffsetStep(g: Geometry, a: Atom): Atom
  {
    if g.xOffset != 0.0 || g.yOffset != 0.0 then a.(x := a.x + g.xOffset, y := a.y + g.yOffset) else a
  }

  /** The NCell branch of MakeCrystal applied to one replicated atom. */
  function Finish(g: Geometry, a: Atom): Atom
  {
    OffsetStep(g, RebaseStep(g, TiltStep(g, ToCartesianStep(g, a))))
  }

  /** The passes move atoms and keep their species data; without tilt and
      offset an atom ends at its cartesian position less the box minimum. */
  lemma FinishMovesOnly(g: Geometry, a: Atom)
    ensures var r := Finish(g, a);
      r.dw == a.dw && r.occ == a.occ && r.q == a.q && r.Znum == a.Znum
    ensures !g.tilted && g.xOffset == 0.0 && g.yOffset == 0.0 ==>
      Pos(Finish(g, a)) == Sub3(Cartesian(g.m, Pos(a)), SuperBox(g).lo)
  {
  }

  /** The corner loop of MakeCrystal: the first corner sets the bounds, the
      others widen them. */
  method SuperCellBox(g: Geometry) returns (box: Span3)
    requires g.ncx >= 1 && g.ncy >= 1 && g.ncz >= 1
    ensures box == SuperBox(g)
  {
    var n := Vec3(g.ncx as real, g.ncy as real, g.ncz as real);
    var cs := Corners(g.ncx, g.ncy, g.ncz);
    ghost var pts := CornerPoints(g);
    var p := CornerPosition(g.m, n, cs[0], g.tilted, g.rotate);
    box := Span3(p, p);
    assert box == Grow(Widened(Span3(pts[0], pts[0]), pts, 0), pts[0]);
    var k := 1;
    while k < 8
      invariant 1 <= k <= 8
      invariant box == Widened(Span3(pts[0], pts[0]), pts, k)
    {
      p := CornerPosition(g.m, n, cs[k], g.tilted, g.rotate);
      box := Grow(box, p);
      k := k + 1;
    }
  }

  /** The atoms of the NCell branch: ncx ncy ncz copies of the base, every
      slot holding its replica after the cartesian, tilt, rebase and offset
      passes. */
  ghost predicate Finished(s: seq<Atom>, base: seq<Atom>, g: Geometry, inp: ReplicaInputs)
  {
    |s| == g.ncx * g.ncy * g.ncz * |base| &&
    forall c, k :: ValidCell(Dims(g.ncx, g.ncy, g.ncz, |base|), c) && 0 <= k < |base| ==>
      0 <= Slot(Dims(g.ncx, g.ncy, g.ncz, |base|), c, k) < |s| &&
      s[Slot(Dims(g.ncx, g.ncy, g.ncz, |base|), c, k)] == Finish(g, Replica(base, inp, c, k))
  }

  /** The sizes of the super-cell box. */
  method SuperCellExtent(g: Geometry) returns (e: Vec3)
    requires g.ncx >= 1 && g.ncy >= 1 && g.ncz >= 1
    ensures e == Extent(SuperBox(g))
  {
    var box := SuperCellBox(g);
    e := Extent(box);
  }

  /** OffsetCenter's shift: the centre atom moves to (ax/2, by/2, 0). */
  function CenterShift(center: Atom, lenA: real, lenB: real): Vec3
  {
    Vec3(lenA / 2.0 - center.x, lenB / 2.0 - center.y, -center.z)
  }

  /** One atom after OffsetCenter: shifted, each coordinate folded back into
      its cell length. */
  function Centered(a: Atom, d: Vec3, len: Vec3): (r: Atom)
    ensures r.dw == a.dw && r.occ == a.occ && r.q == a.q && r.Znum == a.Znum
  {
    a.(x := Wrap(a.x + d.x, len.x), y := Wrap(a.y + d.y, len.y), z := Wrap(a.z + d.z, len.z))
  }

  /** The centre atom itself lands at (ax/2, by/2, 0). */
  lemma CenterLands(center: Atom, len: Vec3)
    requires len.x >= 0.0 && len.y >= 0.0 && len.z >= 0.0
    ensures var r := Centered(center, CenterShift(center, len.x, len.y), len);
      r.x == len.x / 2.0 && r.y == len.y / 2.0 && r.z == 0.0
  {
  }

  /** With the centre and an atom inside the cell, the shifted atom is
      folded back inside the cell, and it moved by the shift up to one
      cell length per axis. */
  lemma CenteredStaysInCell(a: Atom, center: Atom, len: Vec3)
    requires len.x > 0.0 && len.y > 0.0 && len.z > 0.0
    requires Encloses(Span3(Origin, len), Pos(a)) && Encloses(Span3(Origin, len), Pos(center))
    ensures var r := Centered(a, CenterShift(center, len.x, len.y), len);
      Encloses(Span3(Origin, len), Pos(r))
  {
  }

  class Crystal {
    var baseAtoms: seq<Atom>
    var atoms: seq<Atom>
    var minX: real, maxX: real, minY: real, maxY: real, minZ: real, maxZ: real
    var lenA: real, lenB: real, lenC: real
    var sizeX: real, sizeY: real, sizeZ: real

    constructor (base: seq<Atom>, a: real, b: real, c: real)
      ensures baseAtoms == base && atoms == [] && lenA == a && lenB == b && lenC == c
      ensures minX == maxX == minY == maxY == minZ == maxZ == 0.0
    {
      baseAtoms, atoms := base, [];
      minX, maxX, minY, maxY, minZ, maxZ := 0.0, 0.0, 0.0, 0.0, 0.0, 0.0;
      lenA, lenB, lenC := a, b, c;
      sizeX, sizeY, sizeZ := 0.0, 0.0, 0.0;
    }

    /** The choice step of one pass of the icz loop body: copy dw, occ, q
        and Znum of the group (e, i] into the cell whose first slot is jCell,
        and when the group needs a choice, walk its members down from i and
        keep the one whose occupancy interval holds the choice.  Returns the
        surviving member and the number of vacancies made. */
    method StampSite(jCell: int, i: int, e: int, needs: bool, choice: real) returns (jChoice: int, vac: nat)
      requires -1 <= e < i < |baseAtoms| && 0 <= jCell + e + 1 && jCell + i < |atoms|
      requires !needs ==> e == i - 1
      modifies this`atoms
      ensures |atoms| == |old(atoms)|
      ensures forall j :: 0 <= j < |atoms| && !(jCell + e < j <= jCell + i) ==> atoms[j] == old(atoms[j])
      ensures jChoice == if needs then Chosen(baseAtoms, i, e + 1, choice) else i
      ensures forall t :: e < t <= i ==>
        Stamped(atoms[jCell + t], baseAtoms[t], !needs || Kept(baseAtoms, i, t, choice))
      ensures vac == if needs then VacCount(baseAtoms, i, e + 1, choice) else 0
    {
      var j := jCell + i;
      var b := baseAtoms[i];
      atoms := atoms[j := atoms[j].(dw := b.dw, occ := b.occ, q := b.q, Znum := b.Znum)];
      jChoice := i;
      vac := 0;
      if needs {
        jChoice, vac := WalkGroup(jCell, i, e, choice);
      }
    }

    /** The member walk of the choice step: members i, i-1, ..., e+1 get
        dw, occ, q, and their Znum when their occupancy interval
        [lastOcc, lastOcc + occ) holds the choice, 0 otherwise. */
    method WalkGroup(jCell: int, i: int, e: int, choice: real) returns (jChoice: int, vac: nat)
      requires -1 <= e < i < |baseAtoms| && 0 <= jCell + e + 1 && jCell + i < |atoms|
      modifies this`atoms
      ensures |atoms| == |old(atoms)|
      ensures forall j :: 0 <= j < |atoms| && !(jCell + e < j <= jCell + i) ==> atoms[j] == old(atoms[j])
      ensures jChoice == Chosen(baseAtoms, i, e + 1, choice)
      ensures forall t :: e < t <= i ==> Stamped(atoms[jCell + t], baseAtoms[t], Kept(baseAtoms, i, t, choice))
      ensures vac == VacCount(baseAtoms, i, e + 1, choice)
    {
      jChoice, vac := i, 0;
      var lastOcc := 0.0;
      var i2 := i;
      ghost var a0 := atoms;
      while i2 > e
        invariant e <= i2 <= i
        invariant Walked(a0, jCell, i, e, i2, choice, lastOcc, jChoice, vac)
      {
        lastOcc, jChoice, vac := WalkMember(a0, jCell, i, e, i2, choice, lastOcc, jChoice, vac);
        i2 := i2 - 1;
      }
      assert i2 == e;
    }

    /** The state of the member walk once members i .. i2+1 are visited:
        lastOcc is their occupancy, jChoice and vac are the walk's results
        so far, the visited slots are stamped and no slot outside the
        group has changed since a0. */
    ghost predicate Walked(a0: seq<Atom>, jCell: int, i: int, e: int, i2: int, choice: real,
                           lastOcc: real, jChoice: int, vac: nat)
      reads this
    {
      -1 <= e <= i2 <= i < |baseAtoms| && 0 <= jCell + e + 1 && jCell + i < |atoms| && |atoms| == |a0| &&
      lastOcc == SumOcc(baseAtoms, i2 + 1, i + 1) &&
      jChoice == Chosen(baseAtoms, i, i2 + 1, choice) &&
      vac == VacCount(baseAtoms, i, i2 + 1, choice) &&
      (forall t :: i2 < t <= i ==> Stamped(atoms[jCell + t], baseAtoms[t], Kept(baseAtoms, i, t, choice))) &&
      (forall jj :: 0 <= jj < |atoms| && !(jCell + e < jj <= jCell + i) ==> atoms[jj] == a0[jj])
    }

    /** One member of the walk: member i2 is stamped with its Znum when its
        interval holds the choice, with 0 (a vacancy) otherwise. */
    method WalkMember(ghost a0: seq<Atom>, jCell: int, i: int, e: int, i2: int, choice: real,
                      lastOcc: real, jChoice: int, vac: nat) returns (lastOcc': real, jChoice': int, vac': nat)
      requires e < i2 && Walked(a0, jCell, i, e, i2, choice, lastOcc, jChoice, vac)
      modifies this`atoms
      ensures Walked(a0, jCell, i, e, i2 - 1, choice, lastOcc', jChoice', vac')
    {
      var b2 := baseAtoms[i2];
      var z := b2.Znum;
      jChoice', vac' := jChoice, vac;
      assert SumOcc(baseAtoms, i2, i + 1) == b2.occ + lastOcc;
      if choice < lastOcc || choice >= lastOcc + b2.occ {
        z := 0;
        vac' := vac + 1;
      } else {
        jChoice' := i2;
      }
      atoms := atoms[jCell + i2 := atoms[jCell + i2].(dw := b2.dw, occ := b2.occ, q := b2.q, Znum := z)];
      lastOcc' := lastOcc + b2.occ;
    }

    /** One pass of the icz loop body: draw the choice when the group needs
        one (the deviate itself below full occupancy, scaled by the total
        otherwise), the choice step, then the positions of the group in the
        cell, all displaced by the survivor's u. */
    method FillSite(c: Cell, jCell: int, i: int, e: int, total: real, inp: ReplicaInputs) returns (vac: nat)
      requires -1 <= e < i < |baseAtoms| && 0 <= jCell + e + 1 && jCell + i < |atoms|
      requires e == GroupEnd(baseAtoms, i, inp.handleVacancies)
      requires total == GroupOcc(baseAtoms, i, inp.handleVacancies)
      modifies this`atoms
      ensures |atoms| == |old(atoms)|
      ensures forall j :: 0 <= j < |atoms| && !(jCell + e < j <= jCell + i) ==> atoms[j] == old(atoms[j])
      ensures forall t :: e < t <= i ==> atoms[jCell + t] == GroupReplica(baseAtoms, inp, c, i, t)
      ensures vac == if NeedsChoice(total, e, i)
                     then VacCount(baseAtoms, i, e + 1, ScaledChoice(total, inp.draw(i, c))) else 0
    {
      ghost var dec := Decide(baseAtoms, inp, i, c);
      DecideFacts(baseAtoms, inp, i, c, e, total);
      var needs := total < 1.0 || e < i - 1;
      var choice := 0.0;
      if needs {
        if total < 1.0 {
          choice := inp.draw(i, c);
        } else {
          choice := total * inp.draw(i, c);
        }
      }
      assert needs ==> choice == dec.choice;
      var jChoice;
      jChoice, vac := StampSite(jCell, i, e, needs, choice);
      var u := if inp.useTDS then inp.phonon(jChoice, c) else Origin;
      assert u == Shift(inp, dec, c);
      PlaceSite(c, jCell, i, e, u, dec);
    }

    /** The positions loop of one pass: every member of the group (e, i] in
        the cell gets base position + cell + u. */
    method PlaceSite(c: Cell, jCell: int, i: int, e: int, u: Vec3, ghost dec: SiteDecision)
      requires -1 <= e < i < |baseAtoms| && 0 <= jCell + e + 1 && jCell + i < |atoms|
      requires forall t :: e < t <= i ==> Stamped(atoms[jCell + t], baseAtoms[t], Survives(baseAtoms, dec, i, t))
      modifies this`atoms
      ensures |atoms| == |old(atoms)|
      ensures forall j :: 0 <= j < |atoms| && !(jCell + e < j <= jCell + i) ==> atoms[j] == old(atoms[j])
      ensures forall t :: e < t <= i ==> atoms[jCell + t] == Place(baseAtoms[t], c, u, Survives(baseAtoms, dec, i, t))
    {
      var i2 := i;
      while i2 > e
        invariant e <= i2 <= i && |atoms| == |old(atoms)|
        invariant forall t :: i2 < t <= i ==> atoms[jCell + t] == Place(baseAtoms[t], c, u, Survives(baseAtoms, dec, i, t))
        invariant forall t :: e < t <= i2 ==> Stamped(atoms[jCell + t], baseAtoms[t], Survives(baseAtoms, dec, i, t))
        invariant forall jj :: 0 <= jj < |atoms| && !(jCell + e < jj <= jCell + i) ==> atoms[jj] == old(atoms[jj])
      {
        var b2 := baseAtoms[i2];
        atoms := atoms[jCell + i2 := atoms[jCell + i2].(x := b2.x + c.icx as real + u.x,
                                                       y := b2.y + c.icy as real + u.y,
                                                       z := b2.z + c.icz as real + u.z)];
        i2 := i2 - 1;
      }
    }

    /** The icz loop for one group and one (icx, icy) column of cells. */
    method FillColumn(d: Dims, icx: int, icy: int, i: int, e: int, total: real, inp: ReplicaInputs)
      returns (vac: nat)
      requires d.nbase == |baseAtoms| && |atoms| == Total(d) && 0 <= icx < d.ncx && 0 <= icy < d.ncy
      requires -1 <= e < i < |baseAtoms|
      requires e == GroupEnd(baseAtoms, i, inp.handleVacancies)
      requires total == GroupOcc(baseAtoms, i, inp.handleVacancies)
      requires forall t :: e < t <= i ==> Head(baseAtoms, inp.handleVacancies, t) == i
      requires Filled(atoms, baseAtoms, inp, d, i, e, Cell(icx, icy, d.ncz - 1))
      modifies this`atoms
      ensures |atoms| == Total(d)
      ensures Filled(atoms, baseAtoms, inp, d, i, e, Cell(icx, icy - 1, d.ncz - 1))
    {
      vac := 0;
      var icz := d.ncz - 1;
      while icz >= 0
        invariant -1 <= icz < d.ncz && |atoms| == Total(d)
        invariant Filled(atoms, baseAtoms, inp, d, i, e, Cell(icx, icy, icz))
      {
        var cell := Cell(icx, icy, icz);
        var jCell := (icz + icy * d.ncz + icx * d.ncy * d.ncz) * |baseAtoms|;
        SlotInRange(d, cell, i);
        SlotInRange(d, cell, e + 1);
        ghost var before := atoms;
        var v := FillSite(cell, jCell, i, e, total, inp);
        forall t | e < t <= i
          ensures atoms[jCell + t] == Replica(baseAtoms, inp, cell, t)
        {
          ReplicaOfGroup(baseAtoms, inp, cell, i, t);
        }
        FillStep(before, atoms, baseAtoms, inp, d, i, e, cell, jCell);
        vac := vac + v;
        icz := icz - 1;
      }
      CarryZ(atoms, baseAtoms, inp, d, i, e, icx, icy);
    }

    /** The icx and icy loops for one group: every cell gets the group. */
    method FillGroup(d: Dims, i: int, e: int, total: real, inp: ReplicaInputs) returns (vac: nat)
      requires d.nbase == |baseAtoms| && |atoms| == Total(d)
      requires -1 <= e < i < |baseAtoms|
      requires e == GroupEnd(baseAtoms, i, inp.handleVacancies)
      requires total == GroupOcc(baseAtoms, i, inp.handleVacancies)
      requires forall t :: e < t <= i ==> Head(baseAtoms, inp.handleVacancies, t) == i
      requires Filled(atoms, baseAtoms, inp, d, i, e, Cell(d.ncx - 1, d.ncy - 1, d.ncz - 1))
      modifies this`atoms
      ensures |atoms| == Total(d)
      ensures Filled(atoms, baseAtoms, inp, d, i, e, Cell(-1, d.ncy - 1, d.ncz - 1))
    {
      vac := 0;
      var icx := d.ncx - 1;
      while icx >= 0
        invariant -1 <= icx < d.ncx && |atoms| == Total(d)
        invariant Filled(atoms, baseAtoms, inp, d, i, e, Cell(icx, d.ncy - 1, d.ncz - 1))
      {
        var icy := d.ncy - 1;
        while icy >= 0
          invariant -1 <= icy < d.ncy && |atoms| == Total(d)
          invariant Filled(atoms, baseAtoms, inp, d, i, e, Cell(icx, icy, d.ncz - 1))
        {
          var v := FillColumn(d, icx, icy, i, e, total, inp);
          vac := vac + v;
          icy := icy - 1;
        }
        CarryY(atoms, baseAtoms, inp, d, i, e, icx);
        icx := icx - 1;
      }
    }

    /** ReplicateUnitCell: resize the atom vector to ncx*ncy*ncz*nbase and
        fill every slot with the replica of its base atom, walking the
        coincidence groups from the top and the cells in descending order.
        The groups are scanned in the base atoms; the source scans the atom
        vector instead (see PlaceholderGrouping). */
    method ReplicateUnitCell(ncx: nat, ncy: nat, ncz: nat, inp: ReplicaInputs)
      modifies this`atoms
      ensures |atoms| == ncx * ncy * ncz * |baseAtoms|
      ensures forall c, k :: ValidCell(Dims(ncx, ncy, ncz, |baseAtoms|), c) && 0 <= k < |baseAtoms| ==>
        0 <= Slot(Dims(ncx, ncy, ncz, |baseAtoms|), c, k) < |atoms| &&
        atoms[Slot(Dims(ncx, ncy, ncz, |baseAtoms|), c, k)] == Replica(baseAtoms, inp, c, k)
    {
      var d := Dims(ncx, ncy, ncz, |baseAtoms|);
      atoms := Resize(atoms, Total(d));
      var jVac := ReplicateGroups(d, inp);
      FilledAll(atoms, baseAtoms, inp, d, Cell(ncx - 1, ncy - 1, ncz - 1));
    }

    /** The jequal loop of ReplicateUnitCell, from the top base atom down;
        the vacancies made are counted in jVac. */
    method ReplicateGroups(d: Dims, inp: ReplicaInputs) returns (jVac: nat)
      requires d.nbase == |baseAtoms| && |atoms| == Total(d)
      modifies this`atoms
      ensures |atoms| == Total(d)
      ensures Filled(atoms, baseAtoms, inp, d, -1, -1, Cell(d.ncx - 1, d.ncy - 1, d.ncz - 1))
    {
      jVac := 0;
      var i := |baseAtoms| - 1;
      NothingFilled(atoms, baseAtoms, inp, d, if i >= 0 then GroupEnd(baseAtoms, i, inp.handleVacancies) else -1);
      while i >= 0
        invariant Replicating(d, inp, i)
      {
        var v;
        i, v := ReplicateGroup(d, i, inp);
        jVac := jVac + v;
      }
      assert i == -1;
    }

    /** The state of the group walk of ReplicateUnitCell at head i: the
        groups above i are in every cell, and the heads of the atoms at or
        below i are those the walk from i finds. */
    ghost predicate Replicating(d: Dims, inp: ReplicaInputs, i: int)
      reads this
    {
      var handle := inp.handleVacancies;
      d.nbase == |baseAtoms| && -1 <= i < |baseAtoms| && |atoms| == Total(d) &&
      (forall k :: 0 <= k <= i ==> Head(baseAtoms, handle, k) == HeadOf(baseAtoms, handle, i, k)) &&
      Filled(atoms, baseAtoms, inp, d, i, if i >= 0 then GroupEnd(baseAtoms, i, handle) else -1,
             Cell(d.ncx - 1, d.ncy - 1, d.ncz - 1))
    }

    /** One pass of the jequal loop: the group headed by i is scanned and
        filled in every cell; the walk moves on to the next head. */
    method ReplicateGroup(d: Dims, i: int, inp: ReplicaInputs) returns (next: int, vac: nat)
      requires 0 <= i && Replicating(d, inp, i)
      modifies this`atoms
      ensures next < i && Replicating(d, inp, next)
    {
      var handle := inp.handleVacancies;
      var jequal, totalOccupancy := ScanGroup(baseAtoms, i, handle);
      HeadAdvance(baseAtoms, handle, i);
      vac := FillGroup(d, i, jequal, totalOccupancy, inp);
      var e' := if jequal >= 0 then GroupEnd(baseAtoms, jequal, handle) else -1;
      CarryGroup(atoms, baseAtoms, inp, d, i, jequal, e');
      next := jequal;
    }

    function Bounds(): Span3
      reads this
    {
      Span3(Vec3(minX, minY, minZ), Vec3(maxX, maxY, maxZ))
    }

    /** Widen m_minX .. m_maxZ by every atom position, in order. */
    method CalculateCrystalBoundaries()
      modifies this`minX, this`maxX, this`minY, this`maxY, this`minZ, this`maxZ
      ensures Bounds() == Widened(old(Bounds()), Positions(atoms), |atoms|)
    {
      ghost var b0 := Bounds();
      ghost var ps := Positions(atoms);
      var i := 0;
      while i < |atoms|
        invariant 0 <= i <= |atoms|
        invariant Bounds() == Widened(b0, ps, i)
      {
        assert ps[i] == Pos(atoms[i]);
        WidenBy(atoms[i]);
        i := i + 1;
      }
    }

    /** The six bound updates of one atom: a bound moves only when the atom
        lies beyond it. */
    method WidenBy(a: Atom)
      modifies this`minX, this`maxX, this`minY, this`maxY, this`minZ, this`maxZ
      ensures Bounds() == Grow(old(Bounds()), Pos(a))
    {
      if a.x < minX { minX := a.x; }
      if a.x > maxX { maxX := a.x; }
      if a.y < minY { minY := a.y; }
      if a.y > maxY { maxY := a.y; }
      if a.z < minZ { minZ := a.z; }
      if a.z > maxZ { maxZ := a.z; }
    }

    /** Move the atom `center` to (lenA/2, lenB/2, 0) and fold every atom
        back into the cell, axis by axis. */
    method OffsetCenter(center: Atom)
      modifies this`atoms
      ensures |atoms| == |old(atoms)|
      ensures forall i :: 0 <= i < |atoms| ==>
        atoms[i] == Centered(old(atoms[i]), CenterShift(center, lenA, lenB), Vec3(lenA, lenB, lenC))
    {
      var d := CenterShift(center, lenA, lenB);
      var i := 0;
      while i < |atoms|
        invariant 0 <= i <= |atoms| && |atoms| == |old(atoms)|
        invariant forall k :: 0 <= k < i ==> atoms[k] == Centered(old(atoms[k]), d, Vec3(lenA, lenB, lenC))
        invariant forall k :: i <= k < |atoms| ==> atoms[k] == old(atoms[k])
      {
        var a := atoms[i];
        var x := a.x + d.x;
        if x < 0.0 { x := x + lenA; } else if x > lenA { x := x - lenA; }
        var y := a.y + d.y;
        if y < 0.0 { y := y + lenB; } else if y > lenB { y := y - lenB; }
        var z := a.z + d.z;
        if z < 0.0 { z := z + lenC; } else if z > lenC { z := z - lenC; }
        atoms := atoms[i := a.(x := x, y := y, z := z)];
        i := i + 1;
      }
    }

    /** One pass of MakeCrystal over the atom vector, rewriting each atom. */
    method Transform(f: Atom -> Atom)
      modifies this`atoms
      ensures |atoms| == |old(atoms)|
      ensures forall j :: 0 <= j < |atoms| ==> atoms[j] == f(old(atoms[j]))
    {
      var j := 0;
      while j < |atoms|
        invariant 0 <= j <= |atoms| && |atoms| == |old(atoms)|
        invariant forall k :: 0 <= k < j ==> atoms[k] == f(old(atoms[k]))
        invariant forall k :: j <= k < |atoms| ==> atoms[k] == old(atoms[k])
      {
        atoms := atoms[j := f(atoms[j])];
        j := j + 1;
      }
    }

    /** The boxed placement: every group of coincident base atoms, for
        every unit cell of the covering range, contributes its candidate
        when that falls in the box; the crystal takes the box as its cell.
        Any displacement mode other than Einstein ends the program at the
        first candidate. */
    method TiltBoxed(bi: BoxedInputs) returns (exited: bool)
      modifies this`atoms, this`lenA, this`lenB, this`lenC
      ensures exited <==> !bi.einstein && |baseAtoms| > 0 && CellsNonEmpty(bi)
      ensures !exited ==> atoms == BoxedAtoms(baseAtoms, bi)
      ensures !exited ==> lenA == bi.cube.x && lenB == bi.cube.y && lenC == bi.cube.z
    {
      if !bi.einstein && |baseAtoms| > 0 && CellsNonEmpty(bi) {
        return true;
      }
      exited := false;
      var out: seq<Atom> := [];
      var iatom := 0;
      while iatom < |baseAtoms|
        invariant 0 <= iatom <= |baseAtoms|
        invariant out + Flatten(GroupOutputs(baseAtoms, bi, iatom)) == BoxedAtoms(baseAtoms, bi)
        decreases |baseAtoms| - iatom
      {
        var jequal, totOcc := ScanGroupFwd(baseAtoms, iatom, bi.handleVacancies);
        var g := EmitGroup(baseAtoms, bi, iatom, jequal, totOcc);
        ghost var gs := GroupOutputs(baseAtoms, bi, iatom);
        assert gs[0] == g && gs[1..] == GroupOutputs(baseAtoms, bi, jequal);
        assert Flatten(gs) == g + Flatten(gs[1..]);
        AppendAssoc(out, g, Flatten(gs[1..]));
        out := out + g;
        iatom := jequal;
      }
      atoms := out;
      lenA, lenB, lenC := bi.cube.x, bi.cube.y, bi.cube.z;
    }

    /** Whether MakeCrystal takes the boxed branch. */
    static predicate Boxed(bi: BoxedInputs)
    {
      bi.cube.x > 0.0 && bi.cube.y > 0.0 && bi.cube.z > 0.0
    }

    /** Build the super cell.  With a positive box the boxed placement
        runs and the super-cell sizes stay 0; otherwise the unit cell is
        replicated ncx x ncy x ncz times and every atom goes to cartesian
        coordinates, is tilted about the super-cell centre, rebased to the
        super-cell box minimum and offset, and the sizes are the box extent.
        With vacancy handling the base atoms are first put in (z, y, x)
        order; `sorted` is that order. */
    method MakeCrystal(sorted: seq<Atom>, g: Geometry, inp: ReplicaInputs, bi: BoxedInputs) returns (exited: bool)
      requires inp.handleVacancies ==> multiset(sorted) == multiset(baseAtoms) && SortedZYX(sorted)
      requires bi.handleVacancies == inp.handleVacancies
      requires !Boxed(bi) ==> g.ncx >= 1 && g.ncy >= 1 && g.ncz >= 1
      modifies this`baseAtoms, this`atoms, this`lenA, this`lenB, this`lenC, this`sizeX, this`sizeY, this`sizeZ
      ensures baseAtoms == if inp.handleVacancies then sorted else old(baseAtoms)
      ensures Boxed(bi) ==> (exited <==> !bi.einstein && |baseAtoms| > 0 && CellsNonEmpty(bi))
      ensures Boxed(bi) && !exited ==>
        atoms == BoxedAtoms(baseAtoms, bi) && sizeX == 0.0 && sizeY == 0.0 && sizeZ == 0.0
      ensures Boxed(bi) && !exited ==> lenA == bi.cube.x && lenB == bi.cube.y && lenC == bi.cube.z
      ensures !Boxed(bi) ==> !exited && Finished(atoms, baseAtoms, g, inp)
      ensures !Boxed(bi) ==> Vec3(sizeX, sizeY, sizeZ) == Extent(SuperBox(g))
    {
      atoms := Resize(atoms, |baseAtoms| * g.ncx * g.ncy * g.ncz);
      if inp.handleVacancies {
        baseAtoms := sorted;
      }
      if Boxed(bi) {
        exited := BoxedBranch(bi);
      } else {
        exited := false;
        NCellBranch(g, inp);
      }
    }

    /** The boxed branch of MakeCrystal: TiltBoxed, then sizes 0 unless it
        exited. */
    method BoxedBranch(bi: BoxedInputs) returns (exited: bool)
      modifies this`atoms, this`lenA, this`lenB, this`lenC, this`sizeX, this`sizeY, this`sizeZ
      ensures exited <==> !bi.einstein && |baseAtoms| > 0 && CellsNonEmpty(bi)
      ensures !exited ==>
        atoms == BoxedAtoms(baseAtoms, bi) && sizeX == 0.0 && sizeY == 0.0 && sizeZ == 0.0 &&
        lenA == bi.cube.x && lenB == bi.cube.y && lenC == bi.cube.z
    {
      exited := TiltBoxed(bi);
      if !exited {
        sizeX, sizeY, sizeZ := 0.0, 0.0, 0.0;
      }
    }

    /** The NCell branch of MakeCrystal: replicate, run the per-atom passes
        and take the extent of the super-cell box as the sizes. */
    method NCellBranch(g: Geometry, inp: ReplicaInputs)
      requires g.ncx >= 1 && g.ncy >= 1 && g.ncz >= 1
      modifies this`atoms, this`sizeX, this`sizeY, this`sizeZ
      ensures Finished(atoms, baseAtoms, g, inp)
      ensures Vec3(sizeX, sizeY, sizeZ) == Extent(SuperBox(g))
    {
      ReplicateAndFinish(g, inp);
      SuperCellSizes(g);
    }

    /** The atoms of the NCell branch: every slot holds its replica after
        the per-atom passes. */
    method ReplicateAndFinish(g: Geometry, inp: ReplicaInputs)
      modifies this`atoms
      ensures Finished(atoms, baseAtoms, g, inp)
    {
      ReplicateUnitCell(g.ncx, g.ncy, g.ncz, inp);
      ghost var replicated := atoms;
      FinishCells(g, inp);
      ghost var d := Dims(g.ncx, g.ncy, g.ncz, |baseAtoms|);
      forall c, k | ValidCell(d, c) && 0 <= k < |baseAtoms|
        ensures 0 <= Slot(d, c, k) < |atoms| && atoms[Slot(d, c, k)] == Finish(g, Replica(baseAtoms, inp, c, k))
      {
        assert replicated[Slot(d, c, k)] == Replica(baseAtoms, inp, c, k);
      }
      assert |atoms| == g.ncx * g.ncy * g.ncz * |baseAtoms|;
    }

    /** The sizes of the NCell branch: the extent of the super-cell box. */
    method SuperCellSizes(g: Geometry)
      requires g.ncx >= 1 && g.ncy >= 1 && g.ncz >= 1
      modifies this`sizeX, this`sizeY, this`sizeZ
      ensures Vec3(sizeX, sizeY, sizeZ) == Extent(SuperBox(g))
    {
      var e := SuperCellExtent(g);
      sizeX, sizeY, sizeZ := e.x, e.y, e.z;
      assert Vec3(sizeX, sizeY, sizeZ) == e;
    }

    /** The per-atom passes of the NCell branch after replication. */
    method FinishCells(g: Geometry, inp: ReplicaInputs)
      modifies this`atoms
      ensures |atoms| == |old(atoms)|
      ensures forall j :: 0 <= j < |atoms| ==> atoms[j] == Finish(g, old(atoms[j]))
    {
      ghost var s0 := atoms;
      Transform(a => ToCartesianStep(g, a));
      ghost var s1 := atoms;
      if g.tilted {
        Transform(a => TiltStep(g, a));
      }
      ghost var s2 := atoms;
      Transform(a => RebaseStep(g, a));
      ghost var s3 := atoms;
      if g.xOffset != 0.0 || g.yOffset != 0.0 {
        Transform(a => OffsetStep(g, a));
      }
      forall j | 0 <= j < |atoms|
        ensures atoms[j] == Finish(g, s0[j])
      {
        assert s1[j] == ToCartesianStep(g, s0[j]);
        assert s2[j] == TiltStep(g, s1[j]);
        assert s3[j] == RebaseStep(g, s2[j]);
      }
    }
  }
}
