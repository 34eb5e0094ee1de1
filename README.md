# QSTEM multislice core, modelled in Dafny

This project models the core of QSTEM, a multislice simulator of scanning
transmission electron microscopy. It covers the path from a crystal
description to a propagated electron wave:

- **Crystal** (`crystal.dfy`, `occupancy.dfy`, `layout.dfy`, `atoms.dfy`):
  `CCrystal` replicates the unit cell into a super-cell (`ReplicateUnitCell`)
  and draws one atom per shared site by occupancy. It cuts a tilted crystal
  to a box (`TiltBoxed`), computes the crystal's boundaries and centres it
  (`CalculateCrystalBoundaries`, `OffsetCenter`). It also orders atoms by
  species or position.
- **Phonons** (`phonon.dfy`): the binary phonon file holds a header, the
  masses and, per k-point, its branches. The model states this layout as
  an encoder with a decoder proved to be its inverse. It also covers the
  conversion of each branch's frequency into a vibration amplitude.
- **Potentials** (`scattering.dfy`, `lut.dfy`, `stamp.dfy`, `pot3d.dfy`,
  `pot2d.dfy`, `realspace.dfy`): `C3DFFTPotential` and `C2DFFTPotential`
  size the per-element potential tables and clamp the scattering-factor
  tail at the cutoff. They build each table from its reciprocal-space
  disc and add every atom to the slice stack `m_trans1`, in the clipped or
  the periodic mode. `RealSpacePotential::AddAtomRealSpace` walks the
  pixels within the atom radius.
- **Waves** (`wave.dfy`, `probe.dfy`): `CBaseWave` holds the wave, its
  space flag, the squared frequencies and the diffraction pattern.
  `CConvergentWave::FormProbe` draws the aperture with its aberration
  phase and applies the Gaussian and AIS damping. It then normalises the
  probe to unit intensity and records its range.
- **Experiment** (`experiment.dfy`): `CExperimentBase` chooses the slicing
  and the sampling from the configuration. Its multislice loop transmits,
  transforms, propagates, transforms back and normalises, slice by slice.
  It also writes interim waves and averages diffraction patterns.

Numbers are exact reals and unbounded integers. The model writes out
32-bit unsigned wrap-around wherever the C++ relies on it, as well as the
truncating casts and `rint`. Transcendental functions, square roots, the
FFT, spline evaluation and the random-number generators are parameters of
the model, given as function values. Where the model needs a property of
one of them, a predicate on that parameter states it (for example
`sin² + cos² = 1`).

Each operation that changes state in place is a method on a class or an
array. Each such method is proved against a function of the old state,
and lemmas state what those functions mean.

Where the code disagrees with its evident intent, the model follows the
code in an "as written" member. It proves the discrepancy on a named
input, and the rest of the model uses a corrected member (see Findings).

## Model

| member | source | states |
|---|---|---|
| Atoms.CompareCoord | libs/crystal.cpp:1062 | the three-way coordinate test is 0, 1 or -1 exactly when the two values are equal, the first is larger, or the first is smaller |
| Atoms.CompareZnum | libs/crystal.cpp:1043-1053 | 0 exactly on equal atomic numbers, -1 exactly when the first atom is heavier, 1 exactly when it is lighter (heavier atoms first) |
| Atoms.CompareZYX | libs/crystal.cpp:1055-1071 | 0 exactly when (z, y, x) agree, -1 and 1 exactly when the first key is below or above the second in ascending lexicographic (z, y, x) order |
| Atoms.CompareAntisymmetric | libs/crystal.cpp:1043-1071 | swapping the arguments negates both comparators |
| Atoms.CompareTransitive | libs/crystal.cpp:1043-1071 | both comparators are transitive, so they are total preorders fit for qsort |
| Atoms.SortedKeepsEqualKeysTogether | libs/crystal.cpp:244-246 | after the (z, y, x) sort, atoms at one site are contiguous, which the grouping scans rely on |
| CellLayout.CellIndexDigits | libs/crystal.cpp:715-716 | jCell / nbase = icz + icy·ncz + icx·ncy·ncz is the mixed-radix number (icx, icy, icz) |
| CellLayout.CellIndexInRange | libs/crystal.cpp:712-716 | every valid cell index lies in [0, ncx·ncy·ncz) |
| CellLayout.SlotInRange | libs/crystal.cpp:680-717 | every slot jCell + i of a valid cell and base atom lies inside the resized vector |
| CellLayout.SlotDecode | libs/crystal.cpp:715-717 | the slot determines its cell and base atom (injective) |
| CellLayout.SlotEncode | libs/crystal.cpp:680-717 | every slot of the resized vector is the slot of some valid cell and base atom (onto) |
| CellLayout.SlotBijection | libs/crystal.cpp:680-717 | slot (icz + icy·ncz + icx·ncy·ncz)·nbase + i is a bijection from (cell, base atom) onto [0, ncx·ncy·ncz·nbase) |
| Occupancy.ScanDown | libs/crystal.cpp:690-699 | the downward jequal scan stops at the first entry not within 1e-6 of entry i on all three axes; every entry it passes coincides with i |
| Occupancy.GroupEnd | libs/crystal.cpp:688-703 | a coincidence group is the maximal downward run of entries coinciding with its head; without vacancy handling or for Znum ≤ 0 it is the head alone |
| Occupancy.GroupOcc | libs/crystal.cpp:688-703 | definition of totalOccupancy: the sum of the group's occupancies, or 1 when the group is not scanned; DecideFacts and ScaledChoiceRange use it to place the choice |
| Occupancy.ScaledChoiceRange | libs/crystal.cpp:733-736 | for a total of at least 1 the scaled choice lies in [0, total); below 1 the deviate is used as is |
| Occupancy.Chosen | libs/crystal.cpp:739-756 | jChoice is the head or a member whose interval [lastOcc, lastOcc + occ) holds the choice |
| Occupancy.VacCount | libs/crystal.cpp:747-751 | the walk makes at most one vacancy per member |
| Occupancy.SumOccMonotone | libs/crystal.cpp:738-755 | with non-negative occupancies, lastOcc only grows along the walk |
| Occupancy.KeptBlocksBelow | libs/crystal.cpp:747-748 | a member below a surviving one cannot survive: consecutive occupancy intervals do not overlap |
| Occupancy.KeptUnique | libs/crystal.cpp:747-748 | at most one member of a group survives a given choice |
| Occupancy.KeptExistsFrom | libs/crystal.cpp:738-755 | a choice below the occupancy summed so far is held by one of the members walked so far |
| Occupancy.ChosenIsLowestKept | libs/crystal.cpp:739-756 | jChoice names the surviving member |
| Occupancy.VacCountNoneKept | libs/crystal.cpp:739-756 | when no member holds the choice, every member becomes a vacancy and jChoice stays at the head |
| Occupancy.VacCountOneKept | libs/crystal.cpp:739-756 | when one member holds the choice, all the others become vacancies |
| Occupancy.ExactlyOneSurvives | libs/crystal.cpp:728-756 | for a choice in [0, totalOccupancy) exactly one member keeps its Znum, jChoice names it, and jVac grows by group size − 1 |
| Occupancy.AllVacant | libs/crystal.cpp:728-756 | for a choice at or above the total (total below 1) every member becomes a vacancy, jVac grows by the group size, and jChoice stays at the head |
| Occupancy.ScanUp | libs/crystal.cpp:524-533 | the forward jequal scan of TiltBoxed stops at the first entry not within 1e-6 of entry iatom |
| Occupancy.GroupEndFwd | libs/crystal.cpp:522-537 | the forward group is the maximal upward run of coinciding entries, or the single entry without vacancy handling or for Znum ≤ 0 |
| Occupancy.GroupOccFwd | libs/crystal.cpp:522-537 | totOcc is the group's summed occupancy, or 1 when not scanned |
| Occupancy.ChosenFwd | libs/crystal.cpp:566-580 | the forward jChoice is iatom or a member whose interval holds the choice |
| Occupancy.SumOccSplit | libs/crystal.cpp:566-580 | lastOcc accumulates: the occupancy of a range is the sum over any split of it |
| Occupancy.KeptFwdBlocksAbove | libs/crystal.cpp:571-572 | forward intervals are disjoint: a member above a survivor cannot survive |
| Occupancy.KeptFwdExistsBelow | libs/crystal.cpp:566-580 | a choice below the occupancy walked so far is held by a member walked so far |
| Occupancy.ExactlyOneSurvivesFwd | libs/crystal.cpp:556-581 | in TiltBoxed a choice in [0, totOcc) is held by exactly one group member, and jChoice names it |
| Occupancy.ChosenFwdIsHighestKept | libs/crystal.cpp:566-580 | the forward jChoice is the surviving member |
| Crystal.Resize | libs/crystal.cpp:680 | std::vector::resize keeps the first n entries and pads with default atoms, giving exactly n entries |
| Crystal.HeadOf | libs/crystal.cpp:685-772 | walking the groups down from the top, each base atom belongs to a group head at or above it whose group reaches down past it |
| Crystal.HeadAdvance | libs/crystal.cpp:771 | after `i = jequal` the walk continues from the group end and assigns the same heads below it |
| Crystal.Head | libs/crystal.cpp:685-772 | every base atom has a group head at or above it whose group covers it |
| Crystal.Decide | libs/crystal.cpp:727-736 | the chosen member of a site lies inside the head's group |
| Crystal.DecideFacts | libs/crystal.cpp:727-756 | unfolds the definition of the per-group decision (a choice is drawn exactly when totalOccupancy < 1 or the group has several members, scaled by the total when it is at least 1); its meaning, that exactly one member survives, is proved in ExactlyOneSurvivesFwd |
| Crystal.ReplicaOfGroup | libs/crystal.cpp:719-767 | the replica a slot ends with is fixed by its group's decision in that cell |
| Crystal.FillStep | libs/crystal.cpp:714-768 | writing one cell's group slots extends the set of finished slots by that cell, leaving the others alone |
| Crystal.CarryZ | libs/crystal.cpp:714 | leaving the icz loop moves to the next icy row without losing finished slots |
| Crystal.CarryY | libs/crystal.cpp:713 | leaving the icy loop moves to the next icx plane without losing finished slots |
| Crystal.CarryGroup | libs/crystal.cpp:712-772 | once every cell has the group, the walk moves on to the next group, headed by jequal |
| Crystal.FilledAll | libs/crystal.cpp:685-772 | when the walk is done, every slot of every valid cell holds its replica |
| Crystal.Replica | libs/crystal.cpp:665-775 | definition of the atom a slot should hold after replication; FilledAll and ReplicateUnitCell prove every slot holds it |
| Crystal.ScanGroup | libs/crystal.cpp:688-703 | the jequal loop returns the group end and the summed occupancy of the group headed by i |
| Crystal.PlaceholderGroupingKeepsBoth | libs/crystal.cpp:688-696 | as written, grouping reads the freshly resized m_atoms: two atoms sharing a site, occupancy 0.5 each, both keep their Znum in every cell, whatever the draw |
| Crystal.ReplicaAsWritten | libs/crystal.cpp:688-696 | definition of a slot's atom as written, with grouping read from the resized vector; PlaceholderGroupingKeepsBoth proves both atoms of a shared site survive |
| Crystal.SharedSiteOneSurvives | libs/crystal.cpp:688-756 | grouping over the base atoms, the same shared site keeps exactly one atom for any deviate in [0, 1) |
| Crystal.OverlayAsWritten | libs/crystal.cpp:539-637 | with the count reset for every group, each group writes its atoms over the start of the buffer; the buffer keeps its length |
| Crystal.BoxedAtomsAsWritten | libs/crystal.cpp:503-647 | TiltBoxed as written leaves a vector of the buffer's length |
| Crystal.ShadowedCountLosesGroups | libs/crystal.cpp:539 | two groups each keeping one atom: as written the second overwrites the first (slot 0 holds b), while one running count keeps [a, b] |
| Crystal.Positions | libs/crystal.cpp:86-118 | definition of the atoms' positions, one per atom, in order; CalculateCrystalBoundaries and WidenedAttained prove the bounds are their tight box |
| Crystal.CandidateInBox | libs/crystal.cpp:622-624 | without TDS, the atom a cell contributes (if any) lies in [0,cubex]×[0,cubey]×[0,cubez] |
| Crystal.EmitZInBox | libs/crystal.cpp:544-643 | the iz loop keeps only in-box atoms when TDS is off |
| Crystal.EmitYInBox | libs/crystal.cpp:543-644 | the iy loop keeps only in-box atoms when TDS is off |
| Crystal.EmitXInBox | libs/crystal.cpp:542-645 | the ix loop keeps only in-box atoms when TDS is off |
| Crystal.GroupOutputsInBox | libs/crystal.cpp:503-647 | all groups together keep only in-box atoms when TDS is off |
| Crystal.BoxedAtomsInBox | libs/crystal.cpp:622-637 | boxed mode keeps only atoms whose position lies in [0,cubex]×[0,cubey]×[0,cubez] (TDS off) |
| Crystal.BoxedAtoms | libs/crystal.cpp:539-637 | definition of the atoms boxed mode keeps with one running count; BoxedAtomsInBox and BoxedAtomsFromBase give its meaning |
| Crystal.FromBaseConcat | libs/crystal.cpp:631-634 | concatenating atom lists whose species data come from base atoms keeps that property |
| Crystal.EmitZFromBase | libs/crystal.cpp:631-634 | the iz loop copies dw, occ, q and Znum from a base atom |
| Crystal.EmitYFromBase | libs/crystal.cpp:631-634 | the iy loop copies dw, occ, q and Znum from a base atom |
| Crystal.EmitXFromBase | libs/crystal.cpp:631-634 | the ix loop copies dw, occ, q and Znum from a base atom |
| Crystal.GroupOutputsFromBase | libs/crystal.cpp:503-647 | every group's atoms take their species data from a base atom |
| Crystal.BoxedAtomsFromBase | libs/crystal.cpp:631-634 | every atom TiltBoxed keeps carries the dw, occ, q and Znum of a base atom |
| Crystal.ScanGroupFwd | libs/crystal.cpp:522-537 | the forward jequal loop returns the group end and its summed occupancy |
| Crystal.WalkGroupFwd | libs/crystal.cpp:566-580 | the forward member walk returns the member whose interval holds the choice, or iatom |
| Crystal.BoxedChoice | libs/crystal.cpp:555-581 | a choice is drawn only when totOcc < 1 or the group has several members; jChoice is then the member holding it, else iatom |
| Crystal.BoxedSite | libs/crystal.cpp:546-642 | one pass of the iz body yields exactly the box-filtered candidate atom of that cell |
| Crystal.EmitRow | libs/crystal.cpp:544-643 | the iz loop yields the included atoms of cells iz = nzmin..nzmax in order |
| Crystal.EmitPlane | libs/crystal.cpp:543-644 | the iy loop yields the included atoms of its rows in order |
| Crystal.EmitGroup | libs/crystal.cpp:542-645 | the ix loop yields all included copies of one group in (ix, iy, iz) order |
| Crystal.Wrap | libs/crystal.cpp:194-208 | a shifted coordinate is folded back by at most one cell length, and lands in [0, a] whenever it started in [−a, 2a] |
| Crystal.Corners | libs/crystal.cpp:301-303 | the corner loop visits eight corners |
| Crystal.Grow | libs/crystal.cpp:89-117 | one atom's update leaves bounds that enclose it and contain the old bounds; each bound either stays or becomes the atom's coordinate |
| Crystal.Widened | libs/crystal.cpp:86-119 | after the loop the bounds enclose every atom and contain their previous values |
| Crystal.WidenedAttained | libs/crystal.cpp:86-119 | each final bound is its previous value or is attained by some atom |
| Crystal.SpanOfTight | libs/crystal.cpp:313-324 | the super-cell box started at the first corner encloses every corner and each of its six bounds is attained by a corner |
| Crystal.RebasedInsideSize | libs/crystal.cpp:348-369 | sizes boxXmax − boxXmin etc. are non-negative, and corners rebased by the box minimum lie in [0, size] |
| Crystal.CornerPoints | libs/crystal.cpp:301-328 | the corner loop produces eight positions |
| Crystal.FinishMovesOnly | libs/crystal.cpp:266-363 | the NCell passes move atoms without touching dw, occ, q or Znum; without tilt or offset an atom ends at its cartesian position less the box minimum |
| Crystal.SuperCellBox | libs/crystal.cpp:288-328 | for cell counts of at least 1, the corner loop computes the tight box of the eight (tilted) corner positions |
| Crystal.SuperCellExtent | libs/crystal.cpp:288-369 | for cell counts of at least 1, the super-cell sizes are the extent of the tight box of the eight corners |
| Crystal.Centered | libs/crystal.cpp:193-209 | OffsetCenter moves atoms and keeps their dw, occ, q and Znum |
| Crystal.CenterLands | libs/crystal.cpp:190-192 | the centre atom itself ends at (ax/2, by/2, 0) |
| Crystal.CenteredStaysInCell | libs/crystal.cpp:190-209 | atoms inside the cell stay inside [0, ax]×[0, by]×[0, cz] after OffsetCenter |
| Crystal.Crystal.constructor | libs/crystal.cpp:214-231 | a crystal with its base atoms and cell lengths, no atoms yet, zero bounds |
| Crystal.Crystal.StampSite | libs/crystal.cpp:719-756 | one cell's group slots get the species data of their base atoms, only the chosen member keeps its Znum, other slots are unchanged, and the vacancy count is returned |
| Crystal.Crystal.WalkGroup | libs/crystal.cpp:738-756 | the member walk stamps each member, zeroes Znum outside the chosen interval, returns jChoice and the vacancies made, and touches only the group's slots |
| Crystal.Crystal.WalkMember | libs/crystal.cpp:738-756 | one step of the member walk keeps the walk invariant: the member is stamped with its Znum when its occupancy interval holds the choice and with 0 otherwise, and the vacancy count grows by the vacancies made |
| Crystal.Crystal.FillSite | libs/crystal.cpp:719-767 | after one pass for a cell, every slot of the group holds its replica and only those slots changed |
| Crystal.Crystal.PlaceSite | libs/crystal.cpp:761-767 | each member's slot gets base position + (icx, icy, icz) + u, the survivor's displacement |
| Crystal.Crystal.FillColumn | libs/crystal.cpp:714-768 | the icz loop fills the group's slots in every cell of one (icx, icy) column |
| Crystal.Crystal.FillGroup | libs/crystal.cpp:712-770 | the icx and icy loops fill the group's slots in every cell |
| Crystal.Crystal.ReplicateUnitCell | libs/crystal.cpp:665-775 | m_atoms holds ncx·ncy·ncz·nbase atoms and slot (cell, i) holds base atom i placed in that cell, displaced by its group survivor's u, with Znum 0 unless it survived the occupancy choice |
| Crystal.Crystal.ReplicateGroups | libs/crystal.cpp:685-772 | the jequal loop, from the top base atom down, leaves every slot of every cell holding its replica (FilledAll) and keeps the vector's size |
| Crystal.Crystal.ReplicateGroup | libs/crystal.cpp:685-772 | one pass of the jequal loop fills the group headed by i in every cell and moves the walk to a lower head, keeping the loop invariant |
| Crystal.Crystal.CalculateCrystalBoundaries | libs/crystal.cpp:83-122 | the new bounds are the old bounds widened by every atom position in order |
| Crystal.Crystal.WidenBy | libs/crystal.cpp:89-117 | the six bound updates for one atom |
| Crystal.Crystal.OffsetCenter | libs/crystal.cpp:184-210 | every atom is shifted so the centre atom moves to (ax/2, by/2, 0), then folded back into the cell axis by axis |
| Crystal.Crystal.Transform | libs/crystal.cpp:270-282 | one pass over the atom vector rewrites every atom by the pass's map |
| Crystal.Crystal.TiltBoxed | libs/crystal.cpp:389-654 | boxed mode exits exactly when the displacement mode is not Einstein and the loops would run; otherwise the atoms are every group's box-filtered candidates in order and the cell lengths become the cube |
| Crystal.Crystal.MakeCrystal | libs/crystal.cpp:214-372 | base atoms sorted by (z, y, x) when handling vacancies; boxed branch as TiltBoxed with sizes 0 and the cell lengths set to the cube; NCell branch (cell counts of at least 1) gives ncx·ncy·ncz·nbase replicas, each finished by the cartesian, tilt, rebase and offset passes, and sizes equal to the super-cell box |
| Crystal.Crystal.BoxedBranch | libs/crystal.cpp:254-368 | the boxed branch (TiltBoxed, then the sizes from the untouched zero box bounds) exits exactly when TiltBoxed does; otherwise the atoms are TiltBoxed's, the sizes are 0 and the cell lengths are the cube |
| Crystal.Crystal.FinishCells | libs/crystal.cpp:266-363 | the NCell passes applied to every atom |
| Crystal.Finish | libs/crystal.cpp:266-363 | definition of the NCell passes applied to one atom; FinishCells and NCellBranch prove every slot gets it |
| Crystal.Crystal.NCellBranch | libs/crystal.cpp:260-369 | for cell counts of at least 1, the NCell branch leaves every slot holding its finished replica and the sizes equal to the super-cell box |
| Crystal.Crystal.ReplicateAndFinish | libs/crystal.cpp:260-363 | after replication and the per-atom passes every slot holds its finished replica |
| Crystal.Crystal.SuperCellSizes | libs/crystal.cpp:288-369 | for cell counts of at least 1, _sizeX, _sizeY, _sizeZ are the extent of the tight box of the eight corners |
| PhononFile.Int32Of | libs/crystal.cpp:924-925 | a header word read as a 32-bit `int` lies in [−2^31, 2^31) and is non-negative exactly when its top bit is clear |
| PhononFile.Int32RoundTrip | libs/crystal.cpp:924-925 | reading back a written 32-bit `int` gives it again, and writing back a read word gives the word |
| PhononFile.Take | libs/crystal.cpp:924-938 | an fread of n words succeeds exactly when n words remain, and splits the stream into those words and the rest |
| PhononFile.BranchRoundTrip | libs/crystal.cpp:937-938 | a branch (one omega word, 3·Ns complex values) reads back as written |
| PhononFile.BranchesRoundTrip | libs/crystal.cpp:936-939 | the 3·Ns branches of a k-point read back as written |
| PhononFile.KPointRoundTrip | libs/crystal.cpp:935-939 | a k-point (3 words, then its branches) reads back as written |
| PhononFile.KPointsRoundTrip | libs/crystal.cpp:934-940 | the Nk k-points read back as written |
| PhononFile.DecodeEncode | libs/crystal.cpp:924-940 | decoding the words of a well-formed table gives the table back, whatever follows it |
| PhononFile.Decode | libs/crystal.cpp:918-940 | definition of the table a word stream holds, none when the stream is too short or a count is negative; DecodeEncode and EncodeDecode tie it to Encode |
| PhononFile.Encode | libs/crystal.cpp:886-907 | definition of the word layout of a table; DecodeEncode and EncodeDecode prove it is Decode's inverse |
| PhononFile.BranchPrefix | libs/crystal.cpp:937-938 | a branch that reads is well formed and its encoding is the front of the stream |
| PhononFile.BranchesPrefix | libs/crystal.cpp:936-939 | n branches that read are well formed and their encoding is the front of the stream |
| PhononFile.KPointPrefix | libs/crystal.cpp:935-939 | a k-point that reads is well formed and its encoding is the front of the stream |
| PhononFile.KPointsPrefix | libs/crystal.cpp:934-940 | Nk k-points that read are well formed and their encoding is the front of the stream |
| PhononFile.EncodeDecode | libs/crystal.cpp:924-940 | a decoded table is well formed and writing it back gives the front of the stream |
| PhononFile.BranchesLength | libs/crystal.cpp:936-939 | n branches take n·(1 + 6·Ns) words |
| PhononFile.KPointsLength | libs/crystal.cpp:934-940 | Nk k-points take Nk·(3 + 3·Ns·(1 + 6·Ns)) words |
| PhononFile.EncodedLength | libs/crystal.cpp:924-940 | a table takes 2 + Ns + Nk·(3 + 3·Ns·(1 + 6·Ns)) 32-bit words |
| PhononFile.DecodeSucceedsIff | libs/crystal.cpp:924-940 | with non-negative counts, a stream decodes exactly when it holds at least that many words |
| PhononFile.TimesIsProduct | libs/crystal.cpp:934 | the repeated-addition count is the product |
| PhononFile.WordCountTimes | libs/crystal.cpp:924-940 | the word count is the header, the masses and Nk k-point records |
| PhononFile.ShapedTable | libs/crystal.cpp:924-940 | any stream long enough for its counts holds a well-formed table with those counts |
| PhononFile.ShapedTableEncodes | libs/crystal.cpp:924-940 | that table's encoding is the front of the stream |
| PhononFile.ShapedBranch | libs/crystal.cpp:937-938 | any 1 + 6·Ns words are the encoding of a branch |
| PhononFile.ShapedBranches | libs/crystal.cpp:936-939 | any n·(1 + 6·Ns) words are the encoding of n branches |
| PhononFile.ShapedKPoint | libs/crystal.cpp:935-939 | any 3 + 3·Ns·(1 + 6·Ns) words are the encoding of a k-point |
| PhononFile.ShapedKPoints | libs/crystal.cpp:934-940 | any Nk k-point records' worth of words are the encoding of Nk k-points |
| PhononFile.Amplitude | libs/crystal.cpp:952-971 | a branch with omega ≤ 1e-4 gets amplitude 0 |
| PhononFile.AmplitudeZeroIff | libs/crystal.cpp:952-971 | for a positive mass and Nk > 0, the amplitude is 0 exactly when omega ≤ 1e-4, and it is never negative |
| PhononFile.LoadOmega | libs/crystal.cpp:929-940 | row ix of the Nk × 3·Ns frequency array holds the 3·Ns branch frequencies of k-point ix, in file order |
| PhononFile.ToAmplitudes | libs/crystal.cpp:944-978 | every frequency in column iy + 3·idd becomes the amplitude for species idd's mass |
| PhononFile.AmplitudeRow | libs/crystal.cpp:945-976 | one k-point's row is converted and the other rows are unchanged |
| PotentialGrid.LutWidthFacts | libs/potentials/pot_3d_fft.cpp:343-344 | the table width 2·OVERSAMPLING·ceil(R/dx) is a positive multiple of four and, at spacing dx/OVERSAMPLING, spans at least the atom's diameter |
| PotentialGrid.CutoffIsQuarterOverD | libs/potentials/pot_3d_fft.cpp:361-363 | dkx = 0.5·OVERSAMPLING/(nx·dx) is positive and kmax = 0.5·nx·dkx/OVERSAMPLING is 1/(4·dx), whatever nx |
| PotentialGrid.MakeOdd | libs/potentials/pot_3d_fft.cpp:351-354 | nzPerSlice comes out odd: unchanged when odd, one more when even |
| PotentialGrid.FreqIndexFacts | libs/potentials/pot_3d_fft.cpp:459-466 | the signed index (i < n/2 ? i : i − n) lies in [n/2 − n, n/2), is congruent to i mod n, and is non-negative exactly when i < n/2 |
| PotentialGrid.MirrorIsMagnitude | libs/potentials/pot_2d_fft.cpp:197-200 | the mirrored index (i < n/2 ? i : n − i) is the magnitude of the signed index, so it is never negative and at most (n+1)/2 |
| PotentialGrid.FlatIndex | libs/potentials/pot_3d_fft.cpp:543 | the table index ix + iz·(nx/2) gives back ix and iz |
| PotentialGrid.FlatIndexInRange | libs/potentials/pot_3d_fft.cpp:540-543 | every table index lies in [0, (nx/2)·(nz/2)) |
| PotentialGrid.FlatIndexCovers | libs/potentials/pot_3d_fft.cpp:540-543 | every entry of the table is written by some (ix, iz) |
| PotentialGrid.FlatIndexInjective | libs/potentials/pot_3d_fft.cpp:540-543 | no entry is written by two (ix, iz) pairs |
| ScatteringTail.WalkEnd | libs/potentials/pot_3d_fft.cpp:375-380 | the backward walk stops at an index between its start and its bound N_SF − 10 |
| ScatteringTail.Stop | libs/potentials/pot_3d_fft.cpp:370-391 | the walk lowers at most N_SF − 10 entries |
| ScatteringTail.Row0 | libs/potentials/pot_3d_fft.cpp:366-378 | definition of the grid row scatPar[0] as a sequence; ClampTail, NoOvershootNoWalk and TailIncreasing state what the clamp does to it |
| ScatteringTail.WalkEndPassed | libs/potentials/pot_3d_fft.cpp:376-378 | every entry the walk passes was not below kmax − 0.001·(ix+1) |
| ScatteringTail.WalkEndStops | libs/potentials/pot_3d_fft.cpp:376-377 | the walk stops at the first entry below its target, unless it reached N_SF − 10 |
| ScatteringTail.ClampLowers | libs/potentials/pot_3d_fft.cpp:378 | each rewritten grid entry was at or above the value it gets |
| ScatteringTail.NoOvershootNoWalk | libs/potentials/pot_3d_fft.cpp:371 | unless entry N_SF − 4 exceeds kmax, nothing below the three pinned entries changes |
| ScatteringTail.TailIncreasing | libs/potentials/pot_3d_fft.cpp:366-380 | from the walk's stop to the end, the adjusted grid is strictly increasing |
| ScatteringTail.WalkStopsBelow | libs/potentials/pot_3d_fft.cpp:376-377 | where the walk stopped early, the entry it stopped at lies below the first lowered one |
| ScatteringTail.ClampTail | libs/potentials/pot_3d_fft.cpp:366-391 | in place: the last three grid entries become kmax, 1.1·kmax and 1.2·kmax; walking back, entries not below kmax − 0.001·(ix+1) take that value and their element rows become 0; nothing else changes |
| ScatteringTail.LowerTail | libs/potentials/pot_3d_fft.cpp:375-380 | the backward walk stops where WalkEnd says; the entries it passes are lowered onto kmax − 0.001·(ix+1), their factors become 0, and no other entry changes |
| ScatteringTail.ZeroFactors | libs/potentials/pot_3d_fft.cpp:379 | one column of every element row (rows 1 and up) becomes 0, all else unchanged |
| SliceStamp.AxisBijection | libs/potentials/pot_3d_fft.cpp:312 | within a box range, the column-to-pixel map (wrapped as (i + n) % n, or as is when clipped) lands in the grid and is inverted by its source map |
| SliceStamp.RingAt | libs/potentials/pot_3d_fft.cpp:94-100 | a column is used only when its radial index ir is below nRadius − 1, and then its fraction lies in [0, 1) |
| SliceStamp.StampedOutsideUnchanged | libs/potentials/pot_3d_fft.cpp:83-175 | pixels outside the box, the slice range or the table's radial reach keep their value |
| SliceStamp.StampedInside | libs/potentials/pot_3d_fft.cpp:113-170 | a pixel inside gets the table interpolated linearly in r at its slice's layer offset, added to its real part |
| SliceStamp.Stamped | libs/potentials/pot_3d_fft.cpp:113-170 | definition of a pixel's new value under an atom's stamp; StampedInside and StampedOutsideUnchanged give its meaning |
| SliceStamp.StampedRaises | libs/potentials/pot_3d_fft.cpp:154-167 | with a non-negative table, adding an atom never lowers the real part and never touches the imaginary part |
| SliceStamp.Interpolation | libs/potentials/pot_3d_fft.cpp:154 | (1 − ddr)·a + ddr·b with ddr in [0, 1) lies between a and b |
| SliceStamp.Column | libs/potentials/pot_3d_fft.cpp:90-171 | one pixel column (iax, iay) is deposited into its slices when it lies inside the table's reach; every other pixel is unchanged |
| SliceStamp.ColumnSlices | libs/potentials/pot_3d_fft.cpp:113-170 | the iaz loop adds the layer values to the slices of one pixel and nothing else |
| SliceStamp.Row | libs/potentials/pot_3d_fft.cpp:90-172 | the iay loop deposits all columns of box row iax |
| SliceStamp.Box | libs/potentials/pot_3d_fft.cpp:83-175 | the iax loop deposits the whole box: every pixel ends as the stamp function of its old value |
| Potential3D.Geometry | libs/potentials/pot_3d_fft.cpp:343-362 | nx = 2·OVERSAMPLING·ceil(R/dx) (likewise ny), nzPerSlice odd, nz = 2·ceil(R/dz)·nzPerSlice, giving a table shape the rest relies on |
| Potential3D.KmaxIsQuarterOverDx | libs/potentials/pot_3d_fft.cpp:361-363 | the cutoff kmax is 1/(4·dx) whatever the atom radius |
| Potential3D.DiscSumBeyond | libs/potentials/pot_3d_fft.cpp:476-486 | once a qy term reaches kmax², all later terms lie outside the disc too |
| Potential3D.QySumIsDiscSum | libs/potentials/pot_3d_fft.cpp:476-486 | stopping the qy sum at the first term at or beyond kmax² loses nothing: it equals the sum over the whole disc |
| Potential3D.RecipGrid | libs/potentials/pot_3d_fft.cpp:459-499 | the reciprocal-space map is nx by nz |
| Potential3D.RecipOutsideDiscIsZero | libs/potentials/pot_3d_fft.cpp:466-469 | bins with kx² + kz² ≥ kmax² stay zero |
| Potential3D.TableSize | libs/potentials/pot_3d_fft.cpp:440 | the table's nx·nz/4 entries are exactly (nx/2)·(nz/2) |
| Potential3D.TableNonNegative | libs/potentials/pot_3d_fft.cpp:540-566 | every entry of the 3D table is non-negative: the clamped layer sum times a positive constant |
| Potential3D.SliceRangeInStack | libs/potentials/pot_3d_fft.cpp:58-64 | the clipped slice range keeps iAtomZ + iaz inside [0, nslices − 1], and holds the atom's own slice when it is in the stack |
| Potential3D.RecomputedSizes | libs/potentials/pot_3d_fft.cpp:49-52 | nRadius, nzSub and Nz_lut recomputed by the add functions are nx/2, nzPerSlice and nz/2 of the table |
| Potential3D.NonPeriodicStamp | libs/potentials/pot_3d_fft.cpp:43-178 | the clipped mode's box, for a grid nx by ny, keeps 0 ≤ xstart ≤ xend ≤ nx − 1 (likewise y) and its slices inside the stack, or adds nothing |
| Potential3D.ClipByTableWidth | libs/potentials/pot_3d_fft.cpp:53-62 | as written the box is clipped to the table's width, stored in m_nx by SliceSetup: an atom whose box starts at or past that width adds nothing, wherever it is on the image |
| Potential3D.ClipByImageKeepsAtom | libs/potentials/pot_3d_fft.cpp:53-62 | clipped to the image instead, an atom on the image whose slices meet the stack is stamped and its box holds its own pixel |
| Potential3D.TableWrapMovesAtom | libs/potentials/pot_3d_fft.cpp:312 | as written columns wrap modulo the table's width, so an atom on the image beyond it has its own column written elsewhere; wrapping modulo the image's width keeps it |
| Potential3D.TableWidthCounterexample | libs/potentials/pot_3d_fft.cpp:343 | radius 8, unit pixels, a 512 by 512 image: the table is 32 wide, and an atom at pixel (100, 100) in slice 5 is dropped as written but stamped when clipped to the image |
| Potential3D.StampTable | libs/potentials/pot_3d_fft.cpp:74-76 | every table read of the box stays inside the element's table |
| Potential3D.PeriodicStamp | libs/potentials/pot_3d_fft.cpp:192-336 | the corrected periodic box (signed columns, the clipped slice range) wraps columns modulo the grid width it is given and keeps its slices in the stack |
| Potential3D.PeriodicColumnsDistinct | libs/potentials/pot_3d_fft.cpp:312 | the 2·iRadX columns of the periodic box land on distinct pixels |
| Potential3D.PeriodicColumns | libs/potentials/pot_3d_fft.cpp:194-195 | the intended columns are iAtomX − iRadX .. iAtomX + iRadX − 1 |
| Potential3D.LeftEdgeColumnsLost | libs/potentials/pot_3d_fft.cpp:194-231 | as written, an atom in column 0 with half-width 1 gets no columns (the unsigned iax0 wraps to 2^32 − 1), where two are intended |
| Potential3D.PeriodicColumnsAsWritten | libs/potentials/pot_3d_fft.cpp:194-231 | definition of the columns the periodic x loop visits as written; LeftEdgeColumnsLost proves a left-edge atom loses them |
| Potential3D.InteriorColumnsAgree | libs/potentials/pot_3d_fft.cpp:194-195 | away from the left edge the as-written columns are the intended ones |
| Potential3D.SliceLoopNeverRuns | libs/potentials/pot_3d_fft.cpp:208-259 | as written, iAtomZ − iRadZ is unsigned so iaz0 = −iRadZ; the int/unsigned comparison iaz ≤ iaz1 then fails at once, so no slice is reached |
| Potential3D.SliceLoopRunsAsWritten | libs/potentials/pot_3d_fft.cpp:208-259 | definition of whether the periodic slice loop runs as written; SliceLoopNeverRuns proves it never does |
| Potential3D.SliceLoopCorrected | libs/potentials/pot_3d_fft.cpp:58-64 | with the clipped mode's signed range, an atom inside the stack reaches its own slice |
| Potential3D.SliceRange | libs/potentials/pot_3d_fft.cpp:58-59 | definition of the slice range clipped to the stack; SliceLoopCorrected proves an atom inside the stack reaches its own slice |
| Potential3D.SliceLoopCounterexample | libs/potentials/pot_3d_fft.cpp:208-259 | ten slices, iRadZ = 1, atom in slice 5: as written no slice is reached, while the intended range is −1..1 |
| Potential3D.FftPotential3D.constructor | libs/potentials/pot_3d_fft.cpp:30-36 | a potential with an empty table cache and zero sizes |
| Potential3D.FftPotential3D.SliceSetup | libs/potentials/pot_3d_fft.cpp:338-403 | while the cache is empty, the sizes are set and the scattering-factor tail is clamped; with a non-empty cache nothing changes; the cache itself is untouched |
| Potential3D.FftPotential3D.ComputeAtomPotential | libs/potentials/pot_3d_fft.cpp:409-571 | afterwards Znum is cached; cached tables are never changed; a new table is the clamped, scaled layer sum of the transformed disc-masked map |
| Potential3D.FftPotential3D.AddAtomToSlices | libs/potentials/pot_3d_fft.cpp:180-190 | the atom's pixel is (floor(x/dx), floor(y/dy)) and the mode follows m_periodicXY; the stack changes exactly as that mode's stamp says |
| Potential3D.FftPotential3D.AddAtomNonPeriodic | libs/potentials/pot_3d_fft.cpp:43-178 | the stack changes exactly as the stamp clipped to the image says |
| Potential3D.FftPotential3D.AddAtomPeriodic | libs/potentials/pot_3d_fft.cpp:192-336 | the stack changes exactly as the corrected periodic stamp, wrapped modulo the image's size, says |
| Potential3D.QyIntegral | libs/potentials/pot_3d_fft.cpp:476-487 | the qy loop with its early break computes the qy sum |
| Potential3D.RecipBin | libs/potentials/pot_3d_fft.cpp:460-496 | one bin of the reciprocal-space map: zero outside the disc, the damped scattering factor times the centring phase inside |
| Potential3D.BinValue | libs/potentials/pot_3d_fft.cpp:467-496 | one bin from its frequencies |
| Potential3D.InsideValue | libs/potentials/pot_3d_fft.cpp:474-493 | a bin inside the disc: factor times phase |
| Potential3D.RecipColumn | libs/potentials/pot_3d_fft.cpp:465-497 | the ix loop fills column iz and keeps the rest |
| Potential3D.ReciprocalMap | libs/potentials/pot_3d_fft.cpp:459-499 | the iz loop fills every bin of the reciprocal-space map with its value |
| Potential3D.LayerSum | libs/potentials/pot_3d_fft.cpp:542-552 | zScale sums the nzPerSlice layers around iz that lie below nz/2 |
| Potential3D.TableColumn | libs/potentials/pot_3d_fft.cpp:541-566 | column ix of the table is written at ix + iz·nx/2 and the rest kept |
| Potential3D.FillColumns | libs/potentials/pot_3d_fft.cpp:540-566 | after the ix loop every column of the table holds its clamped, scaled layer sums |
| Potential3D.StrideHit | libs/potentials/pot_3d_fft.cpp:543 | index k is written for (ix, iz) exactly when it is in column ix and row iz |
| Potential3D.RealSpaceTable | libs/potentials/pot_3d_fft.cpp:540-566 | the real-space table has nx·nz/4 entries, each the clamped, scaled layer sum |
| Potential3D.ZSum | libs/potentials/pot_3d_fft.cpp:543-550 | definition of the sum over the nzPerSlice layers around layer iz, cut at nz/2; RealSpaceTable's entries are built from it |
| Potential2D.Geometry2D | libs/potentials/pot_2d_fft.cpp:157-161 | _nx = 2·OVERSAMPLING·ceil(R/dx) (likewise _ny) is a positive multiple of four, dkx = 0.5·OVERSAMPLING/(_nx·dx) is positive, the table spans the atom's diameter at spacing dx/OVERSAMPLING (likewise dy), and the squared cutoff is positive |
| Potential2D.CutoffSquared | libs/potentials/pot_2d_fft.cpp:161-185 | the squared cutoff m_kmax2 is (1/(4·dx))², whatever the atom radius |
| Potential2D.MirroredFrequencyBounds | libs/potentials/pot_2d_fft.cpp:198-200 | the mirrored frequency dk·(i < n/2 ? i : n − i) lies in [0, dk·(n+1)/2] |
| Potential2D.RecipGrid | libs/potentials/pot_2d_fft.cpp:196-212 | the reciprocal table is _nx by _ny, each bin the damped scattering factor times the centring phase inside the disc, zero outside |
| Potential2D.RecipOutsideDiscIsZero | libs/potentials/pot_2d_fft.cpp:203 | bins with kx² + ky² ≥ m_kmax2 stay zero |
| Potential2D.MirrorSymmetric | libs/potentials/pot_2d_fft.cpp:198 | for even n, bins i and n − i get the same mirrored index |
| Potential2D.RecipSymmetric | libs/potentials/pot_2d_fft.cpp:197-212 | the reciprocal table is symmetric under ix → _nx − ix and iy → _ny − iy |
| Potential2D.StepTimesExtent | libs/potentials/pot_2d_fft.cpp:159-160 | the frequency step times the table's extent n·d/OVERSAMPLING is 1/2 |
| Potential2D.TableFactorIsInverseArea | libs/potentials/pot_2d_fft.cpp:231-234 | the scale dkx·dky·OVERSAMPLING² is the inverse of the area the table covers |
| Potential2D.ReciprocalColumn | libs/potentials/pot_2d_fft.cpp:199-211 | the iy loop sets the disc bins of column ix and keeps every other entry |
| Potential2D.ReciprocalTable | libs/potentials/pot_2d_fft.cpp:197-212 | the ix loop sets every disc bin and keeps the rest |
| Potential2D.ScaleRow | libs/potentials/pot_2d_fft.cpp:232-234 | row ix is multiplied by the factor, other rows unchanged |
| Potential2D.ScaleTable | libs/potentials/pot_2d_fft.cpp:231-234 | every entry is multiplied by the factor |
| Potential2D.BuildTable | libs/potentials/pot_2d_fft.cpp:195-234 | the cached table is the scaled inverse transform of the reciprocal table |
| Potential2D.GridIsRecipGrid | libs/potentials/pot_2d_fft.cpp:195-212 | a zeroed table filled inside the disc is the reciprocal table |
| Potential2D.BilinearPartition | libs/potentials/pot_2d_fft.cpp:88-91 | the four weights s11..s22 sum to one and lie in [0, 1] for fractions in [0, 1] |
| Potential2D.Bilinear | libs/potentials/pot_2d_fft.cpp:88-91 | definition of the bilinear weights; BilinearPartition and BilinearExactOnPlanes prove they sum to one, lie in [0, 1] and reproduce planes |
| Potential2D.BilinearExactOnPlanes | libs/potentials/pot_2d_fft.cpp:104-107 | the weighted sum reproduces any table linear in x and y at the atom's sub-pixel position |
| Potential2D.Frac | libs/potentials/pot_2d_fft.cpp:84-87 | ddx − floor(ddx) lies in [0, 1) |
| Potential2D.PatchedOutsideUnchanged | libs/potentials/pot_2d_fft.cpp:99-112 | only pixels of the atom's slice inside the box change |
| Potential2D.Strip | libs/potentials/pot_2d_fft.cpp:101-111 | the iay loop adds box column iax's values and nothing else |
| Potential2D.Deposit | libs/potentials/pot_2d_fft.cpp:99-112 | the iax loop adds the whole box: every pixel ends as the patch function of its old value |
| Potential2D.NonPeriodicPatch | libs/potentials/pot_2d_fft.cpp:63-91 | the clipped box, in the atom's slice floor(z/dz), adding only real parts, on the image's grid |
| Potential2D.ClippedColumns | libs/potentials/pot_2d_fft.cpp:68-81 | a column is visited exactly when it lies in the unclipped box and in [0, nx − 1) |
| Potential2D.ClippingKeepsAlignment | libs/potentials/pot_2d_fft.cpp:68-103 | clipping at the low edge shifts the table read by OVERSAMPLING per column lost, so each visited column reads the entry it would have read unclipped |
| Potential2D.ClipAxis | libs/potentials/pot_2d_fft.cpp:68-81 | definition of one axis's clipped range and table offset; ClippingKeepsAlignment proves the clipped box reads the table where the unclipped one would |
| Potential2D.PeriodicPatch | libs/potentials/pot_2d_fft.cpp:118-153 | the corrected periodic box: 2·m_iRadX by 2·m_iRadY columns in the atom's slice, wrapped modulo the image, with the sub-pixel fraction in [0, 1) |
| Potential2D.PatchWeights | libs/potentials/pot_2d_fft.cpp:88-137 | both modes weight the four neighbours with weights in [0, 1] summing to one |
| Potential2D.PeriodicColumnsDistinct | libs/potentials/pot_2d_fft.cpp:141-146 | the periodic box's columns land on distinct pixels |
| Potential2D.WeightsMisplacedAsWritten | libs/potentials/pot_2d_fft.cpp:88-137 | on a table that grows in x only, the clipped mode's weights interpolate by ddy and the periodic mode's by 1 − ddy, where bilinear weights give ddx |
| Potential2D.NonPeriodicWeightsAsWritten | libs/potentials/pot_2d_fft.cpp:88-91 | definition of the clipped mode's weights as written; WeightsMisplacedAsWritten and WeightsAsWrittenAreSwapped prove they are the bilinear ones with the fractions exchanged |
| Potential2D.PeriodicWeightsAsWritten | libs/potentials/pot_2d_fft.cpp:134-137 | definition of the periodic mode's weights as written; WeightsMisplacedAsWritten and WeightsAsWrittenAreSwapped prove they are also reflected |
| Potential2D.WeightsAsWrittenAreSwapped | libs/potentials/pot_2d_fft.cpp:88-137 | the clipped mode's weights are the bilinear ones with the fractions exchanged; the periodic mode's are also reflected |
| Potential2D.PeriodicColumnAsWritten | libs/potentials/pot_2d_fft.cpp:146 | as written the column (iAtomX + iax) % _nx is reduced modulo the table width, so it stays below _nx |
| Potential2D.PeriodicColumnCounterexample | libs/potentials/pot_2d_fft.cpp:146 | an atom at column 10, half-width 2, table width 8: as written its first column is pixel 2, where the box starts at pixel 8 |
| Potential2D.PeriodicColumnsBelowTableWidth | libs/potentials/pot_2d_fft.cpp:146 | as written no atom reaches an image column at or beyond the table width |
| Potential2D.PeriodicFractionNegative | libs/potentials/pot_2d_fft.cpp:122-132 | as written the offset is below 1 − 2^32 (iax0 already holds _nx), while the intended fraction lies in [0, 1) |
| Potential2D.PeriodicFractionAsWritten | libs/potentials/pot_2d_fft.cpp:122-132 | definition of the periodic sub-sample fraction as written; PeriodicFractionNegative proves it is below 1 − 2^32 |
| Potential2D.PeriodicOffset | libs/potentials/pot_2d_fft.cpp:127 | definition of the intended offset of the atom from its pixel in table samples; its fractional part is the weight fraction PatchWeights is about |
| Potential2D.PeriodicYScaleCounterexample | libs/potentials/pot_2d_fft.cpp:128 | with dx = 1 and dy = 2 the y offset divided by dx is −28 where dividing by dy gives −32 |
| Potential2D.ThicknessMismatch | libs/potentials/pot_2d_fft.cpp:36-47 | a warning is raised exactly when some slice differs from the first, naming the first such slice; the slices are kept |
| Potential2D.FftPotential2D.constructor | libs/potentials/pot_2d_fft.cpp:154-156 | a potential with no cached tables and zero sizes |
| Potential2D.FftPotential2D.SliceSetup | libs/potentials/pot_2d_fft.cpp:154-187 | while no table is cached, the sizes become Geometry2D's and the scattering-factor tail is clamped at kmax; otherwise the grid is unchanged; the cache is untouched |
| Potential2D.FftPotential2D.ComputeAtomPotential | libs/potentials/pot_2d_fft.cpp:188-249 | afterwards Znum is cached with B = 0 under TDS and dw otherwise; cached tables are never changed; a new table is the scaled inverse transform of the reciprocal table |
| Potential2D.FftPotential2D.AddAtomToSlices | libs/potentials/pot_2d_fft.cpp:49-59 | the atom's pixel is (floor(x/dx), floor(y/dy)) and the mode follows periodicXY; the stack changes exactly as that mode's patch says |
| Potential2D.FftPotential2D.AddAtomNonPeriodic | libs/potentials/pot_2d_fft.cpp:63-116 | the stack changes exactly as the clipped patch says |
| Potential2D.FftPotential2D.AddAtomPeriodic | libs/potentials/pot_2d_fft.cpp:118-153 | the stack changes exactly as the corrected periodic patch says |
| RealSpace.SiteInPixel | libs/potentials/RealSpacePotential.cpp:19-21 | the atom lies in the pixel (floor(x/dx), floor(y/dy)) that names it: iAtomX·dx ≤ x < (iAtomX + 1)·dx, likewise y |
| RealSpace.PixelOf | libs/potentials/RealSpacePotential.cpp:20 | floor(a/d)·d ≤ a < (floor(a/d) + 1)·d |
| RealSpace.WrapIndex | libs/potentials/RealSpacePotential.cpp:42 | the unsigned (i + 16·nx) % nx always names a pixel of the image |
| RealSpace.WrapIndexIsMod | libs/potentials/RealSpacePotential.cpp:42 | while i + 16·nx is non-negative and fits 32 bits, the wrap is the ordinary remainder i mod nx |
| RealSpace.CallsOf | libs/potentials/RealSpacePotential.cpp:41-59 | one call per walked offset |
| RealSpace.CallsOfAppend | libs/potentials/RealSpacePotential.cpp:31-62 | the calls of two consecutive parts of the walk are the calls of each in turn |
| RealSpace.AddAtomRealSpace | libs/potentials/RealSpacePotential.cpp:12-63 | the calls made are, in order, one per offset of the walk: the corner offset from the atom, the wrapped pixel and the atom's slice |
| RealSpace.Row | libs/potentials/RealSpacePotential.cpp:43-61 | the iay loop makes the calls of column iax's filtered rows, in order |
| RealSpace.RowVisitsFacts | libs/potentials/RealSpacePotential.cpp:43-61 | a column's walk reports rows in increasing order, each in range and within the radius, at most one per row, and every such row |
| RealSpace.VisitsFacts | libs/potentials/RealSpacePotential.cpp:31-62 | the walk reports offsets column by column in order, each in range and within the radius, and every such offset |
| RealSpace.CallCount | libs/potentials/RealSpacePotential.cpp:31-43 | at most (2·m_iRadX + 1)·(2·m_iRadY + 1) calls |
| RealSpace.WalkIsTheFilteredBox | libs/potentials/RealSpacePotential.cpp:31-62 | the walk is exactly the offsets of the box (over the image, in the clipped mode) that pass the r² ≤ m_atomRadius2 filter, each once, in column-then-row order |
| RealSpace.Walk | libs/potentials/RealSpacePotential.cpp:31-62 | definition of the offsets the walk reports, in order; WalkIsTheFilteredBox proves they are the box's offsets within the radius |
| RealSpace.ClippedRangeIsOnImage | libs/potentials/RealSpacePotential.cpp:32-39 | in the clipped mode an offset is walked exactly when it is in the box and its pixel lies on the image |
| RealSpace.CallsOnImage | libs/potentials/RealSpacePotential.cpp:41-59 | every call names a pixel of the image and a corner within the atom radius; in the clipped mode the pixel is the unwrapped one |
| RealSpace.LeftEdgeAtomDroppedAsWritten | libs/potentials/RealSpacePotential.cpp:33-38 | as written, an atom closer to the left edge than its radius gets no columns at all (iax + iAtomX is unsigned, never negative, and wraps past nx), while the intended walk covers the columns from the edge on |
| RealSpace.ClippedColumnsAsWritten | libs/potentials/RealSpacePotential.cpp:33-38 | definition of the columns the clipped walk visits as written, with the unsigned column sum; LeftEdgeAtomDroppedAsWritten proves an atom at the left edge adds nothing |
| RealSpace.PeriodicLeftColumnsAsWritten | libs/potentials/RealSpacePotential.cpp:41 | as written a column left of the image sits 2^32·dx further away than intended |
| RealSpace.PeriodicLeftNeighbourLostAsWritten | libs/potentials/RealSpacePotential.cpp:41-56 | an atom at x = 0.5 with unit pixels and radius 2: its left neighbour is 1.5 away, within the radius, but as written it fails the filter |
| RealSpace.OffsetAsWritten | libs/potentials/RealSpacePotential.cpp:41-56 | definition of a pixel corner's offset as written, from the unsigned column; PeriodicLeftNeighbourLostAsWritten proves a left neighbour is lost |
| Experiment.SlicePolicy | libs/experiments/base.cpp:37-51 | only the slice count and the slice thickness change; a division by a zero count or thickness gives no configuration |
| Experiment.SlicesSpanSample | libs/experiments/base.cpp:37-44 | with Auto or NumberOfSlices the slices span 1.01 times the sample's height, so they cover it; Auto takes (int)zTotal slices |
| Experiment.ThicknessSlicesFit | libs/experiments/base.cpp:45-48 | with a given thickness the slice count is the number of whole slices that fit in the sample |
| Experiment.WholeFit | libs/experiments/base.cpp:47 | (int)(e/d) whole steps of d fit in e and one more does not |
| Experiment.WholeCover | libs/experiments/base.cpp:61-62 | ceil(e/d) steps of d cover e with less than one step to spare |
| Experiment.ResolutionPolicy | libs/experiments/base.cpp:53-94 | the resolution switch leaves the slicing alone; a division by zero gives no configuration |
| Experiment.PixelCountModesDivideExactly | libs/experiments/base.cpp:54-93 | FILLN, CELLN and SIZEN keep the pixel counts and make nx·dx exactly the sample's, the cell's or the area's width (likewise y); all but SIZEN zero the offsets |
| Experiment.FillResCoversSample | libs/experiments/base.cpp:60-65 | FILLRES keeps dx and rounds the pixel count up, covering the sample by less than one pixel too many |
| Experiment.ResolutionModesTruncate | libs/experiments/base.cpp:66-85 | CELLRES and SIZERES keep dx and only the whole pixels that fit in the cell or the area |
| Experiment.CentredSampleHasEqualMargins | libs/experiments/base.cpp:81-92 | with CenterSample the margins on both sides of the sample are equal |
| Experiment.Policies | libs/experiments/base.cpp:37-97 | slicing, then sampling, then extra slices for the 3D potential; the slice thickness is the slicing's |
| Experiment.MarginCoversAtomRadius | libs/experiments/base.cpp:96-97 | the 3D potential adds 2·ceil(R/dz) slices to the same configuration, and those extra slices on each side reach at least the atom radius |
| Experiment.PropagatorIsUnit | libs/experiments/base.cpp:261-276 | each propagator cos(t) − i·sin(t) has modulus one |
| Experiment.Propagator | libs/experiments/base.cpp:261-276 | definition of the Fresnel propagator exp(−iπ·dz·λ·k²); PropagatorIsUnit proves its modulus is one |
| Experiment.PropagatorsFor | libs/experiments/base.cpp:252-278 | one propagator per column and one per row |
| Experiment.PropagationLimitsBandKeepsIntensity | libs/experiments/base.cpp:381-388 | Propagate zeroes every pixel outside the band limit and keeps the intensity of every pixel inside it |
| Experiment.TransmissionScalesIntensity | libs/experiments/base.cpp:419-424 | transmission multiplies each pixel's intensity by the transmission function's squared modulus, so a phase object keeps it |
| Experiment.NormalizeUndoesGain | libs/experiments/base.cpp:488-492 | fft_normalize's factor 1/(nx·ny) undoes the nx·ny gain of an unnormalised transform pair |
| Experiment.TransmitGrid | libs/experiments/base.cpp:417-428 | definition of Transmit's result, each pixel times the transmission function at the shifted pixel; TransmissionScalesIntensity gives its meaning |
| Experiment.PropagateGrid | libs/experiments/base.cpp:377-393 | definition of Propagate's result, each pixel propagated or cleared; PropagationLimitsBandKeepsIntensity gives its meaning |
| Experiment.NormalizeGrid | libs/experiments/base.cpp:489-493 | definition of Normalize's result, each pixel times 1/(nx·ny); NormalizeUndoesGain gives its meaning |
| Experiment.SliceStep | libs/experiments/base.cpp:320-342 | one slice keeps the grid's shape: transmit, transform, propagate, transform back, normalise |
| Experiment.Multislice | libs/experiments/base.cpp:317-348 | the wave after slices 0..n − 1 keeps the grid's shape |
| Experiment.Schedule | libs/experiments/base.cpp:339-346 | the per-slice hooks of n slices: two steps per slice, in slice order (ScheduleOrder gives each step) |
| Experiment.ScheduleOrder | libs/experiments/base.cpp:339-346 | each slice calls CollectIntensity in Fourier space and then PostSliceProcess in real space, with the absolute slice number |
| Experiment.Resized | libs/experiments/base.cpp:302 | resizing keeps the prefix and pads with zeros |
| Experiment.InterimOutput | libs/experiments/base.cpp:236-249 | a wave is written exactly after the last slice or when slice + 1 is a multiple of the interval (C remainder) |
| Experiment.InterimIndexCounts | libs/experiments/base.cpp:236-248 | with interval k, the wave after k·s slices is written with thickness index s − 1 |
| Experiment.RunningMeanIsMean | libs/experiments/base.cpp:441-446 | the corrected update avg·count/(count+1) + dp/(count+1) leaves after k patterns their mean, whatever the array held before |
| Experiment.MeanStep | libs/experiments/base.cpp:441-446 | definition of the corrected running-mean step; RunningMeanIsMean proves it yields the mean of the patterns |
| Experiment.MeanStepAsWrittenDiverges | libs/experiments/base.cpp:443 | as written, avg·count + dp/(count + 1) agrees on the first pattern but gives 1.5 from two patterns of 1 |
| Experiment.MeanStepAsWritten | libs/experiments/base.cpp:443 | definition of the update as written, avg·count + dp/(count + 1); MeanStepAsWrittenDiverges proves it is not a mean |
| Experiment.ChiSqAsWrittenCarriesGarbage | libs/experiments/base.cpp:437-448 | as written the uninitialised accumulator's value, divided by px, is added to m_chisq |
| Experiment.ChiSqAsWritten | libs/experiments/base.cpp:437-448 | definition of the chi-square entry as written, starting from the uninitialised accumulator; ChiSqAsWrittenCarriesGarbage proves the garbage reaches the record |
| Experiment.SteadyPatternHasNoDeviation | libs/experiments/base.cpp:443-444 | a pattern equal to the mean adds nothing to chi-square |
| Experiment.ExperimentBase.constructor | libs/experiments/base.cpp:37-97 | dz and the slice count are the ones Policies derives from the configuration and the sample's bounds (so SlicesSpanSample and MarginCoversAtomRadius hold of them); the averages are empty |
| Experiment.ExperimentBase.InitializePropagators | libs/experiments/base.cpp:252-278 | the propagators become those of the wave's frequencies at m_dz; nothing else changes |
| Experiment.ExperimentBase.Transmit | libs/experiments/base.cpp:410-429 | the wave becomes TransmitGrid of the old wave |
| Experiment.TransmittedCell | libs/experiments/base.cpp:410-429 | definition of one transmitted cell: the wave times the slice's transmission at the shifted pixel; TransmissionScalesIntensity gives its meaning |
| Experiment.ExperimentBase.Propagate | libs/experiments/base.cpp:362-394 | the wave becomes PropagateGrid of the old wave, every cell visited once |
| Experiment.PropagatedCell | libs/experiments/base.cpp:380-389 | definition of one propagated cell: the product with both propagators inside the band limit, zero outside; PropagationLimitsBandKeepsIntensity gives its meaning |
| Experiment.ExperimentBase.Normalize | libs/experiments/base.cpp:482-494 | the wave becomes NormalizeGrid of the old wave |
| Experiment.ExperimentBase.RunMultislice | libs/experiments/base.cpp:280-356 | the average array has one entry per pixel, the propagators are set, the wave is the multislice result in real space, and the hooks run in schedule order followed by WriteWave when the save level or the sub-slabs ask for it |
| Experiment.ExperimentBase.Slices | libs/experiments/base.cpp:317-348 | the slice loop yields Multislice of the old wave and the schedule of hooks |
| Experiment.ExperimentBase.SliceOnce | libs/experiments/base.cpp:319-346 | one pass yields SliceStep of the old wave, back in real space, and the two hooks |
| Experiment.ExperimentBase.SliceIteration | libs/experiments/base.cpp:317-348 | one turn of the slice loop carries the invariant from slice islice to islice + 1: the wave is Multislice of the first islice + 1 slices and the hooks follow the schedule; the wave stays in real space |
| Experiment.ExperimentBase.AddDPToAvgArray | libs/experiments/base.cpp:431-449 | each of the nx·ny averages takes the corrected running-mean step, the rest are kept, and chisq[m_avgCount] grows by the mean squared change |
| Experiment.Column0 | libs/experiments/base.cpp:377-378 | definition of the cells the as-written inner loop visits, (0,0), (1,0), …, (n − 1, 0); PropagateMissesCellsAsWritten proves the other cells are missed |
| Experiment.PropagateVisitsAsWritten | libs/experiments/base.cpp:377-393 | as written (the inner loop tests and steps i), the cells visited are (0,0) … (ny − 1, 0) |
| Experiment.PropagateMissesCellsAsWritten | libs/experiments/base.cpp:377-378 | as written cell (0,1) is never visited, with more rows than columns a cell past the last column is, and with two or more columns fewer than nx·ny cells are visited |
| Probe.SignedFreq | libs/wavefunctions/wave_convergent.cpp:213-220 | the intended signed index of column i is i or i − n, lies in [−n/2, n/2] and gives i back modulo n |
| Probe.SignedFreqAsWritten | libs/wavefunctions/wave_convergent.cpp:215-219 | definition of the index as written, with `iy - m_ny` wrapped to 32 bits; its consequences are proved in SignedFreqAsWrittenNeverNegative and WrappedFrequencyOutsideAperture |
| Probe.SignedFreqAsWrittenNeverNegative | libs/wavefunctions/wave_convergent.cpp:215-219 | as written the index is never negative: above n/2 it is the intended one plus 2^32 (3 of 4 gives 2^32 − 1 instead of −1) |
| Probe.WrappedFrequencyOutsideAperture | libs/wavefunctions/wave_convergent.cpp:213-225 | consequence of the wrap: for an image narrower than 2^31 whose aperture and rim lie below the frequency of index n, every index above n/2 is placed outside the aperture, whatever the other axis holds |
| Probe.SixthAsWrittenDropsA62 | libs/wavefunctions/wave_convergent.cpp:243 | a probe whose only sixth-order aberration is a_6,2 loses it as written, where the intended test keeps it |
| Probe.SixthAsWritten | libs/wavefunctions/wave_convergent.cpp:243-246 | definition of the sixth-order test as written, with the assignment `m_a62 = 0`; its consequence is proved in SixthAsWrittenDropsA62 |
| Probe.SixthOrder | libs/wavefunctions/wave_convergent.cpp:233-246 | definition of the intended sixth-order test, written like the lower orders' tests; SixthAsWrittenDropsA62 proves where the two differ |
| Probe.ZoneOf | libs/wavefunctions/wave_convergent.cpp:252-276 | a frequency is outside exactly when k2 > k2max and it is not on the smoothed rim; on the rim |k2 − k2max| ≤ pixel |
| Probe.RimConjugatedAsWritten | libs/wavefunctions/wave_convergent.cpp:255-266 | as written the rim holds half the complex conjugate of the inside value, which differs from half of it wherever sin χ ≠ 0 |
| Probe.RimValueAsWritten | libs/wavefunctions/wave_convergent.cpp:255-266 | definition of the rim value as written, with −sin χ; its difference from the intended value is proved in RimConjugatedAsWritten |
| Probe.ApertureValue | libs/wavefunctions/wave_convergent.cpp:205-207 | the intended aperture value: scale·e^(iχ) inside, half of it on the rim, zero outside (its intensity is proved in ApertureIntensity) |
| Probe.ApertureIntensity | libs/wavefunctions/wave_convergent.cpp:252-276 | inside the aperture every frequency has intensity scale², on the rim a quarter of that, outside none |
| Probe.GaussNumeratorAsWrittenShifted | libs/wavefunctions/wave_convergent.cpp:291 | as written every pixel off the centre gets a positive numerator, the intended one plus 2^32, so the Gaussian grows instead of decaying |
| Probe.GaussNumeratorAsWritten | libs/wavefunctions/wave_convergent.cpp:291 | definition of the Gaussian's numerator as written, in unsigned arithmetic; its consequence is proved in GaussNumeratorAsWrittenShifted |
| Probe.AisNeverBrightens | libs/wavefunctions/wave_convergent.cpp:309-321 | the AIS aperture clears pixels beyond it, keeps those more than one edge inside and never raises a pixel's intensity |
| Probe.AisValue | libs/wavefunctions/wave_convergent.cpp:309-321 | definition of the AIS damping of one pixel; AisNeverBrightens proves it never raises the intensity |
| Probe.DampingNeverBrightens | libs/wavefunctions/wave_convergent.cpp:316-318 | scaling by a factor in [0, 1] never raises a pixel's intensity |
| Probe.RowIntensity | libs/wavefunctions/wave_convergent.cpp:328-329 | a row's summed intensity is non-negative |
| Probe.GridIntensity | libs/wavefunctions/wave_convergent.cpp:327-329 | the summed intensity of the probe is non-negative |
| Probe.ScaleGrid | libs/wavefunctions/wave_convergent.cpp:335-341 | definition of a grid with every pixel multiplied by the factor; PixelsScale and NormalizedTotalIsOne give its meaning |
| Probe.RowIntensityMaps | libs/wavefunctions/wave_convergent.cpp:327-345 | mapping every pixel's intensity through an additive g (such as multiplication by a constant) maps a row's summed intensity through g |
| Probe.GridIntensityMaps | libs/wavefunctions/wave_convergent.cpp:327-345 | the same for the whole grid: the total intensity is mapped through g |
| Probe.ScalingAdditive | libs/wavefunctions/wave_convergent.cpp:330-337 | multiplying every intensity by the same factor is additive, so scaling pixels scales the total |
| Probe.NormalizedTotalIsOne | libs/wavefunctions/wave_convergent.cpp:331-346 | scaling by sqrt(1/sum) brings a probe of positive total intensity to total intensity one |
| Probe.Normalized | libs/wavefunctions/wave_convergent.cpp:326-341 | the normalised probe keeps the grid's shape |
| Probe.ApertureGrid | libs/wavefunctions/wave_convergent.cpp:213-279 | definition of the Fourier-space probe, every pixel its aperture entry; ApertureIntensity gives each entry's intensity |
| Probe.ApertureCell | libs/wavefunctions/wave_convergent.cpp:213-276 | definition of one pixel's aperture entry: the zone of its squared frequency and the aperture value there; ApertureIntensity and NormalizedTotalIsOne give its meaning |
| Probe.GaussGrid | libs/wavefunctions/wave_convergent.cpp:287-299 | definition of the grid with every pixel times its Gaussian factor; DampGauss states that the damped wave is this grid |
| Probe.AisGrid | libs/wavefunctions/wave_convergent.cpp:303-324 | definition of the grid with every pixel damped by the AIS aperture; AisNeverBrightens gives its meaning |
| Probe.Damped | libs/wavefunctions/wave_convergent.cpp:193-324 | the real-space probe before normalisation keeps the grid's shape |
| Probe.Intensity | libs/wavefunctions/wave_convergent.cpp:327-329 | the loop's sum is the probe's total intensity |
| Probe.Extremes | libs/wavefunctions/wave_convergent.cpp:352-384 | the four extremes bound every pixel's real and imaginary parts and each is some pixel's value |
| Probe.ConvergentWave.constructor | libs/wavefunctions/wave_convergent.cpp:154-166 | a probe on the given wave and configuration |
| Probe.ConvergentWave.DrawAperture | libs/wavefunctions/wave_convergent.cpp:213-279 | the wave becomes the aperture grid |
| Probe.ConvergentWave.DampGauss | libs/wavefunctions/wave_convergent.cpp:287-299 | with m_gaussFlag the wave becomes GaussGrid of the old wave, otherwise it is unchanged |
| Probe.GaussFactor | libs/wavefunctions/wave_convergent.cpp:287-299 | definition of the intended Gaussian factor of a pixel, from the negative squared distance to the centre |
| Probe.ConvergentWave.DampAis | libs/wavefunctions/wave_convergent.cpp:303-324 | with a positive m_aAIS the wave becomes AisGrid of the old wave, otherwise it is unchanged |
| Probe.ConvergentWave.NormalizeProbe | libs/wavefunctions/wave_convergent.cpp:326-346 | the wave becomes the normalised one, and the second sum is one whenever the first was positive |
| Probe.ConvergentWave.Damp | libs/wavefunctions/wave_convergent.cpp:192-324 | the wave becomes the damped real-space probe, in real space |
| Probe.ConvergentWave.NormalizeAndMeasure | libs/wavefunctions/wave_convergent.cpp:326-384 | the wave is normalised and the recorded range is that of the normalised wave |
| Probe.ConvergentWave.FormProbe | libs/wavefunctions/wave_convergent.cpp:154-390 | the wave ends in real space as the normalised, damped probe with the intended sixth-order test, and the recorded range bounds it |
| WaveBase.Transformed | libs/wavefunctions/wave_base.hpp:60-61 | definition of a transform applied to an nx by ny grid; Wave.ToFourierSpace, Wave.ToRealSpace and Experiment.SliceStep are stated through it |
| WaveBase.SnapshotIs | libs/wavefunctions/wave_base.hpp:78 | an array whose every cell equals the grid's is the grid |
| WaveBase.MapCells | libs/wavefunctions/wave_convergent.cpp:289-298 | every cell becomes f of its old value |
| WaveBase.Wave.constructor | libs/wavefunctions/wave_base.hpp:181 | a zero wave of nx by ny pixels in real space, with a diffraction pattern of nx·ny entries |
| WaveBase.Wave.TotalPixels | libs/wavefunctions/wave_base.hpp:68 | m_nx·m_ny as an unsigned product: below 2^32, and the true product when it fits |
| WaveBase.Wave.PixelIntensity | libs/wavefunctions/wave_base.hpp:80 | definition of the intensity of flat pixel i as the squared modulus of cell [i / ny][i % ny], which is non-negative |
| WaveBase.Wave.PixelIntensityAt | libs/wavefunctions/wave_base.hpp:81 | the intensity at (x, y) is non-negative |
| WaveBase.Wave.PixelAtReadsRowY | libs/wavefunctions/wave_base.hpp:81 | on a square wave, GetPixelIntensity(x, y) reads cell [y][x]: x + m_nx·y addresses row y |
| WaveBase.Wave.DiffPatPixel | libs/wavefunctions/wave_base.hpp:82 | definition of GetDiffPatPixel(i) as entry i of the pattern; SetDiffPatPixel's contract states what it then reads |
| WaveBase.Wave.DiffPatPixelAt | libs/wavefunctions/wave_base.hpp:83 | definition of GetDiffPatPixel(x, y) as the entry at flat index x + m_nx·y, which FlatIndexInGrid keeps inside the pattern; SetDiffPatPixelAt's contract states what it then reads |
| WaveBase.Wave.SetDiffPatPixel | libs/wavefunctions/wave_base.hpp:84 | entry i of the pattern becomes the value, no other entry changes |
| WaveBase.Wave.SetDiffPatPixelAt | libs/wavefunctions/wave_base.hpp:85 | the pixel GetDiffPatPixel(x, y) reads becomes the value, every other (x, y) keeps its value |
| WaveBase.Wave.ToFourierSpace | libs/wavefunctions/wave_base.hpp:61 | the wave becomes its transform and is marked as in Fourier space; frequencies, cutoff and wavelength are kept |
| WaveBase.Wave.ToRealSpace | libs/wavefunctions/wave_base.hpp:60 | the wave becomes its inverse transform and is marked as in real space; frequencies, cutoff and wavelength are kept |
| WaveBase.Wave.Apply | libs/wavefunctions/wave_base.hpp:60-61 | the wave's cells become the transform of the old cells; the shape is kept |
| WaveBase.FlatIndexInGrid | libs/wavefunctions/wave_base.hpp:81-83 | x + m_nx·y of a pixel lies in [0, nx·ny) |
| WaveBase.FlatIndexDistinct | libs/wavefunctions/wave_base.hpp:83-85 | distinct pixels have distinct flat indices x + m_nx·y |
| WaveBase.FlatCell | libs/wavefunctions/wave_base.hpp:80 | flat index i names row i / ny and column i % ny, both in range |
| Numerics.Floor | libs/potentials/pot_2d_fft.cpp:64 | the result is the largest integer not above x |
| Numerics.Ceil | libs/potentials/pot_2d_fft.cpp:157 | the result is the smallest integer not below x |
| Numerics.Trunc | libs/experiments/base.cpp:40 | a cast of a floating value truncates toward zero: floor for non-negative values, ceil for negative ones, within one of x |
| Numerics.CDiv | libs/experiments/base.cpp:239 | C's int division truncates toward zero: with a positive divisor it is the floor for a non-negative dividend and minus the floor of the negated one for a negative dividend |
| Numerics.CMod | libs/experiments/base.cpp:237 | the C remainder satisfies a = b·(a / b) + a % b with truncating division, and is the Euclidean one for non-negative operands |
| Numerics.U32 | libs/wavefunctions/wave_base.hpp:181 | an unsigned variable holds its value modulo 2^32 |
| Numerics.U32Add | libs/potentials/pot_3d_fft.cpp:194-197 | adding to an unsigned value wraps like adding to the unwrapped one |
| Numerics.RoundHalfEven | libs/potentials/pot_2d_fft.cpp:66-67 | rint gives an integer within 0.5 of x, the even one on a tie |
| Numerics.Norm2OfScale | libs/wavefunctions/wave_convergent.cpp:337 | scaling by s multiplies the intensity by s² |
| Numerics.Norm2OfMul | libs/experiments/base.cpp:424 | the intensity of a product is the product of the intensities |

## Left out

- The FFT (FFTW), `sin`, `cos`, `exp`, `sqrt`, `atan2`, the aberration function chi, `seval`/`splinh` and `ran1`/`gasdev`: external numerics, passed in as parameters.
- Floating-point rounding and `float` casts: reals are exact.
- File and log output (`Save`, `WriteWave`, `WriteImage`, `BOOST_LOG_TRIVIAL`, `printf`) and OpenMP: not part of the computed state. Only the order of the output hooks is modelled.
- `CollectIntensity` and `PostSliceProcess`: hooks that subclasses implement. The model records the order of their calls.
- `_AddAtomRealSpace` and `GetSlicePixel`: implemented elsewhere. The walk returns the calls it makes, and transmission takes the slice's pixel as a parameter.
- `CPotential::SliceSetup` and `CPotential::MakeSlices`: these base-class bodies are not part of this model.
- Disabled code (`GetAtomPotentialOffset3D`, `USE_Q_POT_OFFSETS`, `Z_INTERPOLATION`, `SHOW_SINGLE_POTENTIAL`, `GetAtomPotential2D`) is not modelled. Neither are the matrix helpers (`RotateVect`, `RotateMatrix`, `Inverse_3x3`, `MatrixProduct`): a rotation is a parameter.
- The accessors `IsRealSpace`, `GetKX2`, `GetKY2`, `GetK2Max` and `GetWavelength` are read as plain fields of `WaveBase.Wave`.
- WaveBase.Wave.DiffPatPixel and WaveBase.Wave.DiffPatPixelAt are plain reads and carry no ensures of their own; the setters' contracts state what they read.
- Boost's `ComplexArray2D` row-major storage is modelled as a Dafny `array2` indexed `[ix][iy]`. Flat accessors read it row-major.
- Several configuration fields are not declared in `read_interface.hpp` (`Model.nx`, `dx`, `ResolutionCalculation`, `areaX`, `CenterSample`). They are modelled as fields of the configuration.
- The integer widths of `m_nx` in the potentials and of `nSlices` are not visible. They are modelled as signed integers. `16 * nx` overflowing 32 bits in the real-space wrap is excluded by RealSpace.CallsOnImage's precondition.
- The `default` branch of the slice switch, which leaves `m_dz` unset, is not modelled: the slice mode has exactly the three values of the switch.
- Experiment.ExperimentBase.Transmit: the unsigned sum `ix + m_iPosX` is passed to the transmission function as a plain sum.
- Experiment.ExperimentBase.constructor requires Policies to give a configuration. Where a division by zero leaves the C++ with an infinite or undefined `m_dz`, the model builds no experiment.
- Experiment.SlicePolicy and Experiment.ResolutionPolicy: a division by zero (infinite or undefined in C++) gives `None` rather than a value.
- Potential2D.PeriodicPatch requires 2·m_iRadX ≤ nx and 2·m_iRadY ≤ ny. Wider boxes write a pixel twice, which the one-pass deposit does not model.
- Potential3D.PeriodicStamp requires the same bound on the box width, for the same reason.
- Potential3D.NonPeriodicStamp and Potential3D.PeriodicStamp take the grid size as parameters. The add functions pass the image's size (`imageNx`, `imageNy` of the configuration), not the table's size that pot_3d_fft.cpp:343 stores in `m_nx` (see Findings).
- Potential2D.FftPotential2D.AddAtomPeriodic requires the same bound on the box width, for the same reason.
- Potential3D.FftPotential3D.AddAtomPeriodic requires the same bound on the box width, for the same reason.
- Potential2D.FftPotential2D.AddAtomToSlices requires the same bound on the box width when the potential is periodic, for the same reason.
- Potential3D.FftPotential3D.AddAtomToSlices requires the same bound on the box width when the potential is periodic, for the same reason.
- Potential3D.FftPotential3D.AddAtomToSlices also requires the slice stack to have the configured slice count and to hold the image. In the C++ a smaller stack is out-of-bounds access.
- Potential2D.FftPotential2D.AddAtomToSlices requires the slice stack to hold the image and the atom's slice. In the C++ an atom outside the stack is out-of-bounds access.
- Potential2D.LutAt: table reads outside the table are undefined in the C++. The model reads zero there.
- The 3D tables are stored as reals. The C++ stores complex values whose imaginary part is always 0.
- Probe.ConvergentWave.NormalizeProbe: a probe of total intensity 0 (NaN in the C++) is left unchanged.
- Probe.ConvergentWave.FormProbe requires a positive AIS edge, positive `dx` and `dy`, a non-zero wavelength and, when the Gaussian is on, a non-zero Gaussian scale. The C++ divides by each.
- Probe.GaussNumerator: the unsigned `m_nx * m_nx` in the Gaussian's denominator is taken unwrapped. Only the numerator's wrap is modelled.
- Crystal.Crystal.TiltBoxed: the `atomSize` bookkeeping and the unsigned floors of the box limits (crystal.cpp 463-491) are left out. So is the random displacement loop (`q1`/`q2` from `gasdev`): the displacement is a parameter.
- Crystal.Crystal.MakeCrystal requires cell counts of at least 1 in the NCell mode. The corner loop at crystal.cpp:301-303 steps by `ncx` (likewise `ncy`, `ncz`), so a zero count never ends it. The contract also leaves unstated that the NCell branch keeps the cell lengths.
- Crystal.CornerPoints lists eight corners for any cell counts; for a zero count the C++ corner loop does not terminate. Every method that uses it requires counts of at least 1.
- Crystal.Corners likewise lists eight corners for any cell counts.
- Crystal.SuperCellBox, Crystal.SuperCellExtent, Crystal.Crystal.NCellBranch and Crystal.Crystal.SuperCellSizes require cell counts of at least 1, for the same reason.
- PhononFile.Decode gives `None` on a short file. crystal.cpp:918-940 ignores every `fread` result, so the C++ goes on with indeterminate buffers.
- WaveBase.Wave.ToFourierSpace and WaveBase.Wave.ToRealSpace: the FFT bodies are not part of this model (wave_base.hpp:60-61 only declares them). The transform is a parameter, taken as exact; the methods flip the space flag and keep the frequencies, cutoff and wavelength.
- PhononFile.Amplitude requires a non-zero mass and `Nk > 0`. A zero mass gives an infinite amplitude in the C++.

## Findings

| source | as written | input that shows it | evidently intended | confidence | as-written member | corrected member |
|---|---|---|---|---|---|---|
| libs/crystal.cpp:688-696 | after `m_atoms.resize`, the shared-site grouping reads the zero-initialised `m_atoms[i]` (Znum 0), not `m_baseAtoms[i]` | two base atoms on one site with occupancy 0.5 each: both are kept in every cell | group the base atoms and keep one per site | not executed | Crystal.PlaceholderGroupingKeepsBoth | Crystal.SharedSiteOneSurvives |
| libs/crystal.cpp:539 | `unsigned atomCount = 0` is declared inside the per-atom loop, so each group writes over the start of the buffer | two groups each keeping one atom: slot 0 ends as the second atom and the first is lost | one running count across groups | not executed | Crystal.ShadowedCountLosesGroups | Crystal.Crystal.TiltBoxed |
| libs/potentials/pot_3d_fft.cpp:208-259 | `iaz0 = iAtomZ - iRadZ` is computed in unsigned arithmetic, and the loop compares an `int` with it | ten slices, iRadZ = 1, atom in slice 5: the slice loop never runs | the signed range clipped to the stack, as in the clipped mode | not executed | Potential3D.SliceLoopCounterexample | Potential3D.SliceLoopCorrected |
| libs/potentials/pot_3d_fft.cpp:194-231 | `iax0 = iAtomX - iRadX` is unsigned, so an atom near the left edge gets a huge start column | atom in column 0, half-width 1: no column is deposited | columns iAtomX − iRadX .. iAtomX + iRadX − 1, wrapped | not executed | Potential3D.LeftEdgeColumnsLost | Potential3D.PeriodicColumns |
| libs/potentials/pot_3d_fft.cpp:343 | SliceSetup overwrites `m_nx` and `m_ny` with the table's size, and the add functions then clip (line 62) and wrap (line 312) by it, while the stack is the image's size | atom radius 8, unit pixels, 512 by 512 image, table 32 wide: an atom at pixel (100, 100) adds nothing in the clipped mode | clip and wrap by the image's size (`Model.nx`, `Model.ny`) | not executed | Potential3D.TableWidthCounterexample | Potential3D.ClipByImageKeepsAtom |
| libs/potentials/pot_2d_fft.cpp:146 | the target column `(iAtomX + iax) % _nx` is reduced by the table width `_nx`, not the image width | atom at column 10, half-width 2, table width 8, image 64: first column 2, not 8 | wrap modulo the image width | not executed | Potential2D.PeriodicColumnCounterexample | Potential2D.PeriodicPatch |
| libs/potentials/pot_2d_fft.cpp:128 | the y offset divides by `dx` | dx = 1, dy = 2: the offset is −28, not −32 | divide by `dy` | not executed | Potential2D.PeriodicYScaleCounterexample | Potential2D.PeriodicPatch |
| libs/potentials/pot_2d_fft.cpp:122-132 | the offset starts from `iax0`, which already holds `+ _nx`, subtracts `_nx` again, and its floor is stored unsigned before it is subtracted back | atom at 5.25 pixels in pixel 5, half-width 2, table width 8, dx = 1: the fraction is 0.5 − 2^32, not 0.5 | the sub-sample fraction of the atom in its pixel, in [0, 1) | not executed | Potential2D.PeriodicFractionNegative | Potential2D.PeriodicPatch |
| libs/potentials/pot_2d_fft.cpp:88-137 | the clipped mode's weights s12 and s21 are exchanged, and the periodic mode's are also reflected | a table growing in x only: both modes interpolate along y | bilinear weights with ddx along x | not executed | Potential2D.WeightsMisplacedAsWritten | Potential2D.BilinearPartition |
| libs/potentials/RealSpacePotential.cpp:33-38 | `iax + iAtomX` is unsigned, so it is never negative, and for an atom near the left edge it wraps beyond nx | an atom closer to the left edge than its radius: the loop breaks at once and the atom adds nothing | clip the walk to the image | not executed | RealSpace.LeftEdgeAtomDroppedAsWritten | RealSpace.WalkIsTheFilteredBox |
| libs/potentials/RealSpacePotential.cpp:41-56 | the corner offset uses the unsigned sum `iAtomX + iax`, so a column left of the image lies 2^32 pixels away | atom at x = 0.5, unit pixels, radius 2: its left neighbour fails the radius filter | the signed offset, wrapped only for the pixel index | not executed | RealSpace.PeriodicLeftNeighbourLostAsWritten | RealSpace.AddAtomRealSpace |
| libs/experiments/base.cpp:377-378 | the inner loop tests and increments `i` instead of `j` | any wave with nx ≥ 1 and ny ≥ 2: cell (0, 1) is never propagated | visit every (i, j) | not executed | Experiment.PropagateMissesCellsAsWritten | Experiment.ExperimentBase.Propagate |
| libs/experiments/base.cpp:443 | `m_avgArray[i]*m_avgCount+dp[i]/(m_avgCount+1)` | two patterns of 1: the average becomes 1.5 | the running mean (avg·count + dp)/(count + 1) | not executed | Experiment.MeanStepAsWrittenDiverges | Experiment.RunningMeanIsMean |
| libs/experiments/base.cpp:437-448 | `chisq` is never initialised | any non-zero leftover value in its storage is added to `m_chisq` | start the sum at 0 | not executed | Experiment.ChiSqAsWrittenCarriesGarbage | Experiment.ExperimentBase.AddDPToAvgArray |
| libs/wavefunctions/wave_convergent.cpp:215-219 | `iy - m_ny` is unsigned before the conversion to double | n = 4, i = 3: frequency index 2^32 − 1, not −1 | the signed index i − n | not executed | Probe.SignedFreqAsWrittenNeverNegative | Probe.SignedFreq |
| libs/wavefunctions/wave_convergent.cpp:243 | `m_a62 = 0` assigns instead of comparing | a probe whose only sixth-order aberration is a_6,2 > 0: it is dropped | test `m_a62 > 0` like the other orders | not executed | Probe.SixthAsWrittenDropsA62 | Probe.ConvergentWave.FormProbe |
| libs/wavefunctions/wave_convergent.cpp:291 | the Gaussian's numerator is computed in unsigned arithmetic, unary minus included | any pixel off the centre: the exponent is positive, shifted by 2^32 | the negative squared distance | not executed | Probe.GaussNumeratorAsWrittenShifted | Probe.ConvergentWave.DampGauss |
| libs/wavefunctions/wave_convergent.cpp:255-266 | the rim value carries −sin χ while the inside carries +sin χ | any rim frequency with sin χ ≠ 0: the rim holds half the conjugate | half the inside value | not executed | Probe.RimConjugatedAsWritten | Probe.ApertureValue |
