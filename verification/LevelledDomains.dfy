/** The domains on which a solution's heating is all of voltage times current, told from their shape alone. */
module LevelledDomains {
  import opened Vectors
  import opened VoxelGrid
  import opened Connectivity
  import opened LinearSystem
  import opened FiniteVolume
  import opened Options
  import opened DomainTheory
  import opened CellBalance
  import opened DcCurrent
  import opened PrismConductor
  import opened JouleHeating

  /** Occupied along the whole axis. */
  predicate FullColumn(dom: VoxelDomain, j: int, k: int) {
    forall i | 0 <= i < dom.shape.n0 :: Filled(dom, i, j, k)
  }

  function LevelAt(dom: VoxelDomain, levels: seq<int>, i: int, j: int, k: int): int {
    var c := VoxelIndex(i, j, k, dom.shape);
    if 0 <= c < |levels| then levels[c] else 0
  }

  /** Axial neighbours outside the full columns, and lateral neighbours, have the same level. */
  predicate LevelsAgree(dom: VoxelDomain, levels: seq<int>) {
    var n0, n1, n2 := dom.shape.n0, dom.shape.n1, dom.shape.n2;
    && (forall i, m, j, k | 0 <= j < n1 && 0 <= k < n2 && 0 <= i < n0 && 0 <= m < n0 ::
          m == i + 1 && Filled(dom, i, j, k) && Filled(dom, m, j, k) && !FullColumn(dom, j, k) ==>
            LevelAt(dom, levels, m, j, k) == LevelAt(dom, levels, i, j, k))
    && (forall i, j, m, k | 0 <= i < n0 && 0 <= k < n2 && 0 <= j < n1 && 0 <= m < n1 ::
          m == j + 1 && Filled(dom, i, j, k) && Filled(dom, i, m, k) ==>
            LevelAt(dom, levels, i, m, k) == LevelAt(dom, levels, i, j, k))
    && (forall i, j, k, m | 0 <= i < n0 && 0 <= j < n1 && 0 <= k < n2 && 0 <= m < n2 ::
          m == k + 1 && Filled(dom, i, j, k) && Filled(dom, i, j, m) ==>
            LevelAt(dom, levels, i, j, m) == LevelAt(dom, levels, i, j, k))
  }

  /** In the full columns the level is the axial index; nothing else reaches a terminal slab. */
  predicate Levels(dom: VoxelDomain, levels: seq<int>) {
    && |levels| == |dom.occupancy|
    && (forall i, j, k | 0 <= i < dom.shape.n0 && 0 <= j < dom.shape.n1 && 0 <= k < dom.shape.n2 ::
          FullColumn(dom, j, k) ==> LevelAt(dom, levels, i, j, k) == i)
    && LevelsAgree(dom, levels)
    && OnlyColumnsTouch(dom)
  }

  predicate OnlyColumnsTouch(dom: VoxelDomain) {
    && (forall j, k | 0 <= j < dom.shape.n1 && 0 <= k < dom.shape.n2 :: Filled(dom, 0, j, k) ==> FullColumn(dom, j, k))
    && (forall j, k | 0 <= j < dom.shape.n1 && 0 <= k < dom.shape.n2 ::
        Filled(dom, dom.shape.n0 - 1, j, k) ==> FullColumn(dom, j, k))
  }

  /** A domain that can be levelled. */
  ghost predicate Levelled(dom: VoxelDomain) {
    exists levels: seq<int> :: Levels(dom, levels)
  }

  // --- A levelled domain is solved by the linear profile of its levels ---

  function LevelProfile(dom: VoxelDomain, levels: seq<int>, source: real, reference: real): (y: Vec)
    requires dom.Valid() && |levels| == |dom.occupancy|
    ensures |y| == |dom.Cells()|
  {
    var cells := dom.Cells();
    seq(|cells|, a requires 0 <= a < |cells| =>
      Profile(dom, source, reference, if 0 <= cells[a] < |levels| then levels[cells[a]] else 0))
  }

  lemma LevelPotential(dom: VoxelDomain, levels: seq<int>, source: real, reference: real, i: int, j: int, k: int)
    requires dom.Valid() && |levels| == |dom.occupancy| && Filled(dom, i, j, k)
    ensures PotentialAt(dom, LevelProfile(dom, levels, source, reference), i, j, k)
      == Profile(dom, source, reference, LevelAt(dom, levels, i, j, k))
  {
    hide VoxelIndex, Shape.Size, ActiveBelow, Profile;
    CellOf(dom, VoxelIndex(i, j, k, dom.shape));
  }

  // What a full column carries.
  function ColumnFlux(dom: VoxelDomain, source: real, reference: real, j: int, k: int): real
    requires dom.Valid()
  {
    if FullColumn(dom, j, k) then dom.Weights()[0] * ((source - reference) / dom.shape.n0 as real) else 0.0
  }

  lemma LevelAxialFlux(dom: VoxelDomain, levels: seq<int>, source: real, reference: real, f: int, j: int, k: int)
    requires dom.Valid() && Levels(dom, levels) && 0 <= f <= dom.shape.n0 && 0 <= j < dom.shape.n1
    requires 0 <= k < dom.shape.n2
    ensures AxialFlux(dom, LevelProfile(dom, levels, source, reference), source, reference, f, j, k)
      == ColumnFlux(dom, source, reference, j, k)
  {
    hide VoxelIndex, PotentialAt, Profile, VoxelDomain.Weights, LevelAt, LevelProfile, Shape.Size;
    var n, w := dom.shape.n0, dom.Weights()[0];
    NegatedQuotient(source, reference, n as real);
    if f < n && Filled(dom, f, j, k) {
      LevelPotential(dom, levels, source, reference, f, j, k);
    }
    if 0 < f && Filled(dom, f - 1, j, k) {
      LevelPotential(dom, levels, source, reference, f - 1, j, k);
    }
    ProfileSteps(dom, source, reference, f - 1);
  }

  lemma LevelLateralFlux(dom: VoxelDomain, levels: seq<int>, source: real, reference: real, i: int, j: int, k: int)
    requires dom.Valid() && Levels(dom, levels)
    ensures UFlux(dom, LevelProfile(dom, levels, source, reference), i, j, k) == 0.0
    ensures VFlux(dom, LevelProfile(dom, levels, source, reference), i, j, k) == 0.0
  {
    hide VoxelIndex, PotentialAt, Profile, VoxelDomain.Weights, LevelAt, LevelProfile, FullColumn, Shape.Size;
    if Filled(dom, i, j, k) {
      LevelPotential(dom, levels, source, reference, i, j, k);
      if Filled(dom, i, j - 1, k) {
        LevelPotential(dom, levels, source, reference, i, j - 1, k);
        assert LevelAt(dom, levels, i, j, k) == LevelAt(dom, levels, i, j - 1, k);
      }
      if Filled(dom, i, j, k - 1) {
        LevelPotential(dom, levels, source, reference, i, j, k - 1);
        assert LevelAt(dom, levels, i, j, k) == LevelAt(dom, levels, i, j, k - 1);
      }
    }
  }

  lemma LevelResidual(dom: VoxelDomain, levels: seq<int>, source: real, reference: real, i: int, j: int, k: int)
    requires dom.Valid() && |levels| == |dom.occupancy| && Levels(dom, levels) && dom.NoIsolatedCell()
    requires dom.shape.Contains(i, j, k)
    ensures ResidualAt(dom, source, reference, LevelProfile(dom, levels, source, reference), i, j, k) == 0.0
  {
    hide AxialFlux, UFlux, VFlux, ColumnFlux, ResidualAt, Filled, Levels, LevelProfile, VoxelDomain.Weights, FullColumn;
    hide VoxelDomain.SystemOf, VoxelDomain.NoIsolatedCell, VoxelDomain.Cells, VoxelDomain.Valid, Shape.Size;
    FluxBalance(dom, source, reference, LevelProfile(dom, levels, source, reference), i, j, k);
    LevelAxialFlux(dom, levels, source, reference, i, j, k);
    LevelAxialFlux(dom, levels, source, reference, i + 1, j, k);
    LevelLateralFlux(dom, levels, source, reference, i, j, k);
    LevelLateralFlux(dom, levels, source, reference, i, j + 1, k);
    LevelLateralFlux(dom, levels, source, reference, i, j, k + 1);
  }

  /** The linear profile of the levels is a solution. */
  lemma LevelProfileSolves(dom: VoxelDomain, levels: seq<int>, source: real, reference: real)
    requires dom.Valid() && Levels(dom, levels) && dom.NoIsolatedCell()
    ensures Solves(dom.SystemOf(source, reference, None), LevelProfile(dom, levels, source, reference))
  {
    assert |levels| == |dom.occupancy|;
    hide VoxelDomain.SystemOf, VoxelIndex, AxialOf, UOf, VOf, Shape.Size, VoxelDomain.DiagonalOf, Levels, LevelProfile;
    hide FiniteVolumeSystem.Apply, ActiveBelow, Rank;
    var sys, y := dom.SystemOf(source, reference, None), LevelProfile(dom, levels, source, reference);
    Shaped(dom, source, reference, None);
    var r := sys.Residual(y);
    forall a | 0 <= a < |r| ensures r[a] == 0.0 {
      CellAt(dom, a);
      var c := dom.Cells()[a];
      assert |dom.occupancy| == dom.shape.Size();
      Encode(c, dom.shape);
      LevelResidual(dom, levels, source, reference, AxialOf(c, dom.shape), UOf(c, dom.shape), VOf(c, dom.shape));
      assert At(r, a) == 0.0;
    }
    assert forall a :: 0 <= a < |r| ==> r[a] == sys.rhs[a] + -1.0 * sys.Apply(y)[a];
  }

  lemma LevelSlopes(dom: VoxelDomain, levels: seq<int>, source: real, reference: real, i: int, j: int, k: int,
                    axis: int, plus: bool)
    requires dom.Valid() && Levels(dom, levels) && Filled(dom, i, j, k) && 0 <= axis < 3
    ensures Slope(dom, LevelProfile(dom, levels, source, reference), source, reference, i, j, k, axis, plus)
      == if axis == 0 && FullColumn(dom, j, k)
        then ((reference - source) / dom.shape.n0 as real) / dom.axialSpacing else 0.0
  {
    hide VoxelIndex, PotentialAt, Profile, LevelAt, LevelProfile, Shape.Size;
    var o := Offset(2 * axis + if plus then 1 else 0);
    LevelPotential(dom, levels, source, reference, i, j, k);
    ProfileSteps(dom, source, reference, i);
    ProfileSteps(dom, source, reference, i - 1);
    if Filled(dom, i + o.0, j + o.1, k + o.2) {
      LevelPotential(dom, levels, source, reference, i + o.0, j + o.1, k + o.2);
    } else if axis == 0 && FullColumn(dom, j, k) {
      assert !dom.shape.Contains(i + o.0, j, k);
    }
  }

  lemma LevelEven(dom: VoxelDomain, levels: seq<int>, source: real, reference: real)
    requires dom.Valid() && Levels(dom, levels)
    ensures EvenEverywhere(dom, LevelProfile(dom, levels, source, reference), source, reference)
  {
    assert |levels| == |dom.occupancy|;
    hide Levels, LevelProfile, Slope, Filled, FullColumn;
    var y := LevelProfile(dom, levels, source, reference);
    forall i, j, k | dom.shape.Contains(i, j, k) ensures Unevenness(dom, y, source, reference, i, j, k) == 0.0 {
      if Filled(dom, i, j, k) {
        forall axis | 0 <= axis < 3
          ensures Slope(dom, y, source, reference, i, j, k, axis, false)
            == Slope(dom, y, source, reference, i, j, k, axis, true)
        {
          LevelSlopes(dom, levels, source, reference, i, j, k, axis, false);
          LevelSlopes(dom, levels, source, reference, i, j, k, axis, true);
        }
        EvenMeansEqualSlopes(dom, y, source, reference, i, j, k);
      }
    }
  }

  // --- An even solution levels its domain: slopes along the rows of a cell ---

  ghost predicate Even(dom: VoxelDomain, x: Vec, source: real, reference: real)
    requires dom.Valid()
  {
    forall i, j, k, axis | Filled(dom, i, j, k) && 0 <= axis < 3 ::
      Slope(dom, x, source, reference, i, j, k, axis, false) == Slope(dom, x, source, reference, i, j, k, axis, true)
  }

  lemma EvenSlopes(dom: VoxelDomain, x: Vec, source: real, reference: real)
    requires dom.Valid() && EvenEverywhere(dom, x, source, reference)
    ensures Even(dom, x, source, reference)
  {
    hide Slope, Unevenness, VoxelDomain.Valid;
    forall i, j, k, axis | Filled(dom, i, j, k) && 0 <= axis < 3
      ensures Slope(dom, x, source, reference, i, j, k, axis, false)
        == Slope(dom, x, source, reference, i, j, k, axis, true)
    {
      assert dom.shape.Contains(i, j, k);
      EvenMeansEqualSlopes(dom, x, source, reference, i, j, k);
    }
  }

  lemma QuotientsAgree(a: real, b: real, h: real)
    requires h > 0.0 && a / h == b / h
    ensures a == b
  {
    assert a == (a / h) * h && b == (b / h) * h;
  }

  lemma ZeroQuotient(a: real, h: real)
    requires h > 0.0 && a / h == 0.0
    ensures a == 0.0
  {
    assert a == (a / h) * h;
  }

  // A slope seen from both of its ends.
  lemma SharedSlope(dom: VoxelDomain, x: Vec, source: real, reference: real, i: int, j: int, k: int, axis: int)
    requires dom.Valid() && 0 <= axis < 3 && Filled(dom, i, j, k)
    requires var o := Offset(2 * axis); Filled(dom, i + o.0, j + o.1, k + o.2)
    ensures var o, h := Offset(2 * axis), Spacing(dom, axis);
      && Slope(dom, x, source, reference, i, j, k, axis, false)
        == Slope(dom, x, source, reference, i + o.0, j + o.1, k + o.2, axis, true)
      && Slope(dom, x, source, reference, i, j, k, axis, false)
         == (PotentialAt(dom, x, i, j, k) - PotentialAt(dom, x, i + o.0, j + o.1, k + o.2)) / h
  {
    hide Filled, PotentialAt, Spacing;
  }

  lemma NoSlope(dom: VoxelDomain, x: Vec, source: real, reference: real, i: int, j: int, k: int, axis: int, plus: bool)
    requires dom.Valid() && 0 <= axis < 3
    requires var o := Offset(2 * axis + if plus then 1 else 0); !Filled(dom, i + o.0, j + o.1, k + o.2)
    requires axis == 0 ==> if plus then i != dom.shape.n0 - 1 else i != 0
    ensures Slope(dom, x, source, reference, i, j, k, axis, plus) == 0.0
  {
    hide Filled, PotentialAt, Spacing;
  }

  // Rows across the axis end at insulated faces.
  lemma {:induction false} FlatAcross(dom: VoxelDomain, x: Vec, source: real, reference: real, i: int, j: int, k: int,
                                      axis: int)
    requires dom.Valid() && Even(dom, x, source, reference) && Filled(dom, i, j, k) && 1 <= axis < 3
    ensures Slope(dom, x, source, reference, i, j, k, axis, false) == 0.0
    decreases j + k
  {
    hide Slope, VoxelIndex, VoxelDomain.Valid, Shape.Size;
    var o := Offset(2 * axis);
    if Filled(dom, i + o.0, j + o.1, k + o.2) {
      FlatAcross(dom, x, source, reference, i + o.0, j + o.1, k + o.2, axis);
      SharedSlope(dom, x, source, reference, i, j, k, axis);
    } else {
      NoSlope(dom, x, source, reference, i, j, k, axis, false);
    }
  }

  // So does a column that is empty somewhere below, or above.
  lemma {:induction false} FlatAbove(dom: VoxelDomain, x: Vec, source: real, reference: real, gap: int, i: int, j: int,
                                     k: int)
    requires dom.Valid() && Even(dom, x, source, reference) && Filled(dom, i, j, k)
    requires 0 <= gap < i && !Filled(dom, gap, j, k)
    ensures Slope(dom, x, source, reference, i, j, k, 0, false) == 0.0
    decreases i
  {
    hide Slope, VoxelIndex, VoxelDomain.Valid, Shape.Size;
    if Filled(dom, i - 1, j, k) {
      FlatAbove(dom, x, source, reference, gap, i - 1, j, k);
      SharedSlope(dom, x, source, reference, i, j, k, 0);
    } else {
      NoSlope(dom, x, source, reference, i, j, k, 0, false);
    }
  }

  lemma {:induction false} FlatBelow(dom: VoxelDomain, x: Vec, source: real, reference: real, gap: int, i: int, j: int,
                                     k: int)
    requires dom.Valid() && Even(dom, x, source, reference) && Filled(dom, i, j, k)
    requires i < gap < dom.shape.n0 && !Filled(dom, gap, j, k)
    ensures Slope(dom, x, source, reference, i, j, k, 0, true) == 0.0
    decreases gap - i
  {
    hide Slope, VoxelIndex, VoxelDomain.Valid, Shape.Size;
    if Filled(dom, i + 1, j, k) {
      FlatBelow(dom, x, source, reference, gap, i + 1, j, k);
      SharedSlope(dom, x, source, reference, i + 1, j, k, 0);
    } else {
      NoSlope(dom, x, source, reference, i, j, k, 0, true);
    }
  }

  /** Outside the full columns the axial slopes vanish. */
  lemma FlatColumn(dom: VoxelDomain, x: Vec, source: real, reference: real, i: int, j: int, k: int)
    requires dom.Valid() && Even(dom, x, source, reference) && Filled(dom, i, j, k) && !FullColumn(dom, j, k)
    ensures Slope(dom, x, source, reference, i, j, k, 0, false) == 0.0
    ensures Slope(dom, x, source, reference, i, j, k, 0, true) == 0.0
  {
    hide Slope, VoxelDomain.Valid, Shape.Size, VoxelIndex;
    var gap :| 0 <= gap < dom.shape.n0 && !Filled(dom, gap, j, k);
    if gap < i {
      FlatAbove(dom, x, source, reference, gap, i, j, k);
    } else {
      FlatBelow(dom, x, source, reference, gap, i, j, k);
    }
  }

  // --- The potentials of an even solution ---

  lemma SameAcross(dom: VoxelDomain, x: Vec, source: real, reference: real, i: int, j: int, k: int, axis: int)
    requires dom.Valid() && Even(dom, x, source, reference) && Filled(dom, i, j, k) && 1 <= axis < 3
    requires var o := Offset(2 * axis); Filled(dom, i + o.0, j + o.1, k + o.2)
    ensures var o := Offset(2 * axis); PotentialAt(dom, x, i + o.0, j + o.1, k + o.2) == PotentialAt(dom, x, i, j, k)
  {
    hide Slope, VoxelDomain.Valid, Filled, PotentialAt, Even;
    var o := Offset(2 * axis);
    FlatAcross(dom, x, source, reference, i, j, k, axis);
    SharedSlope(dom, x, source, reference, i, j, k, axis);
    ZeroQuotient(PotentialAt(dom, x, i, j, k) - PotentialAt(dom, x, i + o.0, j + o.1, k + o.2), Spacing(dom, axis));
  }

  lemma SameInColumn(dom: VoxelDomain, x: Vec, source: real, reference: real, i: int, j: int, k: int)
    requires dom.Valid() && Even(dom, x, source, reference) && !FullColumn(dom, j, k)
    requires Filled(dom, i, j, k) && Filled(dom, i - 1, j, k)
    ensures PotentialAt(dom, x, i - 1, j, k) == PotentialAt(dom, x, i, j, k)
  {
    hide Slope, VoxelDomain.Valid, Filled, PotentialAt, Even, FullColumn;
    FlatColumn(dom, x, source, reference, i, j, k);
    SharedSlope(dom, x, source, reference, i, j, k, 0);
    ZeroQuotient(PotentialAt(dom, x, i, j, k) - PotentialAt(dom, x, i - 1, j, k), Spacing(dom, 0));
  }

  lemma TerminalSlopes(dom: VoxelDomain, x: Vec, source: real, reference: real, j: int, k: int)
    requires dom.Valid()
    ensures Slope(dom, x, source, reference, 0, j, k, 0, false)
      == 2.0 * (PotentialAt(dom, x, 0, j, k) - source) / Spacing(dom, 0)
    ensures Slope(dom, x, source, reference, dom.shape.n0 - 1, j, k, 0, true)
      == 2.0 * (reference - PotentialAt(dom, x, dom.shape.n0 - 1, j, k)) / Spacing(dom, 0)
  {
    hide PotentialAt, Spacing, VoxelIndex, Shape.Size;
  }

  /** A cell in a terminal slab has the terminal's potential, unless its column is full. */
  lemma TerminalPotential(dom: VoxelDomain, x: Vec, source: real, reference: real, j: int, k: int)
    requires dom.Valid() && Even(dom, x, source, reference) && !FullColumn(dom, j, k)
    ensures Filled(dom, 0, j, k) ==> PotentialAt(dom, x, 0, j, k) == source
    ensures Filled(dom, dom.shape.n0 - 1, j, k) ==> PotentialAt(dom, x, dom.shape.n0 - 1, j, k) == reference
  {
    hide Slope, VoxelDomain.Valid, Filled, PotentialAt, Even, FullColumn, Spacing;
    var last := dom.shape.n0 - 1;
    TerminalSlopes(dom, x, source, reference, j, k);
    if Filled(dom, 0, j, k) {
      FlatColumn(dom, x, source, reference, 0, j, k);
      ZeroQuotient(2.0 * (PotentialAt(dom, x, 0, j, k) - source), Spacing(dom, 0));
    }
    if Filled(dom, last, j, k) {
      FlatColumn(dom, x, source, reference, last, j, k);
      ZeroQuotient(2.0 * (reference - PotentialAt(dom, x, last, j, k)), Spacing(dom, 0));
    }
  }

  // The drop over the face below a cell of a full column; over the terminal faces, twice that of the half cell.
  function Drop(dom: VoxelDomain, x: Vec, source: real, reference: real, f: int, j: int, k: int): real {
    if f == 0 then 2.0 * (PotentialAt(dom, x, 0, j, k) - source)
    else if f == dom.shape.n0 then 2.0 * (reference - PotentialAt(dom, x, f - 1, j, k))
    else PotentialAt(dom, x, f, j, k) - PotentialAt(dom, x, f - 1, j, k)
  }

  lemma ColumnSlopes(dom: VoxelDomain, x: Vec, source: real, reference: real, i: int, j: int, k: int)
    requires dom.Valid() && FullColumn(dom, j, k) && 0 <= i < dom.shape.n0
    ensures Slope(dom, x, source, reference, i, j, k, 0, false)
      == Drop(dom, x, source, reference, i, j, k) / Spacing(dom, 0)
    ensures Slope(dom, x, source, reference, i, j, k, 0, true)
      == Drop(dom, x, source, reference, i + 1, j, k) / Spacing(dom, 0)
  {
    hide Slope, VoxelDomain.Valid, Filled, PotentialAt, Spacing;
    TerminalSlopes(dom, x, source, reference, j, k);
    assert Filled(dom, i, j, k);
    if i > 0 {
      assert Filled(dom, i - 1, j, k);
      SharedSlope(dom, x, source, reference, i, j, k, 0);
    }
    if i + 1 < dom.shape.n0 {
      assert Filled(dom, i + 1, j, k);
      SharedSlope(dom, x, source, reference, i + 1, j, k, 0);
    }
  }

  lemma {:induction false} EqualDrops(dom: VoxelDomain, x: Vec, source: real, reference: real, f: nat, j: int, k: int)
    requires dom.Valid() && Even(dom, x, source, reference) && FullColumn(dom, j, k) && f <= dom.shape.n0
    ensures Drop(dom, x, source, reference, f, j, k) == Drop(dom, x, source, reference, 0, j, k)
  {
    hide Slope, VoxelDomain.Valid, Drop, Spacing;
    if f > 0 {
      EqualDrops(dom, x, source, reference, f - 1, j, k);
      assert Filled(dom, f - 1, j, k);
      hide Filled;
      ColumnSlopes(dom, x, source, reference, f - 1, j, k);
      QuotientsAgree(Drop(dom, x, source, reference, f - 1, j, k), Drop(dom, x, source, reference, f, j, k),
                     Spacing(dom, 0));
    }
  }

  lemma {:induction false} ColumnClimbs(dom: VoxelDomain, x: Vec, source: real, reference: real, i: nat, j: int, k: int)
    requires dom.Valid() && Even(dom, x, source, reference) && FullColumn(dom, j, k) && i < dom.shape.n0
    ensures PotentialAt(dom, x, i, j, k)
      == PotentialAt(dom, x, 0, j, k) + i as real * Drop(dom, x, source, reference, 0, j, k)
  {
    hide VoxelDomain.Valid, PotentialAt, Even, FullColumn;
    if i > 0 {
      ColumnClimbs(dom, x, source, reference, i - 1, j, k);
      EqualDrops(dom, x, source, reference, i, j, k);
      var d := Drop(dom, x, source, reference, 0, j, k);
      assert i as real * d == (i - 1) as real * d + d;
    }
  }

  /** A full column has the linear profile. */
  lemma ColumnPotential(dom: VoxelDomain, x: Vec, source: real, reference: real, i: nat, j: int, k: int)
    requires dom.Valid() && Even(dom, x, source, reference) && FullColumn(dom, j, k) && i < dom.shape.n0
    ensures PotentialAt(dom, x, i, j, k) == Profile(dom, source, reference, i)
  {
    hide PotentialAt, Even, FullColumn, Shape.Size;
    var n := dom.shape.n0;
    ColumnClimbs(dom, x, source, reference, i, j, k);
    ColumnClimbs(dom, x, source, reference, n - 1, j, k);
    EqualDrops(dom, x, source, reference, n, j, k);
    ProfileAlgebra(PotentialAt(dom, x, 0, j, k), PotentialAt(dom, x, n - 1, j, k), PotentialAt(dom, x, i, j, k),
                   Drop(dom, x, source, reference, 0, j, k), source, reference, i as real, n as real);
  }

  lemma ProfileAlgebra(first: real, last: real, p: real, d: real, source: real, reference: real, i: real, n: real)
    requires n > 0.0 && d == 2.0 * (first - source) && d == 2.0 * (reference - last)
    requires last == first + (n - 1.0) * d && p == first + i * d
    ensures p == source + (reference - source) * ((i + 0.5) / n)
  {
    assert (n - 1.0) * d == n * d - d;
    assert reference - source == n * d;
    var q := (i + 0.5) / n;
    assert q * n == i + 0.5;
    assert n * d * q == d * (q * n);
    assert d * (i + 0.5) == i * d + d / 2.0;
  }

  // --- Nothing but full columns reaches a terminal ---

  lemma ProfileInside(dom: VoxelDomain, source: real, reference: real, i: int)
    requires dom.Valid() && source != reference && 0 <= i < dom.shape.n0
    ensures Profile(dom, source, reference, i) != source && Profile(dom, source, reference, i) != reference
  {
    hide Shape.Size, OccupiedCells;
    InsideAlgebra(source, reference, i as real, dom.shape.n0 as real, Profile(dom, source, reference, i));
  }

  lemma InsideAlgebra(s: real, r: real, i: real, n: real, p: real)
    requires s != r && 0.0 <= i <= n - 1.0 && n > 0.0 && p == s + (r - s) * ((i + 0.5) / n)
    ensures p != s && p != r
  {
    var q, d := (i + 0.5) / n, r - s;
    assert q * n == i + 0.5;
    assert 0.0 < q < 1.0;
    var near, far := d * q, d * (1.0 - q);
    assert near + far == d;
    if d > 0.0 {
      ProductPositive(d, q, near);
      ProductPositive(d, 1.0 - q, far);
    } else {
      ProductPositive(-d, q, -near);
      ProductPositive(-d, 1.0 - q, -far);
    }
  }

  // A step along any link from outside the full columns keeps the potential.
  lemma StepKeepsPotential(dom: VoxelDomain, x: Vec, source: real, reference: real, i: int, j: int, k: int, slot: int)
    requires dom.Valid() && Even(dom, x, source, reference) && 0 <= slot < 6
    requires Filled(dom, i, j, k) && !FullColumn(dom, j, k)
    requires var o := Offset(slot); Filled(dom, i + o.0, j + o.1, k + o.2)
    ensures var o := Offset(slot); PotentialAt(dom, x, i + o.0, j + o.1, k + o.2) == PotentialAt(dom, x, i, j, k)
  {
    hide VoxelDomain.Valid, Filled, PotentialAt, Even, FullColumn;
    if slot == 0 {
      SameInColumn(dom, x, source, reference, i, j, k);
    } else if slot == 1 {
      SameInColumn(dom, x, source, reference, i + 1, j, k);
    } else if slot == 2 {
      SameAcross(dom, x, source, reference, i, j, k, 1);
    } else if slot == 3 {
      SameAcross(dom, x, source, reference, i, j + 1, k, 1);
    } else if slot == 4 {
      SameAcross(dom, x, source, reference, i, j, k, 2);
    } else {
      SameAcross(dom, x, source, reference, i, j, k + 1, 2);
    }
  }

  /** The cell is outside the full columns and has a terminal's potential. */
  predicate OffColumn(dom: VoxelDomain, x: Vec, v: real, i: int, j: int, k: int) {
    Filled(dom, i, j, k) && !FullColumn(dom, j, k) && PotentialAt(dom, x, i, j, k) == v
  }

  lemma StepOffColumn(dom: VoxelDomain, x: Vec, source: real, reference: real, v: real, i: int, j: int, k: int,
                      slot: int)
    requires dom.Valid() && Even(dom, x, source, reference) && source != reference && (v == source || v == reference)
    requires OffColumn(dom, x, v, i, j, k) && 0 <= slot < 6
    requires var o := Offset(slot); Filled(dom, i + o.0, j + o.1, k + o.2)
    ensures var o := Offset(slot); OffColumn(dom, x, v, i + o.0, j + o.1, k + o.2)
  {
    hide PotentialAt, Even, FullColumn, Profile, VoxelIndex, Shape.Size;
    var o := Offset(slot);
    StepKeepsPotential(dom, x, source, reference, i, j, k, slot);
    if FullColumn(dom, j + o.1, k + o.2) {
      ColumnPotential(dom, x, source, reference, i + o.0, j + o.1, k + o.2);
      ProfileInside(dom, source, reference, i + o.0);
    }
  }

  predicate OffColumnCell(dom: VoxelDomain, x: Vec, v: real, c: int)
    requires dom.Valid()
  {
    OffColumn(dom, x, v, AxialOf(c, dom.shape), UOf(c, dom.shape), VOf(c, dom.shape))
  }

  lemma AdjacentOffColumn(dom: VoxelDomain, x: Vec, source: real, reference: real, v: real, c: int, d: int)
    requires dom.Valid() && Even(dom, x, source, reference) && source != reference && (v == source || v == reference)
    requires OffColumnCell(dom, x, v, c) && Adjacent(dom.shape, c, d) && Occupied(dom.occupancy, c)
    requires Occupied(dom.occupancy, d)
    ensures OffColumnCell(dom, x, v, d)
  {
    hide OffColumn, Even, FullColumn, VoxelIndex, AxialOf, UOf, VOf, Shape.Size;
    var slot :| 0 <= slot < 6 && NeighborCell(c, slot, dom.shape) == d;
    var o, i, j, k := Offset(slot), AxialOf(c, dom.shape), UOf(c, dom.shape), VOf(c, dom.shape);
    assert dom.shape.Contains(i + o.0, j + o.1, k + o.2) && d == VoxelIndex(i + o.0, j + o.1, k + o.2, dom.shape);
    Decode(i + o.0, j + o.1, k + o.2, dom.shape);
    StepOffColumn(dom, x, source, reference, v, i, j, k, slot);
  }

  lemma {:induction false} PathOffColumn(dom: VoxelDomain, x: Vec, source: real, reference: real, v: real, p: seq<int>)
    requires dom.Valid() && Even(dom, x, source, reference) && source != reference && (v == source || v == reference)
    requires IsPath(dom.occupancy, dom.shape, p) && OffColumnCell(dom, x, v, p[0])
    ensures OffColumnCell(dom, x, v, p[|p| - 1])
    decreases |p|
  {
    hide OffColumnCell, Even, Adjacent, Shape.Size;
    if |p| > 1 {
      AdjacentOffColumn(dom, x, source, reference, v, p[0], p[1]);
      assert IsPath(dom.occupancy, dom.shape, p[1..]);
      PathOffColumn(dom, x, source, reference, v, p[1..]);
    }
  }

  // From a cell outside the full columns with a terminal's potential every cell has it, both terminals' too.
  lemma NoneOffColumn(dom: VoxelDomain, x: Vec, source: real, reference: real, v: real, i: int, j: int, k: int)
    requires dom.Valid() && Accepts(dom) && Even(dom, x, source, reference)
    requires source != reference && (v == source || v == reference)
    ensures !OffColumn(dom, x, v, i, j, k)
  {
    if OffColumn(dom, x, v, i, j, k) {
      ReachesTerminal(dom, x, source, reference, v, i, j, k, 0);
      ReachesTerminal(dom, x, source, reference, v, i, j, k, dom.shape.n0 - 1);
      assert false;
    }
  }

  lemma ReachesTerminal(dom: VoxelDomain, x: Vec, source: real, reference: real, v: real, i: int, j: int, k: int,
                        slab: int)
    requires dom.Valid() && Accepts(dom) && Even(dom, x, source, reference)
    requires source != reference && (v == source || v == reference)
    requires OffColumn(dom, x, v, i, j, k) && (slab == 0 || slab == dom.shape.n0 - 1)
    ensures slab == 0 ==> v == source
    ensures slab == dom.shape.n0 - 1 ==> v == reference
  {
    hide Even, FullColumn, VoxelIndex, AxialOf, UOf, VOf, Shape.Size, PotentialAt, Adjacent;
    var sh := dom.shape;
    var c := VoxelIndex(i, j, k, sh);
    Decode(i, j, k, sh);
    assert MeetsSlab(dom.occupancy, sh, slab);
    var b, a :| 0 <= b < sh.n1 && 0 <= a < sh.n2 && Occupied(dom.occupancy, VoxelIndex(slab, b, a, sh));
    var t := VoxelIndex(slab, b, a, sh);
    Decode(slab, b, a, sh);
    assert Reachable(dom.occupancy, sh, c, t);
    var p :| IsPath(dom.occupancy, sh, p) && p[0] == c && p[|p| - 1] == t;
    PathOffColumn(dom, x, source, reference, v, p);
    TerminalPotential(dom, x, source, reference, b, a);
  }

  /** An even solution: nothing but full columns touches a terminal slab. */
  lemma EvenTouches(dom: VoxelDomain, x: Vec, source: real, reference: real)
    requires dom.Valid() && Accepts(dom) && Even(dom, x, source, reference) && source != reference
    ensures OnlyColumnsTouch(dom)
  {
    hide Even, FullColumn, Filled, PotentialAt, Accepts, VoxelDomain.Valid;
    forall j, k, i | 0 <= j < dom.shape.n1 && 0 <= k < dom.shape.n2
        && (i == 0 || i == dom.shape.n0 - 1) && Filled(dom, i, j, k)
      ensures FullColumn(dom, j, k)
    {
      if !FullColumn(dom, j, k) {
        TerminalPotential(dom, x, source, reference, j, k);
        NoneOffColumn(dom, x, source, reference, if i == 0 then source else reference, i, j, k);
      }
    }
  }

  // --- Levels from potentials ---

  function LevelOf(dom: VoxelDomain, p: real, source: real, reference: real): int
    requires source != reference
  {
    ((p - source) / (reference - source) * dom.shape.n0 as real - 0.5).Floor
  }

  lemma LevelOfProfile(dom: VoxelDomain, source: real, reference: real, i: int)
    requires dom.Valid() && source != reference
    ensures LevelOf(dom, Profile(dom, source, reference, i), source, reference) == i
  {
    hide Shape.Size, OccupiedCells;
    InverseAlgebra(source, reference, i as real, dom.shape.n0 as real, Profile(dom, source, reference, i));
  }

  lemma InverseAlgebra(s: real, r: real, i: real, n: real, p: real)
    requires s != r && n > 0.0 && p == s + (r - s) * ((i + 0.5) / n)
    ensures (p - s) / (r - s) * n - 0.5 == i
  {
    var q, d := (i + 0.5) / n, r - s;
    var z := (p - s) / d;
    assert z * d == p - s == q * d;
    CancelFactor(z, q, d);
    assert q * n == i + 0.5;
  }

  lemma CancelFactor(a: real, b: real, d: real)
    requires d != 0.0 && a * d == b * d
    ensures a == b
  {
    var e := a - b;
    assert e * d == 0.0;
  }

  function PotentialLevels(dom: VoxelDomain, x: Vec, source: real, reference: real): (levels: seq<int>)
    requires source != reference
    ensures |levels| == |dom.occupancy|
  {
    seq(|dom.occupancy|, c => LevelOf(dom, Potential(dom, x, c), source, reference))
  }

  lemma PotentialLevelAt(dom: VoxelDomain, x: Vec, source: real, reference: real, i: int, j: int, k: int)
    requires dom.Valid() && source != reference && Filled(dom, i, j, k)
    ensures LevelAt(dom, PotentialLevels(dom, x, source, reference), i, j, k)
      == LevelOf(dom, PotentialAt(dom, x, i, j, k), source, reference)
  {
    hide LevelOf, VoxelIndex, Potential;
  }

  lemma LevelsOfEven(dom: VoxelDomain, x: Vec, source: real, reference: real)
    requires dom.Valid() && Even(dom, x, source, reference) && source != reference
    ensures LevelsAgree(dom, PotentialLevels(dom, x, source, reference))
  {
    hide Even, FullColumn, LevelAt, LevelOf, PotentialLevels, PotentialAt, Filled, VoxelDomain.Valid;
    var n0, n1, n2 := dom.shape.n0, dom.shape.n1, dom.shape.n2;
    var levels := PotentialLevels(dom, x, source, reference);
    forall i, m, j, k | 0 <= j < n1 && 0 <= k < n2 && 0 <= i < n0 && 0 <= m < n0
        && m == i + 1 && Filled(dom, i, j, k) && Filled(dom, m, j, k) && !FullColumn(dom, j, k)
      ensures LevelAt(dom, levels, m, j, k) == LevelAt(dom, levels, i, j, k)
    {
      SameInColumn(dom, x, source, reference, m, j, k);
      PotentialLevelAt(dom, x, source, reference, i, j, k);
      PotentialLevelAt(dom, x, source, reference, m, j, k);
    }
    forall i, j, m, k | 0 <= i < n0 && 0 <= k < n2 && 0 <= j < n1 && 0 <= m < n1
        && m == j + 1 && Filled(dom, i, j, k) && Filled(dom, i, m, k)
      ensures LevelAt(dom, levels, i, m, k) == LevelAt(dom, levels, i, j, k)
    {
      SameAcross(dom, x, source, reference, i, m, k, 1);
      PotentialLevelAt(dom, x, source, reference, i, j, k);
      PotentialLevelAt(dom, x, source, reference, i, m, k);
    }
    forall i, j, k, m | 0 <= i < n0 && 0 <= j < n1 && 0 <= k < n2 && 0 <= m < n2
        && m == k + 1 && Filled(dom, i, j, k) && Filled(dom, i, j, m)
      ensures LevelAt(dom, levels, i, j, m) == LevelAt(dom, levels, i, j, k)
    {
      SameAcross(dom, x, source, reference, i, j, m, 2);
      PotentialLevelAt(dom, x, source, reference, i, j, k);
      PotentialLevelAt(dom, x, source, reference, i, j, m);
    }
  }

  /** The potentials of an even solution level its domain. */
  lemma EvenLevels(dom: VoxelDomain, x: Vec, source: real, reference: real)
    requires dom.Valid() && Accepts(dom) && EvenEverywhere(dom, x, source, reference) && source != reference
    ensures Levels(dom, PotentialLevels(dom, x, source, reference))
  {
    hide Even, EvenEverywhere, FullColumn, LevelAt, LevelOf, LevelsAgree, OnlyColumnsTouch, PotentialAt, Filled,
      Accepts, VoxelDomain.Valid, Profile;
    var levels := PotentialLevels(dom, x, source, reference);
    EvenSlopes(dom, x, source, reference);
    EvenTouches(dom, x, source, reference);
    LevelsOfEven(dom, x, source, reference);
    forall i, j, k | 0 <= i < dom.shape.n0 && 0 <= j < dom.shape.n1 && 0 <= k < dom.shape.n2 && FullColumn(dom, j, k)
      ensures LevelAt(dom, levels, i, j, k) == i
    {
      ColumnPotential(dom, x, source, reference, i, j, k);
      LevelOfProfile(dom, source, reference, i);
      assert Filled(dom, i, j, k) by { ColumnIsFilled(dom, i, j, k); }
      PotentialLevelAt(dom, x, source, reference, i, j, k);
    }
  }

  lemma ColumnIsFilled(dom: VoxelDomain, i: int, j: int, k: int)
    requires FullColumn(dom, j, k) && 0 <= i < dom.shape.n0
    ensures Filled(dom, i, j, k)
  {
  }

  // --- Which domains heat with all of the power ---

  /** Every accepted domain has a solution: the last iterate of the solver. */
  lemma SolutionExists(dom: VoxelDomain, source: real, reference: real) returns (x: Vec)
    requires dom.Valid() && ConnectedToTerminal(dom)
    ensures Solves(dom.SystemOf(source, reference, None), x)
  {
    hide VoxelDomain.SystemOf, ConnectedToTerminal, FiniteVolumeSystem.Apply, CG.Spd;
    var sys := dom.SystemOf(source, reference, None);
    AcceptedIsSpd(dom, source, reference, None);
    assert sys.Shaped() by { ShapedIfSpd(sys); }
    CG.FiniteTermination(sys);
    CG.AlwaysConsistent(sys, sys.Size());
    x := CG.Nth(sys, sys.Size()).x;
    ZeroResidualSolves(sys, x);
  }

  lemma ShapedIfSpd(sys: FiniteVolumeSystem)
    requires CG.Spd(sys)
    ensures sys.Shaped()
  {
  }

  lemma ZeroResidualSolves(sys: FiniteVolumeSystem, x: Vec)
    requires sys.Shaped() && |x| == sys.Size() && IsZero(sys.Residual(x))
    ensures Solves(sys, x)
  {
    hide FiniteVolumeSystem.Apply;
    forall a | 0 <= a < |x| ensures sys.Apply(x)[a] == sys.rhs[a] {
      assert sys.Residual(x)[a] == sys.rhs[a] + -1.0 * sys.Apply(x)[a];
    }
  }

  // Without a voltage nothing flows.
  lemma ConstantEven(dom: VoxelDomain, x: Vec, v: real)
    requires dom.Valid() && ConnectedToTerminal(dom) && Solves(dom.SystemOf(v, v, None), x)
    ensures EvenEverywhere(dom, x, v, v)
  {
    hide VoxelDomain.SystemOf, ConnectedToTerminal, Slope, Solves;
    MaximumPrinciple(dom, v, v, x, v, v);
    ConnectedNotIsolated(dom);
    Shaped(dom, v, v, None);
    assert |x| == |dom.Cells()| by { SolutionSize(dom.SystemOf(v, v, None), x); }
    forall i, j, k | dom.shape.Contains(i, j, k) ensures Unevenness(dom, x, v, v, i, j, k) == 0.0 {
      if Filled(dom, i, j, k) {
        forall axis, plus | 0 <= axis < 3 ensures Slope(dom, x, v, v, i, j, k, axis, plus) == 0.0 {
          ConstantSlope(dom, x, v, i, j, k, axis, plus);
        }
        EvenMeansEqualSlopes(dom, x, v, v, i, j, k);
      }
    }
  }

  lemma SolutionSize(sys: FiniteVolumeSystem, x: Vec)
    requires Solves(sys, x)
    ensures |x| == sys.Size()
  {
  }

  lemma ConstantSlope(dom: VoxelDomain, x: Vec, v: real, i: int, j: int, k: int, axis: int, plus: bool)
    requires dom.Valid() && |x| == |dom.Cells()| && (forall a :: 0 <= a < |x| ==> x[a] == v)
    requires Filled(dom, i, j, k) && 0 <= axis < 3
    ensures Slope(dom, x, v, v, i, j, k, axis, plus) == 0.0
  {
    var o := Offset(2 * axis + if plus then 1 else 0);
    ConstantPotential(dom, x, v, i, j, k);
    if Filled(dom, i + o.0, j + o.1, k + o.2) {
      ConstantPotential(dom, x, v, i + o.0, j + o.1, k + o.2);
    }
    hide PotentialAt, Filled, Spacing;
  }

  lemma ConstantPotential(dom: VoxelDomain, x: Vec, v: real, i: int, j: int, k: int)
    requires dom.Valid() && |x| == |dom.Cells()| && (forall a :: 0 <= a < |x| ==> x[a] == v) && Filled(dom, i, j, k)
    ensures PotentialAt(dom, x, i, j, k) == v
  {
    hide VoxelIndex, Rank, ActiveBelow;
    CellOf(dom, VoxelIndex(i, j, k, dom.shape));
  }

  lemma EvenExactlyWhenLevelled(dom: VoxelDomain, x: Vec, source: real, reference: real)
    requires dom.Valid() && Accepts(dom) && Solves(dom.SystemOf(source, reference, None), x)
    ensures EvenEverywhere(dom, x, source, reference) <==> source == reference || Levelled(dom)
  {
    hide VoxelDomain.SystemOf, Solves, EvenEverywhere, Levels, ConnectedToTerminal, VoxelDomain.Valid, LevelProfile,
      PotentialLevels;
    assert ConnectedToTerminal(dom) by { BothTerminals(dom); }
    ConnectedNotIsolated(dom);
    if source == reference {
      ConstantEven(dom, x, source);
    } else {
      if levels: seq<int> :| Levels(dom, levels) {
        assert |levels| == |dom.occupancy| by { LevelsSize(dom, levels); }
        LevelProfileSolves(dom, levels, source, reference);
        SolutionUnique(dom, source, reference, None, x, LevelProfile(dom, levels, source, reference));
        LevelEven(dom, levels, source, reference);
      }
      if EvenEverywhere(dom, x, source, reference) {
        EvenLevels(dom, x, source, reference);
      }
    }
  }

  lemma BothTerminals(dom: VoxelDomain)
    requires dom.Valid() && Accepts(dom)
    ensures ConnectedToTerminal(dom)
  {
    hide MeetsSlab, OneComponent;
  }

  lemma LevelsSize(dom: VoxelDomain, levels: seq<int>)
    requires Levels(dom, levels)
    ensures |levels| == |dom.occupancy|
  {
  }

  /** On an accepted domain the summed heating of the solution is all of voltage times current exactly if the
      domain can be levelled, or there is no voltage, or nothing conducts. */
  lemma FullPowerExactlyWhenLevelled(dom: VoxelDomain, x: Vec, conductivity: real, source: real, reference: real,
                                     f: nat)
    requires dom.Valid() && Accepts(dom) && Solves(dom.SystemOf(source, reference, None), x)
    requires conductivity >= 0.0 && f <= dom.shape.n0
    ensures var current := TotalDensity(dom, x, conductivity, source, reference, f) * dom.uSpacing * dom.vSpacing;
      JoulePower(dom, x, conductivity, source, reference) == (source - reference) * current
      <==> conductivity == 0.0 || source == reference || Levelled(dom)
  {
    hide VoxelDomain.SystemOf, Solves, EvenEverywhere, Levelled, Accepts, ConnectedToTerminal, VoxelDomain.Valid,
      JoulePower, TotalDensity, Deficit;
    assert ConnectedToTerminal(dom) by { BothTerminals(dom); }
    ConnectedNotIsolated(dom);
    Shaped(dom, source, reference, None);
    assert |x| == |dom.Cells()| by { SolutionSize(dom.SystemOf(source, reference, None), x); }
    EvenExactlyWhenLevelled(dom, x, source, reference);
    JoulesLaw(dom, x, conductivity, source, reference, f);
    PowerBalance(dom, x, conductivity, source, reference, f);
  }

  /** Prisms can be levelled. */
  lemma PrismIsLevelled(dom: VoxelDomain)
    requires dom.Valid() && Prism(dom)
    ensures Levelled(dom)
  {
    hide VoxelIndex, AxialOf, Shape.Size;
    var levels := seq(|dom.occupancy|, c => AxialOf(c, dom.shape));
    forall i, j, k | dom.shape.Contains(i, j, k)
      ensures LevelAt(dom, levels, i, j, k) == i
      ensures Filled(dom, i, j, k) ==> FullColumn(dom, j, k)
    {
      Decode(i, j, k, dom.shape);
    }
    hide FullColumn, Filled, LevelAt;
    assert LevelsAgree(dom, levels);
    assert OnlyColumnsTouch(dom);
    assert Levels(dom, levels);
  }

  // --- A domain that falls short ---

  /** The smallest grid the solver takes, with one full column and one cell beside its last: the current can
      also leave through that cell, whose column is not full. */
  function Corner(length: real, uSpacing: real, vSpacing: real): VoxelDomain {
    VoxelDomain(Shape(3, 3, 3), length, length / 3.0, uSpacing, vSpacing, CornerOccupancy(), 4)
  }

  function CornerOccupancy(): (occ: seq<bool>)
    ensures |occ| == 27 && forall c :: 0 <= c < 27 ==> (occ[c] <==> c in {0, 9, 18, 21})
  {
    seq(27, c => c in {0, 9, 18, 21})
  }

  lemma CornerSize()
    ensures OccupiedCells(CornerOccupancy()) == {0, 9, 18, 21}
    ensures |OccupiedCells(CornerOccupancy())| == 4
  {
    assert OccupiedCells(CornerOccupancy()) == {0, 9, 18, 21};
  }

  lemma CornerCells(length: real, uSpacing: real, vSpacing: real)
    requires length > 0.0 && uSpacing > 0.0 && vSpacing > 0.0
    ensures var dom := Corner(length, uSpacing, vSpacing);
      && dom.Valid() && Filled(dom, 2, 1, 0) && !Filled(dom, 0, 1, 0)
      && Filled(dom, 0, 0, 0) && Filled(dom, 2, 0, 0)
  {
    hide OccupiedCells;
    CornerSize();
  }

  lemma FirstLink(sh: Shape)
    requires sh == Shape(3, 3, 3)
    ensures NeighborCell(0, 1, sh) == 9
  {
  }

  lemma SecondLink(sh: Shape)
    requires sh == Shape(3, 3, 3)
    ensures NeighborCell(9, 1, sh) == 18
  {
  }

  lemma SideLink(sh: Shape)
    requires sh == Shape(3, 3, 3)
    ensures NeighborCell(18, 3, sh) == 21
  {
  }

  lemma CornerLinks(sh: Shape)
    requires sh == Shape(3, 3, 3)
    ensures Adjacent(sh, 0, 9) && Adjacent(sh, 9, 18) && Adjacent(sh, 18, 21)
  {
    hide NeighborCell;
    FirstLink(sh);
    SecondLink(sh);
    SideLink(sh);
  }

  lemma CornerConnected(occ: seq<bool>, sh: Shape)
    requires occ == CornerOccupancy() && sh == Shape(3, 3, 3)
    ensures OneComponent(occ, sh)
  {
    hide Reachable, Adjacent;
    CornerLinks(sh);
    assert |occ| == sh.Size();
    ReachableSelf(occ, sh, 0);
    ReachableExtend(occ, sh, 0, 0, 9);
    ReachableExtend(occ, sh, 0, 9, 18);
    ReachableExtend(occ, sh, 0, 18, 21);
    forall a, b | Occupied(occ, a) && Occupied(occ, b) ensures Reachable(occ, sh, a, b) {
      ReachableThrough(occ, sh, 0, a, b);
    }
  }

  lemma CornerAccepted(length: real, uSpacing: real, vSpacing: real)
    requires length > 0.0 && uSpacing > 0.0 && vSpacing > 0.0
    ensures var dom := Corner(length, uSpacing, vSpacing); dom.Valid() && Accepts(dom)
  {
    hide OneComponent, VoxelDomain.Valid, VoxelIndex;
    CornerCells(length, uSpacing, vSpacing);
    var dom := Corner(length, uSpacing, vSpacing);
    CornerConnected(dom.occupancy, dom.shape);
    assert Occupied(dom.occupancy, VoxelIndex(0, 0, 0, dom.shape));
    assert Occupied(dom.occupancy, VoxelIndex(2, 0, 0, dom.shape));
  }

  lemma CornerNotLevelled(length: real, uSpacing: real, vSpacing: real)
    requires length > 0.0 && uSpacing > 0.0 && vSpacing > 0.0
    ensures !Levelled(Corner(length, uSpacing, vSpacing))
  {
    CornerCells(length, uSpacing, vSpacing);
    hide Filled, CornerOccupancy;
    var dom := Corner(length, uSpacing, vSpacing);
    assert !FullColumn(dom, 1, 0);
    assert !OnlyColumnsTouch(dom);
  }

  /** The summed heating can fall short: around a corner it does, for every spacing, voltage and conductivity. */
  lemma HeatingFallsShort(length: real, uSpacing: real, vSpacing: real, conductivity: real, source: real,
                          reference: real)
    returns (dom: VoxelDomain, x: Vec)
    requires length > 0.0 && uSpacing > 0.0 && vSpacing > 0.0 && conductivity > 0.0 && source != reference
    ensures dom.Valid() && Accepts(dom) && Solves(dom.SystemOf(source, reference, None), x)
    ensures dom.shape.n0 >= 3 && dom.shape.n1 >= 3 && dom.shape.n2 >= 3
    ensures |x| == |dom.Cells()|
    ensures JoulePower(dom, x, conductivity, source, reference)
      < (source - reference) * (TotalDensity(dom, x, conductivity, source, reference, 0) * dom.uSpacing * dom.vSpacing)
  {
    hide VoxelDomain.SystemOf, Solves, Levelled, Accepts, ConnectedToTerminal, VoxelDomain.Valid, JoulePower,
      TotalDensity, EvenEverywhere, CornerOccupancy;
    dom := Corner(length, uSpacing, vSpacing);
    CornerAccepted(length, uSpacing, vSpacing);
    CornerNotLevelled(length, uSpacing, vSpacing);
    BothTerminals(dom);
    x := SolutionExists(dom, source, reference);
    ConnectedNotIsolated(dom);
    Shaped(dom, source, reference, None);
    SolutionSize(dom.SystemOf(source, reference, None), x);
    FullPowerExactlyWhenLevelled(dom, x, conductivity, source, reference, 0);
    JoulesLaw(dom, x, conductivity, source, reference, 0);
  }
}
