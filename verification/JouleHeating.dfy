/** Joule's law on every domain: the heating of a solution against voltage times current. */
module JouleHeating {
  import opened RealSums
  import opened Vectors
  import opened VoxelGrid
  import opened Connectivity
  import opened LinearSystem
  import opened FiniteVolume
  import opened Options
  import opened EdgeSums
  import opened SystemTheory
  import opened DomainTheory
  import opened CellBalance
  import opened DcCurrent
  import opened CurrentAccuracy
  import opened PrismConductor

  type GridFunction = (int, int, int) -> real

  function Layer(f: GridFunction, i: int): (int, int) -> real {
    (j, k) => f(i, j, k)
  }

  /** The sum of a grid function over the whole grid. */
  function GridSum(dom: VoxelDomain, f: GridFunction): real {
    Sum(dom.shape.n0, i => SlabSum(dom, Layer(f, i)))
  }

  function AtCell(dom: VoxelDomain, f: GridFunction, c: int): real
    requires dom.Valid()
  {
    f(AxialOf(c, dom.shape), UOf(c, dom.shape), VOf(c, dom.shape))
  }

  function OnCells(dom: VoxelDomain, f: GridFunction): Vec
    requires dom.Valid()
  {
    var cells := dom.Cells();
    seq(|cells|, a requires 0 <= a < |cells| => AtCell(dom, f, cells[a]))
  }

  ghost predicate ZeroOutside(dom: VoxelDomain, f: GridFunction) {
    forall i, j, k :: !Filled(dom, i, j, k) ==> f(i, j, k) == 0.0
  }

  lemma LayerHolds(dom: VoxelDomain, f: GridFunction, i: int, j: int, k: int)
    requires dom.Valid() && ZeroOutside(dom, f) && dom.shape.Contains(i, j, k)
    ensures f(i, j, k) == CellValues(dom, OnCells(dom, f))(VoxelIndex(i, j, k, dom.shape))
  {
    hide VoxelIndex, AxialOf, UOf, VOf, Shape.Size, Rank, ActiveBelow;
    var c := VoxelIndex(i, j, k, dom.shape);
    Decode(i, j, k, dom.shape);
    if Occupied(dom.occupancy, c) {
      CellOf(dom, c);
    } else {
      assert !Filled(dom, i, j, k);
    }
  }

  lemma {:induction false} LayersAreRuns(dom: VoxelDomain, f: GridFunction, slabs: int -> real, n: nat)
    requires dom.Valid() && ZeroOutside(dom, f) && n <= dom.shape.n0
    requires forall i | 0 <= i < n :: slabs(i) == SlabSum(dom, Layer(f, i))
    ensures 0 <= n * SlabSize(dom) <= |dom.occupancy|
    ensures Sum(n, slabs) == Sum(ActiveBelowSlab(dom, n), Entries(OnCells(dom, f)))
  {
    hide VoxelDomain.Valid, SlabSum, CellValues, Entries, OnCells, VoxelIndex, ZeroOutside, SlabSize;
    SlabRange(dom, n);
    if n > 0 {
      LayersAreRuns(dom, f, slabs, n - 1);
      var grid := Layer(f, n - 1);
      forall j, k | 0 <= j < dom.shape.n1 && 0 <= k < dom.shape.n2
        ensures grid(j, k) == CellValues(dom, OnCells(dom, f))(VoxelIndex(n - 1, j, k, dom.shape))
      {
        LayerHolds(dom, f, n - 1, j, k);
      }
      GridIsRun(dom, OnCells(dom, f), grid, n - 1);
    }
  }

  /** A grid function that vanishes outside the domain is summed cell by active cell. */
  lemma GridSumIs(dom: VoxelDomain, f: GridFunction)
    requires dom.Valid() && ZeroOutside(dom, f)
    ensures GridSum(dom, f) == Sum(|dom.Cells()|, Entries(OnCells(dom, f)))
  {
    hide SlabSum, Entries, OnCells, ZeroOutside, ActiveBelow;
    LayersAreRuns(dom, f, i => SlabSum(dom, Layer(f, i)), dom.shape.n0);
    WholeGrid(dom);
  }

  lemma WholeGrid(dom: VoxelDomain)
    requires dom.Valid()
    ensures dom.shape.n0 * SlabSize(dom) == |dom.occupancy|
  {
  }

  // --- One cell: squared slopes are what its links and terminals dissipate ---

  /** Half the difference of the two one-sided slopes along an axis. */
  function Bend(dom: VoxelDomain, x: Vec, source: real, reference: real, i: int, j: int, k: int, axis: int): real
    requires dom.Valid() && 0 <= axis < 3
  {
    (Slope(dom, x, source, reference, i, j, k, axis, false)
     - Slope(dom, x, source, reference, i, j, k, axis, true)) / 2.0
  }

  /** How unevenly the potential falls across a cell: zero exactly when both slopes agree along each axis. */
  function Unevenness(dom: VoxelDomain, x: Vec, source: real, reference: real, i: int, j: int, k: int): (u: real)
    requires dom.Valid()
    ensures u >= 0.0
  {
    if Filled(dom, i, j, k) then
      var b0, b1, b2 := Bend(dom, x, source, reference, i, j, k, 0), Bend(dom, x, source, reference, i, j, k, 1),
                        Bend(dom, x, source, reference, i, j, k, 2);
      SquarePositive(b0, b0 * b0);
      SquarePositive(b1, b1 * b1);
      SquarePositive(b2, b2 * b2);
      b0 * b0 + b1 * b1 + b2 * b2
    else 0.0
  }

  // The square of the slope in direction `slot`.
  function SlopeSquare(dom: VoxelDomain, x: Vec, source: real, reference: real, i: int, j: int, k: int, slot: int): real
    requires dom.Valid() && 0 <= slot < SLOTS
  {
    var s := Slope(dom, x, source, reference, i, j, k, slot / 2, slot % 2 == 1);
    s * s
  }

  lemma AveragedSquare(m: real, p: real)
    ensures ((m + p) / 2.0) * ((m + p) / 2.0) == (m * m + p * p) / 2.0 - ((m - p) / 2.0) * ((m - p) / 2.0)
  {
  }

  function SlopeSquares(dom: VoxelDomain, x: Vec, source: real, reference: real, i: int, j: int, k: int): real
    requires dom.Valid()
  {
    SlopeSquare(dom, x, source, reference, i, j, k, 0) + SlopeSquare(dom, x, source, reference, i, j, k, 1)
    + SlopeSquare(dom, x, source, reference, i, j, k, 2) + SlopeSquare(dom, x, source, reference, i, j, k, 3)
    + SlopeSquare(dom, x, source, reference, i, j, k, 4) + SlopeSquare(dom, x, source, reference, i, j, k, 5)
  }

  lemma HeatSplits(dom: VoxelDomain, x: Vec, conductivity: real, source: real, reference: real, i: int, j: int, k: int)
    requires dom.Valid() && Filled(dom, i, j, k)
    ensures JouleAt(dom, x, conductivity, source, reference, i, j, k)
      == conductivity * (SlopeSquares(dom, x, source, reference, i, j, k) / 2.0
                         - Unevenness(dom, x, source, reference, i, j, k))
  {
    hide Slope, Filled;
    forall axis | 0 <= axis < 3
      ensures var g := GradientOf(dom, x, source, reference, i, j, k, axis);
        var b := Bend(dom, x, source, reference, i, j, k, axis);
        g * g == (SlopeSquare(dom, x, source, reference, i, j, k, 2 * axis)
                  + SlopeSquare(dom, x, source, reference, i, j, k, 2 * axis + 1)) / 2.0
                 - b * b
    {
      AveragedSquare(Slope(dom, x, source, reference, i, j, k, axis, false),
                     Slope(dom, x, source, reference, i, j, k, axis, true));
    }
    hide GradientOf, Bend, SlopeSquare;
    var g0, g1, g2 := GradientOf(dom, x, source, reference, i, j, k, 0),
                      GradientOf(dom, x, source, reference, i, j, k, 1),
                      GradientOf(dom, x, source, reference, i, j, k, 2);
    var b0, b1, b2 := Bend(dom, x, source, reference, i, j, k, 0), Bend(dom, x, source, reference, i, j, k, 1),
                      Bend(dom, x, source, reference, i, j, k, 2);
    assert g0 * g0 + g1 * g1 + g2 * g2
      == SlopeSquares(dom, x, source, reference, i, j, k) / 2.0 - (b0 * b0 + b1 * b1 + b2 * b2);
  }

  // What a half cell at a terminal adds.
  function TerminalSquare(dom: VoxelDomain, x: Vec, source: real, reference: real, c: int, slot: int): real
    requires dom.Valid()
  {
    var p := Potential(dom, x, c);
    if slot == 0 then 2.0 * dom.SourceWeight(c) * ((source - p) * (source - p))
    else if slot == 1 then 2.0 * dom.ReferenceWeight(c) * ((reference - p) * (reference - p))
    else 0.0
  }

  // The square of a slope `s` over a full cell, and over half a cell, in either direction.
  lemma SquaredSlope(s: real, p: real, q: real, h: real, w: real)
    requires h > 0.0 && w * (h * h) == 1.0
    requires s == (q - p) / h || s == (p - q) / h
    ensures s * s == w * ((q - p) * (q - p))
  {
    var d := s * h;
    assert d == q - p || d == p - q;
    assert d * d == (q - p) * (q - p);
    assert w * (d * d) == (s * s) * (w * (h * h));
  }

  lemma SquaredHalfSlope(s: real, p: real, q: real, h: real, w: real)
    requires h > 0.0 && w * (h * h) == 1.0
    requires s == 2.0 * (q - p) / h || s == 2.0 * (p - q) / h
    ensures s * s == 2.0 * (2.0 * w) * ((q - p) * (q - p))
  {
    var t := s / 2.0;
    assert 2.0 * (q - p) / h == 2.0 * ((q - p) / h) && 2.0 * (p - q) / h == 2.0 * ((p - q) / h);
    SquaredSlope(t, p, q, h, w);
    assert s * s == 4.0 * (t * t);
  }

  lemma WeightOf(dom: VoxelDomain, slot: int)
    requires dom.Valid() && 0 <= slot < SLOTS
    ensures dom.Weights()[slot] * (Spacing(dom, slot / 2) * Spacing(dom, slot / 2)) == 1.0
  {
    hide Shape.Size, OccupiedCells;
    assert dom.Weights()[slot] == InverseSquare(Spacing(dom, slot / 2));
  }

  lemma SlopeValue(dom: VoxelDomain, x: Vec, source: real, reference: real, i: int, j: int, k: int, slot: int)
    requires dom.Valid() && 0 <= slot < SLOTS
    ensures var o, h, p := Offset(slot), Spacing(dom, slot / 2), PotentialAt(dom, x, i, j, k);
      var q := PotentialAt(dom, x, i + o.0, j + o.1, k + o.2);
      var s := Slope(dom, x, source, reference, i, j, k, slot / 2, slot % 2 == 1);
      if Filled(dom, i + o.0, j + o.1, k + o.2) then s == (q - p) / h || s == (p - q) / h
      else if slot == 0 && i == 0 then s == 2.0 * (p - source) / h
      else if slot == 1 && i == dom.shape.n0 - 1 then s == 2.0 * (reference - p) / h
      else s == 0.0
  {
    hide VoxelDomain.Weights, VoxelDomain.Valid, PotentialAt, Filled, Spacing;
    assert 2 * (slot / 2) + (if slot % 2 == 1 then 1 else 0) == slot;
  }

  lemma SlopeToNeighbor(dom: VoxelDomain, x: Vec, source: real, reference: real, i: int, j: int, k: int, slot: int)
    requires dom.Valid() && 0 <= slot < SLOTS
    requires var o := Offset(slot); Filled(dom, i + o.0, j + o.1, k + o.2)
    ensures var o := Offset(slot);
      var d := PotentialAt(dom, x, i + o.0, j + o.1, k + o.2) - PotentialAt(dom, x, i, j, k);
      SlopeSquare(dom, x, source, reference, i, j, k, slot) == dom.Weights()[slot] * (d * d)
  {
    hide VoxelDomain.Weights, VoxelDomain.Valid, PotentialAt, Filled, Spacing, Slope, Offset;
    WeightOf(dom, slot);
    SlopeValue(dom, x, source, reference, i, j, k, slot);
    var o := Offset(slot);
    SquaredSlope(Slope(dom, x, source, reference, i, j, k, slot / 2, slot % 2 == 1), PotentialAt(dom, x, i, j, k),
                 PotentialAt(dom, x, i + o.0, j + o.1, k + o.2), Spacing(dom, slot / 2), dom.Weights()[slot]);
  }

  lemma OppositeSquare(p: real, q: real)
    ensures (p - q) * (p - q) == (q - p) * (q - p)
  {
  }

  lemma SlopeToTerminal(dom: VoxelDomain, x: Vec, source: real, reference: real, i: int, j: int, k: int, slot: int)
    requires dom.Valid() && Filled(dom, i, j, k) && 0 <= slot < SLOTS
    requires var o := Offset(slot); !Filled(dom, i + o.0, j + o.1, k + o.2)
    ensures SlopeSquare(dom, x, source, reference, i, j, k, slot)
      == TerminalSquare(dom, x, source, reference, VoxelIndex(i, j, k, dom.shape), slot)
  {
    hide VoxelDomain.Weights, VoxelDomain.Valid, VoxelIndex, AxialOf, Potential, Filled, Spacing, Slope, Offset,
      Shape.Size;
    AxialOfCell(dom, i, j, k);
    WeightOf(dom, slot);
    WeightPairs(dom);
    SlopeValue(dom, x, source, reference, i, j, k, slot);
    var s, h, w, p := Slope(dom, x, source, reference, i, j, k, slot / 2, slot % 2 == 1), Spacing(dom, slot / 2),
                      dom.Weights()[slot], PotentialAt(dom, x, i, j, k);
    if slot == 0 && i == 0 {
      SquaredHalfSlope(s, p, source, h, w);
    } else if slot == 1 && i == dom.shape.n0 - 1 {
      SquaredHalfSlope(s, p, reference, h, w);
    }
  }

  lemma AxialOfCell(dom: VoxelDomain, i: int, j: int, k: int)
    requires dom.Valid() && Filled(dom, i, j, k)
    ensures AxialOf(VoxelIndex(i, j, k, dom.shape), dom.shape) == i
  {
    Decode(i, j, k, dom.shape);
  }

  // At a terminal face there is no neighbour.
  lemma NoTerminalInside(dom: VoxelDomain, x: Vec, source: real, reference: real, i: int, j: int, k: int, slot: int)
    requires dom.Valid() && Filled(dom, i, j, k) && 0 <= slot < SLOTS
    requires var o := Offset(slot); Filled(dom, i + o.0, j + o.1, k + o.2)
    ensures TerminalSquare(dom, x, source, reference, VoxelIndex(i, j, k, dom.shape), slot) == 0.0
  {
    Decode(i, j, k, dom.shape);
    hide VoxelDomain.Weights, VoxelIndex, AxialOf, Potential, Shape.Size;
  }

  lemma LinkValue(sys: FiniteVolumeSystem, x: Vec, a: int, slot: int, w: real, p: real, q: real)
    requires sys.Neighbor(a, slot) >= 0 && w == At(sys.neighborWeights, slot)
    requires p == At(x, a) && q == At(x, sys.Neighbor(a, slot))
    ensures Link(sys, SquaredDifferences(x), a, slot) == w * ((q - p) * (q - p))
  {
    hide At, FiniteVolumeSystem.Neighbor;
    OppositeSquare(p, q);
  }

  lemma LinkIs(dom: VoxelDomain, x: Vec, source: real, reference: real, i: int, j: int, k: int, slot: int)
    requires dom.Valid() && dom.NoIsolatedCell() && Filled(dom, i, j, k) && 0 <= slot < SLOTS
    ensures var o, c := Offset(slot), VoxelIndex(i, j, k, dom.shape);
      var d := PotentialAt(dom, x, i + o.0, j + o.1, k + o.2) - PotentialAt(dom, x, i, j, k);
      Link(dom.SystemOf(source, reference, None), SquaredDifferences(x), Rank(dom.occupancy, c), slot)
      == if Filled(dom, i + o.0, j + o.1, k + o.2) then dom.Weights()[slot] * (d * d) else 0.0
  {
    hide VoxelDomain.SystemOf, VoxelDomain.Weights, VoxelIndex, ActiveBelow, Rank, NeighborCell, Shape.Size, At, Offset,
      VoxelDomain.OccupiedNeighbor;
    hide VoxelDomain.NoIsolatedCell, SquaredDifferences, FiniteVolumeSystem.Neighbor;
    var c, o := VoxelIndex(i, j, k, dom.shape), Offset(slot);
    var a := Rank(dom.occupancy, c);
    CellOf(dom, c);
    NeighborIs(dom, source, reference, None, a, slot);
    NeighborAt(dom, i, j, k, slot);
    if Filled(dom, i + o.0, j + o.1, k + o.2) {
      SystemWeights(dom, source, reference, None);
      WeightAt(dom, slot);
      CellOf(dom, NeighborCell(c, slot, dom.shape));
      hide Link;
      LinkValue(dom.SystemOf(source, reference, None), x, a, slot, dom.Weights()[slot], PotentialAt(dom, x, i, j, k),
                PotentialAt(dom, x, i + o.0, j + o.1, k + o.2));
    }
  }

  lemma SlopeIsLink(dom: VoxelDomain, x: Vec, source: real, reference: real, i: int, j: int, k: int, slot: int)
    requires dom.Valid() && dom.NoIsolatedCell() && Filled(dom, i, j, k) && 0 <= slot < SLOTS
    ensures var c := VoxelIndex(i, j, k, dom.shape);
      SlopeSquare(dom, x, source, reference, i, j, k, slot)
      == Link(dom.SystemOf(source, reference, None), SquaredDifferences(x), Rank(dom.occupancy, c), slot)
         + TerminalSquare(dom, x, source, reference, c, slot)
  {
    hide VoxelDomain.SystemOf, VoxelDomain.Weights, VoxelIndex, Rank, Filled, Offset, Link, SlopeSquare, TerminalSquare,
      PotentialAt, VoxelDomain.NoIsolatedCell;
    var o := Offset(slot);
    LinkIs(dom, x, source, reference, i, j, k, slot);
    if Filled(dom, i + o.0, j + o.1, k + o.2) {
      SlopeToNeighbor(dom, x, source, reference, i, j, k, slot);
      NoTerminalInside(dom, x, source, reference, i, j, k, slot);
    } else {
      SlopeToTerminal(dom, x, source, reference, i, j, k, slot);
    }
  }

  /** Half the squared slopes of a cell: half of what its links dissipate, and all its terminals do. */
  lemma CellDissipation(dom: VoxelDomain, x: Vec, source: real, reference: real, i: int, j: int, k: int)
    requires dom.Valid() && dom.NoIsolatedCell() && Filled(dom, i, j, k)
    ensures var c := VoxelIndex(i, j, k, dom.shape);
      var p := Potential(dom, x, c);
      SlopeSquares(dom, x, source, reference, i, j, k) / 2.0
      == CellSum(dom.SystemOf(source, reference, None), SquaredDifferences(x), Rank(dom.occupancy, c)) / 2.0
         + dom.SourceWeight(c) * ((source - p) * (source - p))
           + dom.ReferenceWeight(c) * ((reference - p) * (reference - p))
  {
    hide VoxelDomain.SystemOf, VoxelIndex, Rank, Filled, Link, SlopeSquare, Potential, VoxelDomain.NoIsolatedCell,
      SquaredDifferences,
      VoxelDomain.SourceWeight, VoxelDomain.ReferenceWeight, VoxelDomain.Weights;
    var c, sys := VoxelIndex(i, j, k, dom.shape), dom.SystemOf(source, reference, None);
    var a := Rank(dom.occupancy, c);
    SystemWeights(dom, source, reference, None);
    SumOfSix(sys.Slots(), s => Link(sys, SquaredDifferences(x), a, s));
    SlopeIsLink(dom, x, source, reference, i, j, k, 0);
    SlopeIsLink(dom, x, source, reference, i, j, k, 1);
    SlopeIsLink(dom, x, source, reference, i, j, k, 2);
    SlopeIsLink(dom, x, source, reference, i, j, k, 3);
    SlopeIsLink(dom, x, source, reference, i, j, k, 4);
    SlopeIsLink(dom, x, source, reference, i, j, k, 5);
  }

  // --- All cells: what a solution dissipates is what the terminals feed in ---

  // What the source terminal feeds into a cell, and what the reference terminal does.
  function SourceFeed(dom: VoxelDomain, x: Vec, source: real, c: int): real
    requires dom.Valid()
  {
    dom.SourceWeight(c) * (source - Potential(dom, x, c))
  }

  function ReferenceFeed(dom: VoxelDomain, x: Vec, reference: real, c: int): real
    requires dom.Valid()
  {
    dom.ReferenceWeight(c) * (reference - Potential(dom, x, c))
  }

  function SourceGrid(dom: VoxelDomain, x: Vec, source: real): GridFunction
    requires dom.Valid()
  {
    (i, j, k) => if Filled(dom, i, j, k) then SourceFeed(dom, x, source, VoxelIndex(i, j, k, dom.shape)) else 0.0
  }

  function ReferenceGrid(dom: VoxelDomain, x: Vec, reference: real): GridFunction
    requires dom.Valid()
  {
    (i, j, k) => if Filled(dom, i, j, k) then ReferenceFeed(dom, x, reference, VoxelIndex(i, j, k, dom.shape)) else 0.0
  }

  function SlopeGrid(dom: VoxelDomain, x: Vec, source: real, reference: real): GridFunction
    requires dom.Valid()
  {
    (i, j, k) => if Filled(dom, i, j, k) then SlopeSquares(dom, x, source, reference, i, j, k) / 2.0 else 0.0
  }

  function UnevenGrid(dom: VoxelDomain, x: Vec, source: real, reference: real): GridFunction
    requires dom.Valid()
  {
    (i, j, k) => Unevenness(dom, x, source, reference, i, j, k)
  }

  // The terms of one active cell in the energy balance.
  lemma EnergyTerm(s: real, r: real, source: real, reference: real, p: real)
    ensures s * ((source - p) * (source - p)) + r * ((reference - p) * (reference - p))
            + p * (s * source + r * reference) - (s + r) * (p * p)
         == source * (s * (source - p)) + reference * (r * (reference - p))
  {
  }

  lemma {:induction false} SumCombination(n: nat, h: int -> real, f: int -> real, b: int -> real, q: int -> real,
                                          s: int -> real, r: int -> real, source: real, reference: real)
    requires forall a | 0 <= a < n :: h(a) == f(a) / 2.0 - b(a) + q(a) + (source * s(a) + reference * r(a))
    ensures Sum(n, h) == Sum(n, f) / 2.0 - Sum(n, b) + Sum(n, q) + (source * Sum(n, s) + reference * Sum(n, r))
  {
    if n > 0 {
      SumCombination(n - 1, h, f, b, q, s, r, source, reference);
      var t, u := Sum(n - 1, s), Sum(n - 1, r);
      assert source * (t + s(n - 1)) == source * t + source * s(n - 1);
      assert reference * (u + r(n - 1)) == reference * u + reference * r(n - 1);
    }
  }

  // The grid functions at an active cell.
  lemma EntriesAre(dom: VoxelDomain, x: Vec, source: real, reference: real, a: nat)
    requires dom.Valid() && dom.NoIsolatedCell() && |x| == |dom.Cells()| && a < |dom.Cells()|
    ensures var c, p := dom.Cells()[a], At(x, a);
      && Entries(OnCells(dom, SourceGrid(dom, x, source)))(a) == dom.SourceWeight(c) * (source - p)
      && Entries(OnCells(dom, ReferenceGrid(dom, x, reference)))(a) == dom.ReferenceWeight(c) * (reference - p)
      && Entries(OnCells(dom, SlopeGrid(dom, x, source, reference)))(a)
         == CellSum(dom.SystemOf(source, reference, None), SquaredDifferences(x), a) / 2.0
            + dom.SourceWeight(c) * ((source - p) * (source - p))
              + dom.ReferenceWeight(c) * ((reference - p) * (reference - p))
  {
    hide VoxelDomain.SystemOf, VoxelIndex, Rank, VoxelDomain.NoIsolatedCell, VoxelDomain.SourceWeight,
      VoxelDomain.ReferenceWeight;
    hide CellSum, SlopeSquares, AxialOf, UOf, VOf, Shape.Size, ActiveBelow;
    var c := dom.Cells()[a];
    CellAt(dom, a);
    assert |dom.occupancy| == dom.shape.Size();
    Encode(c, dom.shape);
    CellDissipation(dom, x, source, reference, AxialOf(c, dom.shape), UOf(c, dom.shape), VOf(c, dom.shape));
  }

  lemma BalanceTerm(dom: VoxelDomain, x: Vec, source: real, reference: real, a: nat)
    requires dom.Valid() && dom.NoIsolatedCell() && |x| == |dom.Cells()| && a < |dom.Cells()|
    ensures var sys := dom.SystemOf(source, reference, None);
      Entries(OnCells(dom, SlopeGrid(dom, x, source, reference)))(a)
      == CellSum(sys, SquaredDifferences(x), a) / 2.0 - At(x, a) * At(sys.rhs, a)
        + Excess(sys, a) * (At(x, a) * At(x, a))
         + (source * Entries(OnCells(dom, SourceGrid(dom, x, source)))(a)
            + reference * Entries(OnCells(dom, ReferenceGrid(dom, x, reference)))(a))
  {
    hide VoxelDomain.SystemOf, VoxelDomain.NoIsolatedCell, VoxelDomain.SourceWeight, VoxelDomain.ReferenceWeight,
      VoxelDomain.Cells, Excess;
    hide CellSum, OnCells, Entries, SourceGrid, ReferenceGrid, SlopeGrid;
    EntriesAre(dom, x, source, reference, a);
    RhsIs(dom, source, reference, a);
    ExcessIs(dom, source, reference, None, a);
    var c := dom.Cells()[a];
    EnergyTerm(dom.SourceWeight(c), dom.ReferenceWeight(c), source, reference, At(x, a));
  }

  lemma VanishOutside(dom: VoxelDomain, x: Vec, source: real, reference: real)
    requires dom.Valid()
    ensures ZeroOutside(dom, SourceGrid(dom, x, source)) && ZeroOutside(dom, ReferenceGrid(dom, x, reference))
    ensures ZeroOutside(dom, SlopeGrid(dom, x, source, reference))
    ensures ZeroOutside(dom, UnevenGrid(dom, x, source, reference))
  {
    hide Filled, SlopeSquares, SourceFeed, ReferenceFeed;
  }

  function CellSums(sys: FiniteVolumeSystem, x: Vec): int -> real {
    a => CellSum(sys, SquaredDifferences(x), a)
  }

  function RhsTerms(sys: FiniteVolumeSystem, x: Vec): int -> real {
    a => At(x, a) * At(sys.rhs, a)
  }

  function ExcessTerms(sys: FiniteVolumeSystem, x: Vec): int -> real {
    a => Excess(sys, a) * (At(x, a) * At(x, a))
  }

  lemma SolutionForm(sys: FiniteVolumeSystem, x: Vec)
    requires Mutual(sys) && Solves(sys, x)
    ensures 2.0 * Sum(sys.Size(), RhsTerms(sys, x))
      == Sum(sys.Size(), CellSums(sys, x)) + 2.0 * Sum(sys.Size(), ExcessTerms(sys, x))
  {
    hide CellSum, Excess, At, Mutual, FiniteVolumeSystem.Apply, SquaredDifferences;
    QuadraticForm(sys, x);
    SumExt(sys.Size(), RhsTerms(sys, x), a => At(x, a) * At(sys.rhs, a));
    SumExt(sys.Size(), CellSums(sys, x), a => CellSum(sys, SquaredDifferences(x), a));
    SumExt(sys.Size(), ExcessTerms(sys, x), a => Excess(sys, a) * (At(x, a) * At(x, a)));
  }

  /** For a solution half the squared slopes, over all cells, are what the two terminals feed in. */
  lemma EnergyBalance(dom: VoxelDomain, x: Vec, source: real, reference: real)
    requires dom.Valid() && dom.NoIsolatedCell() && |x| == |dom.Cells()|
    requires Solves(dom.SystemOf(source, reference, None), x)
    ensures GridSum(dom, SlopeGrid(dom, x, source, reference))
      == source * GridSum(dom, SourceGrid(dom, x, source)) + reference * GridSum(dom, ReferenceGrid(dom, x, reference))
  {
    hide VoxelDomain.SystemOf, VoxelDomain.NoIsolatedCell, VoxelDomain.Cells, VoxelDomain.Valid, OnCells, Entries,
      SourceGrid, ReferenceGrid, SlopeGrid;
    hide GridSum, ZeroOutside, Mutual, Sum, Solves;
    var sys, n := dom.SystemOf(source, reference, None), |dom.Cells()|;
    Shaped(dom, source, reference, None);
    VanishOutside(dom, x, source, reference);
    GridSumIs(dom, SlopeGrid(dom, x, source, reference));
    GridSumIs(dom, SourceGrid(dom, x, source));
    GridSumIs(dom, ReferenceGrid(dom, x, reference));
    MutualLinks(dom, source, reference, None);
    SolutionForm(sys, x);
    var f, b, q := CellSums(sys, x), RhsTerms(sys, x), ExcessTerms(sys, x);
    var h, s, r := Entries(OnCells(dom, SlopeGrid(dom, x, source, reference))),
                   Entries(OnCells(dom, SourceGrid(dom, x, source))),
                   Entries(OnCells(dom, ReferenceGrid(dom, x, reference)));
    forall a | 0 <= a < n ensures h(a) == f(a) / 2.0 - b(a) + q(a) + (source * s(a) + reference * r(a)) {
      BalanceTerm(dom, x, source, reference, a);
    }
    hide CellSums, RhsTerms, ExcessTerms;
    SumCombination(n, h, f, b, q, s, r, source, reference);
  }

  // --- The terminals feed in the current ---

  lemma SourceLayer(dom: VoxelDomain, x: Vec, source: real, reference: real, i: int)
    requires dom.Valid() && 0 <= i < dom.shape.n0
    ensures SlabSum(dom, Layer(SourceGrid(dom, x, source), i)) == if i == 0
      then TotalFlux(dom, x, source, reference, 0) else 0.0
  {
    hide SlabSum, VoxelDomain.Weights, VoxelIndex, AxialOf, Shape.Size, Potential;
    var g, a := Layer(SourceGrid(dom, x, source), i), AxialGrid(dom, x, source, reference, 0);
    var c := if i == 0 then 1.0 else 0.0;
    forall j, k | 0 <= j < dom.shape.n1 && 0 <= k < dom.shape.n2 ensures g(j, k) == c * a(j, k) {
      Decode(i, j, k, dom.shape);
    }
    SlabSumScale(dom, c, a, g);
  }

  lemma ReferenceLayer(dom: VoxelDomain, x: Vec, source: real, reference: real, i: int)
    requires dom.Valid() && 0 <= i < dom.shape.n0
    ensures SlabSum(dom, Layer(ReferenceGrid(dom, x, reference), i))
      == if i == dom.shape.n0 - 1 then -TotalFlux(dom, x, source, reference, dom.shape.n0) else 0.0
  {
    hide SlabSum, VoxelDomain.Weights, VoxelIndex, AxialOf, Shape.Size, Potential;
    var g, a := Layer(ReferenceGrid(dom, x, reference), i), AxialGrid(dom, x, source, reference, dom.shape.n0);
    var c := if i == dom.shape.n0 - 1 then -1.0 else 0.0;
    forall j, k | 0 <= j < dom.shape.n1 && 0 <= k < dom.shape.n2 ensures g(j, k) == c * a(j, k) {
      Decode(i, j, k, dom.shape);
    }
    SlabSumScale(dom, c, a, g);
  }

  lemma FeedsAreFluxes(dom: VoxelDomain, x: Vec, source: real, reference: real)
    requires dom.Valid()
    ensures GridSum(dom, SourceGrid(dom, x, source)) == TotalFlux(dom, x, source, reference, 0)
    ensures GridSum(dom, ReferenceGrid(dom, x, reference)) == -TotalFlux(dom, x, source, reference, dom.shape.n0)
  {
    hide SlabSum, SourceGrid, ReferenceGrid, TotalFlux, Sum, Layer;
    var n := dom.shape.n0;
    var f, g := i => SlabSum(dom, Layer(SourceGrid(dom, x, source), i)),
                i => SlabSum(dom, Layer(ReferenceGrid(dom, x, reference), i));
    forall i | 0 <= i < n
      ensures f(i) == (if i == 0 then TotalFlux(dom, x, source, reference, 0) else 0.0)
      ensures g(i) == if i == n - 1 then -TotalFlux(dom, x, source, reference, n) else 0.0
    {
      SourceLayer(dom, x, source, reference, i);
      ReferenceLayer(dom, x, source, reference, i);
    }
    SumDelta(n, f, 0);
    SumDelta(n, g, n - 1);
    SumExt(n, f, i => SlabSum(dom, Layer(SourceGrid(dom, x, source), i)));
    SumExt(n, g, i => SlabSum(dom, Layer(ReferenceGrid(dom, x, reference), i)));
  }

  // --- The heating ---

  lemma GridCombination(dom: VoxelDomain, h: GridFunction, c: real, f: GridFunction, g: GridFunction)
    requires forall i, j, k | dom.shape.Contains(i, j, k) :: h(i, j, k) == c * (f(i, j, k) - g(i, j, k))
    ensures GridSum(dom, h) == c * (GridSum(dom, f) - GridSum(dom, g))
  {
    hide Sum;
    var n0, n1, n2 := dom.shape.n0, dom.shape.n1, dom.shape.n2;
    var difference: GridFunction := (i, j, k) => f(i, j, k) - g(i, j, k);
    forall i | 0 <= i < n0
      ensures SlabSum(dom, Layer(h, i)) == c * SlabSum(dom, Layer(difference, i))
      ensures SlabSum(dom, Layer(difference, i)) == SlabSum(dom, Layer(f, i)) + -1.0 * SlabSum(dom, Layer(g, i))
    {
      SlabSumScale(dom, c, Layer(difference, i), Layer(h, i));
      SlabSumDifference(dom, Layer(f, i), Layer(g, i), Layer(difference, i));
    }
    SumScale(n0, c, i => SlabSum(dom, Layer(difference, i)), i => SlabSum(dom, Layer(h, i)));
    SumLinear(n0, i => SlabSum(dom, Layer(f, i)), -1.0, i => SlabSum(dom, Layer(g, i)),
              i => SlabSum(dom, Layer(difference, i)));
  }

  function HeatGrid(dom: VoxelDomain, x: Vec, conductivity: real, source: real, reference: real): GridFunction
    requires dom.Valid()
  {
    (i, j, k) => JouleAt(dom, x, conductivity, source, reference, i, j, k)
  }

  lemma HeatIsGridSum(dom: VoxelDomain, x: Vec, conductivity: real, source: real, reference: real)
    requires dom.Valid()
    ensures Sum(dom.shape.n0, JouleSlabs(dom, x, conductivity, source, reference))
      == GridSum(dom, HeatGrid(dom, x, conductivity, source, reference))
    ensures var f, g := SlopeGrid(dom, x, source, reference), UnevenGrid(dom, x, source, reference);
      GridSum(dom, HeatGrid(dom, x, conductivity, source, reference))
        == conductivity * (GridSum(dom, f) - GridSum(dom, g))
  {
    hide Sum, SlabSum, JouleAt, Filled, SlopeSquares, Unevenness;
    var h, f, g := HeatGrid(dom, x, conductivity, source, reference), SlopeGrid(dom, x, source, reference),
                   UnevenGrid(dom, x, source, reference);
    forall i | 0 <= i < dom.shape.n0
      ensures SlabSum(dom, JouleGrid(dom, x, conductivity, source, reference, i)) == SlabSum(dom, Layer(h, i))
    {
      SlabSumScale(dom, 1.0, Layer(h, i), JouleGrid(dom, x, conductivity, source, reference, i));
    }
    SumExt(dom.shape.n0, JouleSlabs(dom, x, conductivity, source, reference), i => SlabSum(dom, Layer(h, i)));
    forall i, j, k | dom.shape.Contains(i, j, k) ensures h(i, j, k) == conductivity * (f(i, j, k) - g(i, j, k)) {
      HeatAndUnevenness(dom, x, conductivity, source, reference, i, j, k);
    }
    GridCombination(dom, h, conductivity, f, g);
  }

  lemma HeatAndUnevenness(dom: VoxelDomain, x: Vec, conductivity: real, source: real, reference: real, i: int, j: int,
                          k: int)
    requires dom.Valid()
    ensures JouleAt(dom, x, conductivity, source, reference, i, j, k)
      == conductivity * (SlopeGrid(dom, x, source, reference)(i, j, k) - Unevenness(dom, x, source, reference, i, j, k))
  {
    hide SlopeSquares, GradientOf, Bend;
    if Filled(dom, i, j, k) {
      HeatSplits(dom, x, conductivity, source, reference, i, j, k);
    }
  }

  /** What the reported power misses: the unevenness of all cells. */
  function Deficit(dom: VoxelDomain, x: Vec, source: real, reference: real): real
    requires dom.Valid()
  {
    GridSum(dom, UnevenGrid(dom, x, source, reference)) * (dom.axialSpacing * dom.uSpacing * dom.vSpacing)
  }

  /** Joule's law for a solution on any domain: heating and the deficit add up to voltage times current. */
  lemma PowerBalance(dom: VoxelDomain, x: Vec, conductivity: real, source: real, reference: real, f: nat)
    requires dom.Valid() && dom.NoIsolatedCell() && |x| == |dom.Cells()| && f <= dom.shape.n0
    requires Solves(dom.SystemOf(source, reference, None), x)
    ensures JoulePower(dom, x, conductivity, source, reference) + conductivity * Deficit(dom, x, source, reference)
      == (source - reference) * (TotalDensity(dom, x, conductivity, source, reference, f) * dom.uSpacing * dom.vSpacing)
  {
    hide VoxelDomain.SystemOf, VoxelDomain.NoIsolatedCell, Solves, GridSum, SlopeGrid, UnevenGrid, SourceGrid,
      ReferenceGrid, HeatGrid, JouleSlabs;
    hide TotalDensity, TotalFlux, Sum;
    var n := dom.shape.n0;
    EnergyBalance(dom, x, source, reference);
    FeedsAreFluxes(dom, x, source, reference);
    HeatIsGridSum(dom, x, conductivity, source, reference);
    SameFlux(dom, x, source, reference);
    SameCurrentEverywhere(dom, x, conductivity, source, reference, f, 0);
    TotalDensityIsFlux(dom, x, conductivity, source, reference, 0);
    hide VoxelDomain.Valid;
    DeficitAlgebra(conductivity, source, reference, TotalFlux(dom, x, source, reference, 0),
                   GridSum(dom, SlopeGrid(dom, x, source, reference)),
                 GridSum(dom, UnevenGrid(dom, x, source, reference)), dom.axialSpacing, dom.uSpacing, dom.vSpacing);
  }

  lemma SameFlux(dom: VoxelDomain, x: Vec, source: real, reference: real)
    requires dom.Valid() && dom.NoIsolatedCell() && |x| == |dom.Cells()|
    requires Solves(dom.SystemOf(source, reference, None), x)
    ensures TotalFlux(dom, x, source, reference, dom.shape.n0) == TotalFlux(dom, x, source, reference, 0)
  {
    hide VoxelDomain.SystemOf, VoxelDomain.NoIsolatedCell, Solves, TotalDensity, TotalFlux;
    SameCurrentEverywhere(dom, x, 1.0, source, reference, dom.shape.n0, 0);
    TotalDensityIsFlux(dom, x, 1.0, source, reference, dom.shape.n0);
    TotalDensityIsFlux(dom, x, 1.0, source, reference, 0);
    dom.PositiveSpacing();
    Cancel(dom.axialSpacing, TotalFlux(dom, x, source, reference, dom.shape.n0),
           TotalFlux(dom, x, source, reference, 0));
  }

  lemma Cancel(h: real, a: real, b: real)
    requires h > 0.0 && h * a == h * b
    ensures a == b
  {
  }

  lemma DeficitAlgebra(c: real, source: real, reference: real, flux: real, e: real, u: real, h: real, du: real,
                       dv: real)
    requires e == source * flux + reference * -flux
    ensures c * (e - u) * (h * du * dv) + c * (u * (h * du * dv)) == (source - reference) * (c * h * flux * du * dv)
  {
    var vol := h * du * dv;
    assert e == (source - reference) * flux;
    assert c * (e - u) * vol + c * (u * vol) == c * e * vol;
    assert (source - reference) * (c * h * flux * du * dv) == c * ((source - reference) * flux) * vol;
  }

  /** Both one-sided slopes agree at every cell, along every axis. */
  ghost predicate EvenEverywhere(dom: VoxelDomain, x: Vec, source: real, reference: real)
    requires dom.Valid()
  {
    forall i, j, k | dom.shape.Contains(i, j, k) :: Unevenness(dom, x, source, reference, i, j, k) == 0.0
  }

  lemma EvenMeansEqualSlopes(dom: VoxelDomain, x: Vec, source: real, reference: real, i: int, j: int, k: int)
    requires dom.Valid() && Filled(dom, i, j, k)
    ensures Unevenness(dom, x, source, reference, i, j, k) == 0.0 <==>
      forall axis | 0 <= axis < 3 ::
        Slope(dom, x, source, reference, i, j, k, axis, false) == Slope(dom, x, source, reference, i, j, k, axis, true)
  {
    hide Slope, Filled;
    forall axis | 0 <= axis < 3
      ensures Bend(dom, x, source, reference, i, j, k, axis) == 0.0 <==>
        Slope(dom, x, source, reference, i, j, k, axis, false) == Slope(dom, x, source, reference, i, j, k, axis, true)
    {
    }
    hide Bend;
    var b0, b1, b2 := Bend(dom, x, source, reference, i, j, k, 0), Bend(dom, x, source, reference, i, j, k, 1),
                      Bend(dom, x, source, reference, i, j, k, 2);
    SquarePositive(b0, b0 * b0);
    SquarePositive(b1, b1 * b1);
    SquarePositive(b2, b2 * b2);
  }

  lemma UnevenSum(dom: VoxelDomain, x: Vec, source: real, reference: real)
    requires dom.Valid()
    ensures GridSum(dom, UnevenGrid(dom, x, source, reference)) >= 0.0
    ensures GridSum(dom, UnevenGrid(dom, x, source, reference)) == 0.0 <==> EvenEverywhere(dom, x, source, reference)
  {
    hide Unevenness, Sum, SlabSum, VoxelDomain.Valid;
    var f, n := UnevenGrid(dom, x, source, reference), dom.shape.n0;
    var slabs := i => SlabSum(dom, Layer(f, i));
    SumExt(n, slabs, i => SlabSum(dom, Layer(f, i)));
    forall i | 0 <= i < n ensures slabs(i) >= 0.0 {
      SlabNonneg(dom, Layer(f, i));
    }
    SumNonneg(n, slabs);
    if EvenEverywhere(dom, x, source, reference) {
      forall i | 0 <= i < n ensures slabs(i) == 0.0 {
        SlabSumScale(dom, 0.0, Layer(f, i), Layer(f, i));
      }
      SumZero(n, slabs);
    } else {
      var i, j, k :| dom.shape.Contains(i, j, k) && Unevenness(dom, x, source, reference, i, j, k) != 0.0;
      SlabBoundsTerm(dom, Layer(f, i), j, k);
      SumBoundsTerm(n, slabs, i);
    }
  }

  lemma SlabBoundsTerm(dom: VoxelDomain, g: (int, int) -> real, j: int, k: int)
    requires forall j, k | 0 <= j < dom.shape.n1 && 0 <= k < dom.shape.n2 :: g(j, k) >= 0.0
    requires 0 <= j < dom.shape.n1 && 0 <= k < dom.shape.n2
    ensures g(j, k) <= SlabSum(dom, g)
  {
    hide Sum;
    SlabNonneg(dom, g);
    SumBoundsTerm(dom.shape.n1, j => g(j, k), j);
    SumBoundsTerm(dom.shape.n2, k => RowSum(dom, g, k), k);
  }

  /** The summed heating never exceeds voltage times current, and reaches it exactly when the potential
      falls evenly across every cell. */
  lemma JoulesLaw(dom: VoxelDomain, x: Vec, conductivity: real, source: real, reference: real, f: nat)
    requires dom.Valid() && dom.NoIsolatedCell() && |x| == |dom.Cells()| && f <= dom.shape.n0 && conductivity >= 0.0
    requires Solves(dom.SystemOf(source, reference, None), x)
    ensures var current := TotalDensity(dom, x, conductivity, source, reference, f) * dom.uSpacing * dom.vSpacing;
      var power := (source - reference) * current;
      && JoulePower(dom, x, conductivity, source, reference) <= power
      && (conductivity > 0.0 ==>
          (EvenEverywhere(dom, x, source, reference) <==> JoulePower(dom, x, conductivity, source, reference) == power))
  {
    hide VoxelDomain.SystemOf, VoxelDomain.NoIsolatedCell, Solves, JoulePower, TotalDensity, EvenEverywhere, GridSum;
    PowerBalance(dom, x, conductivity, source, reference, f);
    UnevenSum(dom, x, source, reference);
    dom.PositiveSpacing();
    hide VoxelDomain.Valid;
    SignOfDeficit(conductivity, GridSum(dom, UnevenGrid(dom, x, source, reference)), dom.axialSpacing, dom.uSpacing,
                  dom.vSpacing);
  }

  lemma SignOfDeficit(c: real, u: real, h: real, du: real, dv: real)
    requires c >= 0.0 && u >= 0.0 && h > 0.0 && du > 0.0 && dv > 0.0
    ensures c * (u * (h * du * dv)) >= 0.0
    ensures c > 0.0 ==> (c * (u * (h * du * dv)) == 0.0 <==> u == 0.0)
  {
    var vol := h * du * dv;
    ProductPositive(h, du, h * du);
    ProductPositive(h * du, dv, vol);
    var d := u * vol;
    if u > 0.0 {
      ProductPositive(u, vol, d);
      if c > 0.0 {
        ProductPositive(c, d, c * d);
      }
    }
  }
}
