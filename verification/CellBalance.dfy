/** The residual of a cell as a difference of face fluxes, and the cancellation of fluxes over a slab. */
module CellBalance {
  import opened RealSums
  import opened Vectors
  import opened VoxelGrid
  import opened Connectivity
  import opened LinearSystem
  import opened FiniteVolume
  import opened Options
  import opened EdgeSums
  import opened DomainTheory

  /** Whether the cell at these coordinates exists and is occupied. */
  predicate Filled(dom: VoxelDomain, i: int, j: int, k: int) {
    dom.shape.Contains(i, j, k) && Occupied(dom.occupancy, VoxelIndex(i, j, k, dom.shape))
  }

  function Potential(dom: VoxelDomain, x: Vec, c: int): real {
    At(x, Rank(dom.occupancy, c))
  }

  function PotentialAt(dom: VoxelDomain, x: Vec, i: int, j: int, k: int): real {
    Potential(dom, x, VoxelIndex(i, j, k, dom.shape))
  }

  /** What the neighbour in direction `slot` contributes to the residual of cell `c`. */
  function Pull(dom: VoxelDomain, x: Vec, c: int, slot: int): real
    requires dom.Valid()
  {
    if dom.OccupiedNeighbor(c, slot)
    then At(dom.Weights(), slot) * (Potential(dom, x, NeighborCell(c, slot, dom.shape)) - Potential(dom, x, c))
    else 0.0
  }

  function PullSum(dom: VoxelDomain, x: Vec, c: int): real
    requires dom.Valid()
  {
    Sum(|dom.Weights()|, s => Pull(dom, x, c, s))
  }

  lemma CouplingIs(dom: VoxelDomain, source: real, reference: real, vol: Option<Vec>, x: Vec, a: int, s: int)
    requires dom.Valid() && dom.NoIsolatedCell() && 0 <= a < |dom.Cells()| && 0 <= s < SLOTS
    ensures var c := dom.Cells()[a];
      dom.SystemOf(source, reference, vol).Coupling(x, a, s)
      == Pull(dom, x, c, s) + Potential(dom, x, c) * dom.LinkWeight(c, s)
  {
    hide VoxelDomain.DiagonalOf, VoxelDomain.RhsOf, VoxelDomain.InitialOf, ActiveBelow, Rank, NeighborCell, At,
      VoxelDomain.Weights;
    var c, sys := dom.Cells()[a], dom.SystemOf(source, reference, vol);
    CellAt(dom, a);
    NeighborIs(dom, source, reference, vol, a, s);
    SystemWeights(dom, source, reference, vol);
    if dom.OccupiedNeighbor(c, s) {
      var d := NeighborCell(c, s, dom.shape);
      CellOf(dom, d);
      assert sys.Coupling(x, a, s) == At(dom.Weights(), s) * Potential(dom, x, d);
    }
  }

  lemma RowIs(dom: VoxelDomain, source: real, reference: real, vol: Option<Vec>, x: Vec, a: int)
    requires dom.Valid() && dom.NoIsolatedCell() && 0 <= a < |dom.Cells()|
    ensures var c := dom.Cells()[a];
      dom.SystemOf(source, reference, vol).OffDiagonal(x, a, |dom.Weights()|)
      == PullSum(dom, x, c) + Potential(dom, x, c) * dom.DiagonalSum(c, |dom.Weights()|)
  {
    hide VoxelDomain.SystemOf, VoxelDomain.Weights, Pull, VoxelDomain.LinkWeight, FiniteVolumeSystem.Coupling,
      VoxelDomain.NoIsolatedCell, Potential;
    hide VoxelDomain.Cells, VoxelDomain.Valid, ActiveBelow, Rank, FiniteVolumeSystem.Shaped;
    var c, sys := dom.Cells()[a], dom.SystemOf(source, reference, vol);
    var f, g, h := s => Pull(dom, x, c, s), s => dom.LinkWeight(c, s), s => sys.Coupling(x, a, s);
    forall s | 0 <= s < SLOTS ensures h(s) == f(s) + Potential(dom, x, c) * g(s) {
      CouplingIs(dom, source, reference, vol, x, a, s);
    }
    hide Sum;
    SumLinear(|dom.Weights()|, f, Potential(dom, x, c), g, h);
  }

  /** The residual of a cell, without a volume source: pulls of its neighbours and of the terminals. */
  lemma ResidualIs(dom: VoxelDomain, source: real, reference: real, x: Vec, c: int)
    requires dom.Valid() && dom.NoIsolatedCell() && Occupied(dom.occupancy, c) && |x| == |dom.Cells()|
    ensures dom.SystemOf(source, reference, None).Shaped() && dom.SystemOf(source, reference, None).Size() == |x|
    ensures At(dom.SystemOf(source, reference, None).Residual(x), Rank(dom.occupancy, c))
      == PullSum(dom, x, c) + dom.SourceWeight(c) * (source - Potential(dom, x, c))
         + dom.ReferenceWeight(c) * (reference - Potential(dom, x, c))
  {
    hide PullSum, VoxelDomain.DiagonalSum, VoxelDomain.SourceWeight, VoxelDomain.ReferenceWeight, ActiveBelow,
      FiniteVolumeSystem.OffDiagonal;
    hide FiniteVolumeSystem.Apply, VoxelDomain.SystemOf;
    var sys, a := dom.SystemOf(source, reference, None), Rank(dom.occupancy, c);
    Shaped(dom, source, reference, None);
    CellOf(dom, c);
    SystemWeights(dom, source, reference, None);
    RowIs(dom, source, reference, None, x, a);
    RhsIs(dom, source, reference, a);
    ApplyEntry(sys, x, a);
    DiagonalIs(dom, source, reference, a);
    BalanceAlgebra(dom.DiagonalSum(c, |dom.Weights()|), dom.SourceWeight(c), dom.ReferenceWeight(c),
                   Potential(dom, x, c), source, reference, PullSum(dom, x, c));
    assert At(sys.Residual(x), a) == sys.rhs[a] + -1.0 * sys.Apply(x)[a];
  }

  lemma DiagonalIs(dom: VoxelDomain, source: real, reference: real, a: int)
    requires dom.Valid() && 0 <= a < |dom.Cells()|
    ensures At(dom.SystemOf(source, reference, None).diagonal, a) == dom.DiagonalOf(dom.Cells()[a])
  {
    hide VoxelDomain.DiagonalOf, ActiveBelow;
  }

  lemma BalanceAlgebra(d: real, s: real, r: real, p: real, source: real, reference: real, pull: real)
    ensures s * source + r * reference - ((d + s + r) * p - (pull + p * d))
      == pull + s * (source - p) + r * (reference - p)
  {
  }

  // Flux through the face below coordinate `f`, along each axis.
  function AxialFlux(dom: VoxelDomain, x: Vec, source: real, reference: real, f: int, j: int, k: int): real
    requires dom.Valid()
  {
    var w := dom.Weights()[0];
    if f == 0 then
      if Filled(dom, 0, j, k) then 2.0 * w * (source - PotentialAt(dom, x, 0, j, k)) else 0.0
    else if f == dom.shape.n0 then
      if Filled(dom, f - 1, j, k) then 2.0 * w * (PotentialAt(dom, x, f - 1, j, k) - reference) else 0.0
    else if Filled(dom, f - 1, j, k) && Filled(dom, f, j, k) then
      w * (PotentialAt(dom, x, f - 1, j, k) - PotentialAt(dom, x, f, j, k))
    else 0.0
  }

  function UFlux(dom: VoxelDomain, x: Vec, i: int, f: int, k: int): real
    requires dom.Valid()
  {
    if Filled(dom, i, f - 1, k) && Filled(dom, i, f, k)
    then dom.Weights()[2] * (PotentialAt(dom, x, i, f - 1, k) - PotentialAt(dom, x, i, f, k))
    else 0.0
  }

  function VFlux(dom: VoxelDomain, x: Vec, i: int, j: int, f: int): real
    requires dom.Valid()
  {
    if Filled(dom, i, j, f - 1) && Filled(dom, i, j, f)
    then dom.Weights()[4] * (PotentialAt(dom, x, i, j, f - 1) - PotentialAt(dom, x, i, j, f))
    else 0.0
  }

  lemma PullAt(dom: VoxelDomain, x: Vec, i: int, j: int, k: int, slot: int)
    requires dom.Valid() && dom.shape.Contains(i, j, k) && 0 <= slot < SLOTS
    ensures var o, c := Offset(slot), VoxelIndex(i, j, k, dom.shape);
      Pull(dom, x, c, slot)
      == if Filled(dom, i + o.0, j + o.1, k + o.2)
         then dom.Weights()[slot] * (PotentialAt(dom, x, i + o.0, j + o.1, k + o.2) - PotentialAt(dom, x, i, j, k))
         else 0.0
  {
    hide NeighborCell, Filled, Potential, VoxelDomain.Weights, VoxelDomain.OccupiedNeighbor, VoxelIndex, At;
    NeighborAt(dom, i, j, k, slot);
    WeightAt(dom, slot);
    var o, c := Offset(slot), VoxelIndex(i, j, k, dom.shape);
    if Filled(dom, i + o.0, j + o.1, k + o.2) {
      EqualProducts(At(dom.Weights(), slot), Potential(dom, x, NeighborCell(c, slot, dom.shape)) - Potential(dom, x, c),
                    dom.Weights()[slot], PotentialAt(dom, x, i + o.0, j + o.1, k + o.2) - PotentialAt(dom, x, i, j, k));
    }
  }

  lemma NeighborAt(dom: VoxelDomain, i: int, j: int, k: int, slot: int)
    requires dom.Valid() && dom.shape.Contains(i, j, k) && 0 <= slot < SLOTS
    ensures var o, c := Offset(slot), VoxelIndex(i, j, k, dom.shape);
      && (dom.OccupiedNeighbor(c, slot) <==> Filled(dom, i + o.0, j + o.1, k + o.2))
      && (dom.OccupiedNeighbor(c, slot) ==>
          NeighborCell(c, slot, dom.shape) == VoxelIndex(i + o.0, j + o.1, k + o.2, dom.shape))
  {
    hide VoxelIndex, AxialOf, UOf, VOf, Shape.Size;
    Decode(i, j, k, dom.shape);
  }

  lemma WeightAt(dom: VoxelDomain, slot: int)
    requires dom.Valid() && 0 <= slot < SLOTS
    ensures At(dom.Weights(), slot) == dom.Weights()[slot]
  {
  }

  lemma EqualProducts(a: real, b: real, c: real, d: real)
    requires a == c && b == d
    ensures a * b == c * d
  {
  }

  lemma WeightPairs(dom: VoxelDomain)
    requires dom.Valid()
    ensures dom.Weights()[1] == dom.Weights()[0] && dom.Weights()[3] == dom.Weights()[2]
    ensures dom.Weights()[5] == dom.Weights()[4]
  {
  }

  // The axial half of the balance, terminals included.
  lemma AxialBalance(dom: VoxelDomain, source: real, reference: real, x: Vec, i: int, j: int, k: int)
    requires dom.Valid() && Filled(dom, i, j, k)
    ensures var c, p := VoxelIndex(i, j, k, dom.shape), PotentialAt(dom, x, i, j, k);
      Pull(dom, x, c, 0) + Pull(dom, x, c, 1) + dom.SourceWeight(c) * (source - p)
        + dom.ReferenceWeight(c) * (reference - p)
      == AxialFlux(dom, x, source, reference, i, j, k) - AxialFlux(dom, x, source, reference, i + 1, j, k)
  {
    hide VoxelIndex, AxialOf, Shape.Size, Potential, VoxelDomain.Weights, Pull;
    PullAt(dom, x, i, j, k, 0);
    PullAt(dom, x, i, j, k, 1);
    WeightPairs(dom);
    Decode(i, j, k, dom.shape);
  }

  lemma LateralBalance(dom: VoxelDomain, x: Vec, i: int, j: int, k: int)
    requires dom.Valid() && Filled(dom, i, j, k)
    ensures var c := VoxelIndex(i, j, k, dom.shape);
      && Pull(dom, x, c, 2) + Pull(dom, x, c, 3) == UFlux(dom, x, i, j, k) - UFlux(dom, x, i, j + 1, k)
      && Pull(dom, x, c, 4) + Pull(dom, x, c, 5) == VFlux(dom, x, i, j, k) - VFlux(dom, x, i, j, k + 1)
  {
    hide VoxelIndex, Shape.Size, Potential, VoxelDomain.Weights, Pull;
    forall s | 2 <= s < SLOTS {
      PullAt(dom, x, i, j, k, s);
    }
    PullAt(dom, x, i, j, k, 2);
    PullAt(dom, x, i, j, k, 3);
    PullAt(dom, x, i, j, k, 4);
    PullAt(dom, x, i, j, k, 5);
    WeightPairs(dom);
  }

  /** The residual at grid coordinates, zero outside the domain. */
  function ResidualAt(dom: VoxelDomain, source: real, reference: real, x: Vec, i: int, j: int, k: int): real
    requires dom.Valid() && dom.NoIsolatedCell() && |x| == |dom.Cells()|
  {
    Shaped(dom, source, reference, None);
    if Filled(dom, i, j, k)
    then At(dom.SystemOf(source, reference, None).Residual(x), Rank(dom.occupancy, VoxelIndex(i, j, k, dom.shape)))
    else 0.0
  }

  lemma PullsOf(dom: VoxelDomain, x: Vec, c: int)
    requires dom.Valid()
    ensures PullSum(dom, x, c)
      == Pull(dom, x, c, 0) + Pull(dom, x, c, 1) + Pull(dom, x, c, 2) + Pull(dom, x, c, 3) + Pull(dom, x, c, 4)
        + Pull(dom, x, c, 5)
  {
  }

  lemma FilledBalance(dom: VoxelDomain, source: real, reference: real, x: Vec, i: int, j: int, k: int)
    requires dom.Valid() && dom.NoIsolatedCell() && |x| == |dom.Cells()| && Filled(dom, i, j, k)
    ensures ResidualAt(dom, source, reference, x, i, j, k)
      == (AxialFlux(dom, x, source, reference, i, j, k) - AxialFlux(dom, x, source, reference, i + 1, j, k))
         + (UFlux(dom, x, i, j, k) - UFlux(dom, x, i, j + 1, k))
         + (VFlux(dom, x, i, j, k) - VFlux(dom, x, i, j, k + 1))
  {
    hide VoxelIndex, Shape.Size, AxialFlux, UFlux, VFlux, VoxelDomain.Weights, Pull, PullSum, VoxelDomain.DiagonalOf;
    hide VoxelDomain.SystemOf, FiniteVolumeSystem.Residual, VoxelDomain.SourceWeight, VoxelDomain.ReferenceWeight,
      Potential, Rank, At;
    var c := VoxelIndex(i, j, k, dom.shape);
    ResidualIs(dom, source, reference, x, c);
    PullsOf(dom, x, c);
    AxialBalance(dom, source, reference, x, i, j, k);
    LateralBalance(dom, x, i, j, k);
  }

  /** Every residual is the net flux into its cell; cells outside the domain have none. */
  lemma FluxBalance(dom: VoxelDomain, source: real, reference: real, x: Vec, i: int, j: int, k: int)
    requires dom.Valid() && dom.NoIsolatedCell() && |x| == |dom.Cells()| && dom.shape.Contains(i, j, k)
    ensures ResidualAt(dom, source, reference, x, i, j, k)
      == (AxialFlux(dom, x, source, reference, i, j, k) - AxialFlux(dom, x, source, reference, i + 1, j, k))
         + (UFlux(dom, x, i, j, k) - UFlux(dom, x, i, j + 1, k))
         + (VFlux(dom, x, i, j, k) - VFlux(dom, x, i, j, k + 1))
  {
    hide VoxelIndex, Shape.Size, VoxelDomain.Weights, VoxelDomain.DiagonalOf, VoxelDomain.SystemOf,
      FiniteVolumeSystem.Residual, Potential, Rank, At;
    if Filled(dom, i, j, k) {
      FilledBalance(dom, source, reference, x, i, j, k);
    }
  }
}
