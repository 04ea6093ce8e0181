/** Assembly of the finite-volume system from a voxel domain. */
module FiniteVolume {
  import opened Options
  import opened RealSums
  import opened Vectors
  import opened VoxelGrid
  import opened Connectivity
  import opened LinearSystem

  datatype VoxelDomain = VoxelDomain(
    shape: Shape,
    length: real,
    axialSpacing: real,
    uSpacing: real,
    vSpacing: real,
    occupancy: seq<bool>,
    occupiedCount: nat
  ) {
    predicate Valid() {
      && shape.n0 > 0 && shape.n1 > 0 && shape.n2 > 0
      && |occupancy| == shape.Size()
      && length > 0.0 && uSpacing > 0.0 && vSpacing > 0.0
      && axialSpacing == length / shape.n0 as real
      && occupiedCount == |OccupiedCells(occupancy)|
    }

    /** The weight of each neighbour slot: one over the squared spacing of its axis. */
    function Weights(): (w: Vec)
      requires Valid()
      ensures |w| == SLOTS && AllPositive(w)
    {
      PositiveSpacing();
      var w0, w1, w2 := InverseSquare(axialSpacing), InverseSquare(uSpacing), InverseSquare(vSpacing);
      [w0, w0, w1, w1, w2, w2]
    }

    lemma PositiveSpacing()
      requires Valid()
      ensures axialSpacing > 0.0
    {
    }

    function OccupiedNeighbor(c: int, slot: int): bool {
      shape.n1 > 0 && shape.n2 > 0 && Occupied(occupancy, NeighborCell(c, slot, shape))
    }

    function LinkWeight(c: int, slot: int): real
      requires Valid()
    {
      if OccupiedNeighbor(c, slot) then At(Weights(), slot) else 0.0
    }

    /** The coupling of cell `c` to the source terminal, through half a cell. */
    function SourceWeight(c: int): (w: real)
      requires Valid()
      ensures w >= 0.0
    {
      if AxialOf(c, shape) == 0 then 2.0 * Weights()[0] else 0.0
    }

    function ReferenceWeight(c: int): (w: real)
      requires Valid()
      ensures w >= 0.0
    {
      if AxialOf(c, shape) == shape.n0 - 1 then 2.0 * Weights()[0] else 0.0
    }

    function DiagonalSum(c: int, slots: nat): real
      requires Valid()
    {
      Sum(slots, s => LinkWeight(c, s))
    }

    function DiagonalOf(c: int): real
      requires Valid()
    {
      DiagonalSum(c, |Weights()|) + SourceWeight(c) + ReferenceWeight(c)
    }

    function NeighborActive(c: int, slot: int): int {
      if OccupiedNeighbor(c, slot) then Rank(occupancy, NeighborCell(c, slot, shape)) else -1
    }

    function NeighborRow(c: int): (row: seq<int>)
      ensures |row| == SLOTS
    {
      seq(SLOTS, s => NeighborActive(c, s))
    }

    function RhsOf(c: int, source: real, reference: real, volumeSource: Option<Vec>): real
      requires Valid()
    {
      (if volumeSource.Some? then At(volumeSource.value, c) else 0.0)
      + SourceWeight(c) * source + ReferenceWeight(c) * reference
    }

    /** The linear profile between the terminals, at the centre of cell `c`. */
    function InitialOf(c: int, source: real, reference: real): real
      requires Valid()
    {
      source + (reference - source) * ((AxialOf(c, shape) as real + 0.5) / shape.n0 as real)
    }

    function Cells(): seq<int> {
      ActiveBelow(occupancy, |occupancy|)
    }

    ghost predicate NoIsolatedCell()
      requires Valid()
    {
      forall c :: Occupied(occupancy, c) ==> DiagonalOf(c) > 0.0
    }

    function SystemOf(source: real, reference: real, volumeSource: Option<Vec>): FiniteVolumeSystem
      requires Valid()
    {
      var cells := Cells();
      var n := |cells|;
      FiniteVolumeSystem(
        cells,
        seq(|occupancy|, c requires 0 <= c < |occupancy| => if occupancy[c] then Rank(occupancy, c) else -1),
        seq(n, a requires 0 <= a < n => NeighborRow(cells[a])),
        Weights(),
        seq(n, a requires 0 <= a < n => DiagonalOf(cells[a])),
        seq(n, a requires 0 <= a < n => RhsOf(cells[a], source, reference, volumeSource)),
        seq(n, a requires 0 <= a < n => InitialOf(cells[a], source, reference))
      )
    }
  }

  function InverseSquare(h: real): (w: real)
    requires h > 0.0
    ensures w > 0.0 && w * (h * h) == 1.0
  {
    ProductPositive(h, h, h * h);
    1.0 / (h * h)
  }

  /** The occupied cells numbered below `n`, ascending. */
  function ActiveBelow(occ: seq<bool>, n: nat): (cells: seq<int>)
    requires n <= |occ|
  {
    if n == 0 then []
    else if occ[n - 1] then ActiveBelow(occ, n - 1) + [n - 1]
    else ActiveBelow(occ, n - 1)
  }

  /** The active index of cell `c`. */
  function Rank(occ: seq<bool>, c: int): int {
    if 0 <= c <= |occ| then |ActiveBelow(occ, c)| else -1
  }

  lemma {:induction false} ActiveMember(occ: seq<bool>, n: nat, a: nat)
    requires n <= |occ| && a < |ActiveBelow(occ, n)|
    ensures var c := ActiveBelow(occ, n)[a]; 0 <= c < n && occ[c] && Rank(occ, c) == a
  {
    if a < |ActiveBelow(occ, n - 1)| {
      ActiveMember(occ, n - 1, a);
    }
  }

  lemma {:induction false} ActiveComplete(occ: seq<bool>, n: nat, c: int)
    requires n <= |occ| && 0 <= c < n && occ[c]
    ensures 0 <= Rank(occ, c) < |ActiveBelow(occ, n)| && ActiveBelow(occ, n)[Rank(occ, c)] == c
  {
    if c < n - 1 {
      ActiveComplete(occ, n - 1, c);
    }
  }

  lemma {:induction false} ActiveCount(occ: seq<bool>, n: nat)
    requires n <= |occ|
    ensures |ActiveBelow(occ, n)| == |set c | 0 <= c < n && occ[c]|
  {
    if n > 0 {
      ActiveCount(occ, n - 1);
      var below, upto := set c | 0 <= c < n - 1 && occ[c], set c | 0 <= c < n && occ[c];
      assert occ[n - 1] ==> upto == below + {n - 1};
      assert !occ[n - 1] ==> upto == below;
    }
  }

  /** There are as many unknowns as occupied cells. */
  lemma SystemSize(dom: VoxelDomain, source: real, reference: real, volumeSource: Option<Vec>)
    requires dom.Valid()
    ensures dom.SystemOf(source, reference, volumeSource).Size() == dom.occupiedCount
  {
    ActiveCount(dom.occupancy, |dom.occupancy|);
  }

  method FlatNonzero(occ: seq<bool>) returns (cells: seq<int>)
    ensures cells == ActiveBelow(occ, |occ|)
  {
    cells := [];
    for c := 0 to |occ|
      invariant cells == ActiveBelow(occ, c)
    {
      if occ[c] {
        cells := cells + [c];
      }
    }
  }

  method ActiveIndex(occ: seq<bool>, cells: seq<int>) returns (index: seq<int>)
    requires cells == ActiveBelow(occ, |occ|)
    ensures index == seq(|occ|, c requires 0 <= c < |occ| => if occ[c] then Rank(occ, c) else -1)
  {
    var out := new int[|occ|](_ => -1);
    for a := 0 to |cells|
      invariant forall c :: 0 <= c < |occ| ==> out[c] == if occ[c] && Rank(occ, c) < a then Rank(occ, c) else -1
    {
      ActiveMember(occ, |occ|, a);
      forall c | 0 <= c < |occ| && occ[c] && Rank(occ, c) == a ensures c == cells[a] {
        ActiveComplete(occ, |occ|, c);
      }
      out[cells[a]] := a;
    }
    forall c | 0 <= c < |occ| && occ[c] ensures Rank(occ, c) < |cells| {
      ActiveComplete(occ, |occ|, c);
    }
    index := out[..];
  }

  // The neighbour slots of one cell: its row of `neighbors` and the link part of its diagonal.
  method LinkCell(dom: VoxelDomain, c: int, index: seq<int>) returns (row: seq<int>, links: real)
    requires dom.Valid() && Occupied(dom.occupancy, c) && |index| == |dom.occupancy|
    requires forall d :: Occupied(dom.occupancy, d) ==> index[d] == Rank(dom.occupancy, d)
    ensures row == dom.NeighborRow(c)
    ensures links == dom.DiagonalSum(c, |dom.Weights()|)
  {
    hide NeighborCell, Rank, Shape.Size;
    row, links := [], 0.0;
    for slot := 0 to SLOTS
      invariant |row| == slot && forall s :: 0 <= s < slot ==> row[s] == dom.NeighborActive(c, s)
      invariant links == dom.DiagonalSum(c, slot)
    {
      var d := NeighborCell(c, slot, dom.shape);
      NeighborOpposite(c, slot, dom.shape);
      if d >= 0 && dom.occupancy[d] {
        links := links + dom.Weights()[slot];
        row := row + [index[d]];
      } else {
        row := row + [-1];
      }
    }
  }

  // Adding the terminal couplings in the solver's order gives the diagonal and the right-hand side.
  lemma TerminalCouplings(dom: VoxelDomain, c: int, source: real, reference: real, volumeSource: Option<Vec>)
    requires dom.Valid()
    ensures var i, w := AxialOf(c, dom.shape), dom.Weights()[0];
      var first, last := i == 0, i == dom.shape.n0 - 1;
      && dom.DiagonalOf(c)
         == dom.DiagonalSum(c, |dom.Weights()|) + (if first then 2.0 * w else 0.0) + (if last then 2.0 * w else 0.0)
      && dom.RhsOf(c, source, reference, volumeSource)
         == (if volumeSource.Some? then At(volumeSource.value, c) else 0.0)
            + (if first then 2.0 * w * source else 0.0) + (if last then 2.0 * w * reference else 0.0)
  {
    hide VoxelDomain.DiagonalSum, VoxelDomain.Weights, AxialOf;
  }

  // The four entries of one active cell.
  method AssembleCell(dom: VoxelDomain, c: int, index: seq<int>, source: real, reference: real,
                      volumeSource: Option<Vec>)
    returns (row: seq<int>, diagonal: real, rhs: real, initial: real)
    requires dom.Valid() && Occupied(dom.occupancy, c) && |index| == |dom.occupancy|
    requires forall d :: Occupied(dom.occupancy, d) ==> index[d] == Rank(dom.occupancy, d)
    requires volumeSource.Some? ==> |volumeSource.value| == |dom.occupancy|
    ensures row == dom.NeighborRow(c) && diagonal == dom.DiagonalOf(c)
    ensures rhs == dom.RhsOf(c, source, reference, volumeSource) && initial == dom.InitialOf(c, source, reference)
  {
    hide VoxelDomain.DiagonalOf, VoxelDomain.DiagonalSum, VoxelDomain.RhsOf, VoxelDomain.NeighborRow,
      VoxelDomain.Weights;
    hide AxialOf, Shape.Size, Rank;
    TerminalCouplings(dom, c, source, reference, volumeSource);
    var i, n0, w := AxialOf(c, dom.shape), dom.shape.n0, dom.Weights()[0];
    initial := source + (reference - source) * ((i as real + 0.5) / n0 as real);
    rhs := if volumeSource.Some? then volumeSource.value[c] else 0.0;
    row, diagonal := LinkCell(dom, c, index);
    if i == 0 {
      diagonal := diagonal + 2.0 * w;
      rhs := rhs + 2.0 * w * source;
    }
    if i == n0 - 1 {
      diagonal := diagonal + 2.0 * w;
      rhs := rhs + 2.0 * w * reference;
    }
  }

  /** `create_scalar_finite_volume_system`: the assembled system, or nothing when some cell is isolated. */
  method CreateScalarSystem(dom: VoxelDomain, source: real, reference: real, volumeSource: Option<Vec>)
    returns (result: Option<FiniteVolumeSystem>)
    requires dom.Valid()
    requires volumeSource.Some? ==> |volumeSource.value| == |dom.occupancy|
    ensures result.Some? <==> dom.NoIsolatedCell()
    ensures result.Some? ==> result.value == dom.SystemOf(source, reference, volumeSource)
  {
    hide VoxelDomain.DiagonalOf, VoxelDomain.RhsOf, VoxelDomain.NeighborRow, VoxelDomain.Weights;
    hide VoxelDomain.InitialOf, VoxelDomain.SystemOf, ActiveBelow, Shape.Size, Rank;
    var occ := dom.occupancy;
    var cells := FlatNonzero(occ);
    var index := ActiveIndex(occ, cells);
    var n := |cells|;
    var neighbors: seq<seq<int>> := [];
    var diagonal, rhs, initial := new real[n](_ => 0.0), new real[n](_ => 0.0), new real[n](_ => 0.0);
    for active := 0 to n
      invariant |neighbors| == active && forall a :: 0 <= a < active ==> neighbors[a] == dom.NeighborRow(cells[a])
      invariant forall a :: 0 <= a < active ==> diagonal[a] == dom.DiagonalOf(cells[a]) > 0.0
      invariant forall a :: 0 <= a < active ==> rhs[a] == dom.RhsOf(cells[a], source, reference, volumeSource)
      invariant forall a :: 0 <= a < active ==> initial[a] == dom.InitialOf(cells[a], source, reference)
    {
      ActiveMember(occ, |occ|, active);
      var row, d, r, x := AssembleCell(dom, cells[active], index, source, reference, volumeSource);
      neighbors := neighbors + [row];
      diagonal[active], rhs[active], initial[active] := d, r, x;
      if d <= 0.0 {
        assert Occupied(occ, cells[active]);
        return None;
      }
    }
    forall c | Occupied(occ, c) ensures dom.DiagonalOf(c) > 0.0 {
      ActiveComplete(occ, |occ|, c);
    }
    Assembled(dom, source, reference, volumeSource, neighbors, diagonal[..], rhs[..], initial[..]);
    result := Some(FiniteVolumeSystem(cells, index, neighbors, dom.Weights(), diagonal[..], rhs[..], initial[..]));
  }

  lemma Assembled(dom: VoxelDomain, source: real, reference: real, volumeSource: Option<Vec>,
                  neighbors: seq<seq<int>>, diagonal: Vec, rhs: Vec, initial: Vec)
    requires dom.Valid()
    requires |neighbors| == |diagonal| == |rhs| == |initial| == |dom.Cells()|
    requires forall a :: 0 <= a < |neighbors| ==> neighbors[a] == dom.NeighborRow(dom.Cells()[a])
    requires forall a :: 0 <= a < |diagonal| ==> diagonal[a] == dom.DiagonalOf(dom.Cells()[a])
    requires forall a :: 0 <= a < |rhs| ==> rhs[a] == dom.RhsOf(dom.Cells()[a], source, reference, volumeSource)
    requires forall a :: 0 <= a < |initial| ==> initial[a] == dom.InitialOf(dom.Cells()[a], source, reference)
    ensures var sys := dom.SystemOf(source, reference, volumeSource);
      && sys.neighbors == neighbors && sys.diagonal == diagonal && sys.rhs == rhs && sys.initial == initial
      && sys.neighborWeights == dom.Weights() && sys.activeCells == dom.Cells()
      && sys.activeIndex == seq(|dom.occupancy|, c requires 0 <= c < |dom.occupancy| =>
                              if dom.occupancy[c] then Rank(dom.occupancy, c) else -1)
  {
    hide VoxelDomain.DiagonalOf, VoxelDomain.RhsOf, VoxelDomain.NeighborRow, VoxelDomain.Weights, VoxelDomain.InitialOf;
  }
}
