/** From the connectivity check to the solver: on every accepted domain the assembled system is
    symmetric positive definite, its solution is unique, and potentials stay between the terminals'. */
module DomainTheory {
  import opened RealSums
  import opened Vectors
  import opened VoxelGrid
  import opened Connectivity
  import opened LinearSystem
  import opened FiniteVolume
  import opened Options
  import opened EdgeSums
  import opened SystemTheory
  import CG = ConjugateGradients

  /** What `_validate_connectivity` accepts. */
  ghost predicate Accepts(dom: VoxelDomain)
    requires dom.Valid()
  {
    && MeetsSlab(dom.occupancy, dom.shape, 0)
    && MeetsSlab(dom.occupancy, dom.shape, dom.shape.n0 - 1)
    && OneComponent(dom.occupancy, dom.shape)
  }

  /** A connected domain that touches one terminal is all the theory needs. */
  ghost predicate ConnectedToTerminal(dom: VoxelDomain)
    requires dom.Valid()
  {
    && (MeetsSlab(dom.occupancy, dom.shape, 0) || MeetsSlab(dom.occupancy, dom.shape, dom.shape.n0 - 1))
    && OneComponent(dom.occupancy, dom.shape)
  }

  lemma CellAt(dom: VoxelDomain, a: int)
    requires dom.Valid() && 0 <= a < |dom.Cells()|
    ensures Occupied(dom.occupancy, dom.Cells()[a]) && Rank(dom.occupancy, dom.Cells()[a]) == a
  {
    ActiveMember(dom.occupancy, |dom.occupancy|, a);
  }

  lemma CellOf(dom: VoxelDomain, c: int)
    requires dom.Valid() && Occupied(dom.occupancy, c)
    ensures 0 <= Rank(dom.occupancy, c) < |dom.Cells()| && dom.Cells()[Rank(dom.occupancy, c)] == c
  {
    ActiveComplete(dom.occupancy, |dom.occupancy|, c);
  }

  lemma Shaped(dom: VoxelDomain, source: real, reference: real, vol: Option<Vec>)
    requires dom.Valid() && dom.NoIsolatedCell()
    ensures dom.SystemOf(source, reference, vol).Shaped()
    ensures dom.SystemOf(source, reference, vol).Size() == |dom.Cells()|
  {
    hide VoxelDomain.DiagonalOf, VoxelDomain.RhsOf, VoxelDomain.InitialOf, ActiveBelow, Rank, NeighborCell;
    var sys := dom.SystemOf(source, reference, vol);
    forall a | 0 <= a < |dom.Cells()| ensures sys.diagonal[a] > 0.0 {
      CellAt(dom, a);
    }
    forall a, s | 0 <= a < |dom.Cells()| && 0 <= s < SLOTS ensures -1 <= sys.neighbors[a][s] < |dom.Cells()| {
      var c := dom.Cells()[a];
      if dom.OccupiedNeighbor(c, s) {
        CellOf(dom, NeighborCell(c, s, dom.shape));
      }
    }
  }

  lemma NeighborIs(dom: VoxelDomain, source: real, reference: real, vol: Option<Vec>, a: int, s: int)
    requires dom.Valid() && dom.NoIsolatedCell() && 0 <= a < |dom.Cells()| && 0 <= s < SLOTS
    ensures dom.SystemOf(source, reference, vol).Neighbor(a, s) == dom.NeighborActive(dom.Cells()[a], s)
  {
    hide VoxelDomain.DiagonalOf, VoxelDomain.RhsOf, VoxelDomain.InitialOf, ActiveBelow, Rank, NeighborCell;
    Shaped(dom, source, reference, vol);
  }

  lemma OppositeWeight(dom: VoxelDomain, s: int)
    requires dom.Valid() && 0 <= s < SLOTS
    ensures 0 <= Opposite(s) < SLOTS && dom.Weights()[s] == dom.Weights()[Opposite(s)]
  {
  }

  lemma MutualLinks(dom: VoxelDomain, source: real, reference: real, vol: Option<Vec>)
    requires dom.Valid() && dom.NoIsolatedCell()
    ensures Mutual(dom.SystemOf(source, reference, vol))
  {
    hide VoxelDomain.SystemOf, VoxelDomain.DiagonalOf, ActiveBelow, Rank, NeighborCell, Shape.Size;
    var sys := dom.SystemOf(source, reference, vol);
    Shaped(dom, source, reference, vol);
    SystemWeights(dom, source, reference, vol);
    forall a, s | 0 <= a < sys.Size() && 0 <= s < SLOTS && sys.Neighbor(a, s) >= 0
      ensures sys.Neighbor(sys.Neighbor(a, s), Opposite(s)) == a
      ensures sys.neighborWeights[s] == sys.neighborWeights[Opposite(s)]
    {
      OppositeWeight(dom, s);
      NeighborIs(dom, source, reference, vol, a, s);
      var c := dom.Cells()[a];
      var d := NeighborCell(c, s, dom.shape);
      CellAt(dom, a);
      NeighborOpposite(c, s, dom.shape);
      CellOf(dom, d);
      NeighborIs(dom, source, reference, vol, Rank(dom.occupancy, d), Opposite(s));
    }
  }

  lemma SystemWeights(dom: VoxelDomain, source: real, reference: real, vol: Option<Vec>)
    requires dom.Valid()
    ensures dom.SystemOf(source, reference, vol).neighborWeights == dom.Weights()
    ensures dom.SystemOf(source, reference, vol).activeCells == dom.Cells()
  {
  }

  /** Beyond its links a cell's diagonal holds exactly its terminal couplings. */
  lemma ExcessIs(dom: VoxelDomain, source: real, reference: real, vol: Option<Vec>, a: int)
    requires dom.Valid() && dom.NoIsolatedCell() && 0 <= a < |dom.Cells()|
    ensures var c := dom.Cells()[a];
      Excess(dom.SystemOf(source, reference, vol), a) == dom.SourceWeight(c) + dom.ReferenceWeight(c)
  {
    hide ActiveBelow, Rank, NeighborCell, VoxelDomain.RhsOf, VoxelDomain.InitialOf, VoxelDomain.SourceWeight,
      VoxelDomain.ReferenceWeight;
    var sys, c := dom.SystemOf(source, reference, vol), dom.Cells()[a];
    Shaped(dom, source, reference, vol);
    CellAt(dom, a);
    forall s | 0 <= s < SLOTS ensures Link(sys, Ones(), a, s) == dom.LinkWeight(c, s) {
      NeighborIs(dom, source, reference, vol, a, s);
      if dom.OccupiedNeighbor(c, s) {
        CellOf(dom, NeighborCell(c, s, dom.shape));
      }
    }
    SumExt(|dom.Weights()|, s => Link(sys, Ones(), a, s), s => dom.LinkWeight(c, s));
  }

  lemma AssembledConductive(dom: VoxelDomain, source: real, reference: real, vol: Option<Vec>)
    requires dom.Valid() && dom.NoIsolatedCell()
    ensures Conductive(dom.SystemOf(source, reference, vol))
  {
    hide VoxelDomain.SystemOf, Excess, Mutual, VoxelDomain.Weights;
    Shaped(dom, source, reference, vol);
    SystemWeights(dom, source, reference, vol);
    MutualLinks(dom, source, reference, vol);
    forall a | 0 <= a < |dom.Cells()| ensures Excess(dom.SystemOf(source, reference, vol), a) >= 0.0 {
      ExcessIs(dom, source, reference, vol, a);
    }
  }

  // A link makes the diagonal positive.
  lemma LinkedNotIsolated(dom: VoxelDomain, c: int, s: nat)
    requires dom.Valid() && s < SLOTS && dom.OccupiedNeighbor(c, s)
    ensures dom.DiagonalOf(c) > 0.0
  {
    var f := s => dom.LinkWeight(c, s);
    var w := dom.Weights();
    assert f(s) == w[s] > 0.0;
    hide VoxelDomain.Weights, VoxelDomain.OccupiedNeighbor;
    SumBoundsTerm(|w|, f, s);
  }

  lemma TerminalNotIsolated(dom: VoxelDomain, c: int)
    requires dom.Valid()
    requires AxialOf(c, dom.shape) == 0 || AxialOf(c, dom.shape) == dom.shape.n0 - 1
    ensures dom.SourceWeight(c) + dom.ReferenceWeight(c) > 0.0 && dom.DiagonalOf(c) > 0.0
  {
  }

  /** A terminal cell and a path to it from `c`. */
  lemma PathToTerminal(dom: VoxelDomain, c: int) returns (p: seq<int>)
    requires dom.Valid() && ConnectedToTerminal(dom) && Occupied(dom.occupancy, c)
    ensures IsPath(dom.occupancy, dom.shape, p) && p[0] == c
    ensures var t := p[|p| - 1]; AxialOf(t, dom.shape) == 0 || AxialOf(t, dom.shape) == dom.shape.n0 - 1
  {
    hide Shape.Size, VoxelIndex, AxialOf, Adjacent;
    var occ, sh := dom.occupancy, dom.shape;
    var i := if MeetsSlab(occ, sh, 0) then 0 else sh.n0 - 1;
    var j, k :| 0 <= j < sh.n1 && 0 <= k < sh.n2 && Occupied(occ, VoxelIndex(i, j, k, sh));
    Decode(i, j, k, sh);
    var t := VoxelIndex(i, j, k, sh);
    assert Reachable(occ, sh, c, t);
    p :| IsPath(occ, sh, p) && p[0] == c && p[|p| - 1] == t;
  }

  /** The solver's "isolated cell" error cannot occur on a connected domain. */
  lemma ConnectedNotIsolated(dom: VoxelDomain)
    requires dom.Valid() && ConnectedToTerminal(dom)
    ensures dom.NoIsolatedCell()
  {
    hide VoxelDomain.DiagonalOf, NeighborCell, ConnectedToTerminal;
    forall c | Occupied(dom.occupancy, c) ensures dom.DiagonalOf(c) > 0.0 {
      var p := PathToTerminal(dom, c);
      if |p| == 1 {
        TerminalNotIsolated(dom, c);
      } else {
        assert Adjacent(dom.shape, p[0], p[1]);
        var s :| 0 <= s < 6 && NeighborCell(c, s, dom.shape) == p[1];
        LinkedNotIsolated(dom, c, s);
      }
    }
  }

  lemma CellGrounded(dom: VoxelDomain, source: real, reference: real, vol: Option<Vec>, p: seq<int>)
    requires dom.Valid() && dom.NoIsolatedCell() && IsPath(dom.occupancy, dom.shape, p)
    requires var t := p[|p| - 1]; AxialOf(t, dom.shape) == 0 || AxialOf(t, dom.shape) == dom.shape.n0 - 1
    ensures GroundedCell(dom.SystemOf(source, reference, vol), Rank(dom.occupancy, p[0]))
  {
    hide VoxelDomain.SystemOf, VoxelDomain.DiagonalOf, Excess, Joined, Rank, ActiveBelow, Adjacent, AxialOf, Shape.Size;
    var sys, occ, n := dom.SystemOf(source, reference, vol), dom.occupancy, |p|;
    Shaped(dom, source, reference, vol);
    var q := seq(n, i requires 0 <= i < n => Rank(occ, p[i]));
    forall i | 0 <= i < n ensures 0 <= q[i] < sys.Size() && dom.Cells()[q[i]] == p[i] {
      CellOf(dom, p[i]);
    }
    forall i | 0 <= i < n - 1 ensures Joined(sys, q[i], q[i + 1]) {
      AdjacentJoined(dom, source, reference, vol, p[i], p[i + 1]);
    }
    ExcessIs(dom, source, reference, vol, q[n - 1]);
    TerminalNotIsolated(dom, p[n - 1]);
    assert LeadsToTerminal(sys, q);
  }

  lemma AssembledGrounded(dom: VoxelDomain, source: real, reference: real, vol: Option<Vec>)
    requires dom.Valid() && ConnectedToTerminal(dom)
    ensures Grounded(dom.SystemOf(source, reference, vol))
  {
    hide VoxelDomain.SystemOf, VoxelDomain.DiagonalOf, ConnectedToTerminal, GroundedCell, Rank, ActiveBelow, AxialOf,
      IsPath, Shape.Size;
    var sys := dom.SystemOf(source, reference, vol);
    ConnectedNotIsolated(dom);
    Shaped(dom, source, reference, vol);
    forall a | 0 <= a < sys.Size() ensures GroundedCell(sys, a) {
      CellAt(dom, a);
      var p := PathToTerminal(dom, dom.Cells()[a]);
      CellGrounded(dom, source, reference, vol, p);
    }
  }

  lemma AdjacentJoined(dom: VoxelDomain, source: real, reference: real, vol: Option<Vec>, c: int, d: int)
    requires dom.Valid() && dom.NoIsolatedCell()
    requires Occupied(dom.occupancy, c) && Occupied(dom.occupancy, d) && Adjacent(dom.shape, c, d)
    ensures Joined(dom.SystemOf(source, reference, vol), Rank(dom.occupancy, c), Rank(dom.occupancy, d))
  {
    hide VoxelDomain.SystemOf, VoxelDomain.DiagonalOf, Rank, ActiveBelow, NeighborCell;
    var sys := dom.SystemOf(source, reference, vol);
    var s :| 0 <= s < 6 && NeighborCell(c, s, dom.shape) == d;
    CellOf(dom, c);
    CellOf(dom, d);
    NeighborIs(dom, source, reference, vol, Rank(dom.occupancy, c), s);
    assert sys.Neighbor(Rank(dom.occupancy, c), s) == Rank(dom.occupancy, d);
  }

  /** On every accepted domain the system the solver receives is symmetric positive definite. */
  lemma AcceptedIsSpd(dom: VoxelDomain, source: real, reference: real, vol: Option<Vec>)
    requires dom.Valid() && ConnectedToTerminal(dom)
    ensures CG.Spd(dom.SystemOf(source, reference, vol))
  {
    hide VoxelDomain.SystemOf, ConnectedToTerminal, Grounded, FiniteVolumeSystem.SelfAdjoint,
      FiniteVolumeSystem.PositiveDefinite;
    var sys := dom.SystemOf(source, reference, vol);
    ConnectedNotIsolated(dom);
    AssembledConductive(dom, source, reference, vol);
    AssembledGrounded(dom, source, reference, vol);
    Symmetric(sys);
    PositiveDefinite(sys);
  }

  ghost predicate Solves(sys: FiniteVolumeSystem, x: Vec) {
    sys.Shaped() && |x| == sys.Size() && sys.Apply(x) == sys.rhs
  }

  lemma SolutionUnique(dom: VoxelDomain, source: real, reference: real, vol: Option<Vec>, x: Vec, y: Vec)
    requires dom.Valid() && ConnectedToTerminal(dom)
    requires Solves(dom.SystemOf(source, reference, vol), x) && Solves(dom.SystemOf(source, reference, vol), y)
    ensures x == y
  {
    hide VoxelDomain.SystemOf, ConnectedToTerminal, Grounded, Conductive;
    ConnectedNotIsolated(dom);
    AssembledConductive(dom, source, reference, vol);
    AssembledGrounded(dom, source, reference, vol);
    UniqueSolution(dom.SystemOf(source, reference, vol), x, y);
  }

  // A constant vector is mapped to the excess of each cell.
  lemma ConstantImage(sys: FiniteVolumeSystem, k: real, a: nat)
    requires sys.Shaped() && a < sys.Size()
    ensures sys.Apply(seq(sys.Size(), _ => k))[a] == k * Excess(sys, a)
  {
    hide At, FiniteVolumeSystem.OffDiagonal, FiniteVolumeSystem.Apply, CellSum;
    var x := seq(sys.Size(), _ => k);
    ApplyEntry(sys, x, a);
    ConstantOffDiagonal(sys, k, a);
    ConstantEntries(sys, k, a);
    sys.Distribute(k, At(sys.diagonal, a), CellSum(sys, Ones(), a));
  }

  lemma ConstantOffDiagonal(sys: FiniteVolumeSystem, k: real, a: nat)
    requires sys.Shaped() && a < sys.Size()
    ensures sys.OffDiagonal(seq(sys.Size(), _ => k), a, sys.Slots()) == k * CellSum(sys, Ones(), a)
  {
    hide FiniteVolumeSystem.Coupling, Link;
    var x := seq(sys.Size(), _ => k);
    var f, h := s => Link(sys, Ones(), a, s), s => sys.Coupling(x, a, s);
    forall s | 0 <= s < sys.Slots() ensures h(s) == k * f(s) {
      ConstantLink(sys, k, a, s);
    }
    SumScale(sys.Slots(), k, f, h);
  }

  lemma ConstantLink(sys: FiniteVolumeSystem, k: real, a: nat, s: int)
    requires sys.Shaped() && a < sys.Size()
    ensures sys.Coupling(seq(sys.Size(), _ => k), a, s) == k * Link(sys, Ones(), a, s)
  {
  }

  lemma ConstantEntries(sys: FiniteVolumeSystem, k: real, a: nat)
    requires sys.Shaped() && a < sys.Size()
    ensures At(seq(sys.Size(), _ => k), a) == k
    ensures At(sys.Apply(seq(sys.Size(), _ => k)), a) == sys.Apply(seq(sys.Size(), _ => k))[a]
  {
  }

  lemma RhsIs(dom: VoxelDomain, source: real, reference: real, a: int)
    requires dom.Valid() && 0 <= a < |dom.Cells()|
    ensures |dom.SystemOf(source, reference, None).rhs| == |dom.Cells()|
    ensures var c := dom.Cells()[a];
      dom.SystemOf(source, reference, None).rhs[a] == dom.SourceWeight(c) * source + dom.ReferenceWeight(c) * reference
  {
    hide VoxelDomain.SourceWeight, VoxelDomain.ReferenceWeight, ActiveBelow;
  }

  lemma BetweenTerminals(s: real, r: real, source: real, reference: real, lo: real, hi: real)
    requires s >= 0.0 && r >= 0.0 && lo <= source <= hi && lo <= reference <= hi
    ensures lo * (s + r) <= s * source + r * reference <= hi * (s + r)
  {
  }

  /** Discrete maximum principle: without a volume source every potential lies between the
      terminals' potentials. */
  lemma MaximumPrinciple(dom: VoxelDomain, source: real, reference: real, x: Vec, lo: real, hi: real)
    requires dom.Valid() && ConnectedToTerminal(dom)
    requires Solves(dom.SystemOf(source, reference, None), x)
    requires lo <= source <= hi && lo <= reference <= hi
    ensures forall a :: 0 <= a < |x| ==> lo <= x[a] <= hi
  {
    hide VoxelDomain.SystemOf, ConnectedToTerminal, Grounded, Conductive, Excess, FiniteVolumeSystem.Apply;
    var sys := dom.SystemOf(source, reference, None);
    var n := sys.Size();
    ConnectedNotIsolated(dom);
    Shaped(dom, source, reference, None);
    AssembledConductive(dom, source, reference, None);
    AssembledGrounded(dom, source, reference, None);
    var top, bottom := seq(n, _ => hi), seq(n, _ => lo);
    var above, below := AddScaled(x, -1.0, top), AddScaled(bottom, -1.0, x);
    sys.ApplyLinear(x, -1.0, top);
    sys.ApplyLinear(bottom, -1.0, x);
    forall a | 0 <= a < n ensures sys.Apply(above)[a] <= 0.0 && sys.Apply(below)[a] <= 0.0 {
      var c := dom.Cells()[a];
      ConstantImage(sys, hi, a);
      ConstantImage(sys, lo, a);
      RhsIs(dom, source, reference, a);
      ExcessIs(dom, source, reference, None, a);
      BetweenTerminals(dom.SourceWeight(c), dom.ReferenceWeight(c), source, reference, lo, hi);
    }
    InverseNonneg(sys, above);
    InverseNonneg(sys, below);
    forall a | 0 <= a < n ensures lo <= x[a] <= hi {
      assert above[a] == x[a] + -1.0 * hi && below[a] == lo + -1.0 * x[a];
    }
  }
}
