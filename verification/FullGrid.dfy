/** A conductor that fills its grid: accepted, solvable, and a prism. */
module FullGrid {
  import opened VoxelGrid
  import opened Connectivity
  import opened FiniteVolume
  import opened Options
  import opened DomainTheory
  import opened CellBalance
  import opened PrismConductor

  predicate Full(dom: VoxelDomain) {
    forall c :: 0 <= c < |dom.occupancy| ==> dom.occupancy[c]
  }

  lemma IndexNonneg(i: int, j: int, k: int, sh: Shape)
    requires i >= 0 && j >= 0 && k >= 0 && sh.n1 > 0 && sh.n2 > 0
    ensures VoxelIndex(i, j, k, sh) >= 0
  {
    assert i * sh.n1 >= 0;
    assert (i * sh.n1 + j) * sh.n2 >= 0;
  }

  lemma IndexSteps(i: int, j: int, k: int, sh: Shape)
    ensures VoxelIndex(i, j, k, sh) - VoxelIndex(i, j, k - 1, sh) == 1
    ensures VoxelIndex(i, j, k, sh) - VoxelIndex(i, j - 1, k, sh) == sh.n2
    ensures VoxelIndex(i, j, k, sh) - VoxelIndex(i - 1, j, k, sh) == sh.n1 * sh.n2
  {
    assert (i * sh.n1 + j) * sh.n2 == (i * sh.n1 + (j - 1)) * sh.n2 + sh.n2;
    assert i * sh.n1 == (i - 1) * sh.n1 + sh.n1;
    assert (((i - 1) * sh.n1 + sh.n1) + j) * sh.n2 == ((i - 1) * sh.n1 + j) * sh.n2 + sh.n1 * sh.n2;
  }

  // Every cell but the first has a neighbour with a smaller number.
  lemma StepBack(c: int, sh: Shape) returns (slot: int)
    requires IsCell(c, sh) && c > 0
    ensures sh.n1 > 0 && sh.n2 > 0 && 0 <= slot < 6 && 0 <= NeighborCell(c, slot, sh) < c
  {
    Encode(c, sh);
    hide AxialOf, UOf, VOf, Shape.Size, VoxelIndex;
    var i, j, k := AxialOf(c, sh), UOf(c, sh), VOf(c, sh);
    slot := if k > 0 then 4 else if j > 0 then 2 else 0;
    IndexSteps(i, j, k, sh);
    assert sh.n1 * sh.n2 > 0;
    if k > 0 {
      IndexNonneg(i, j, k - 1, sh);
    } else if j > 0 {
      IndexNonneg(i, j - 1, k, sh);
    } else {
      assert i > 0 by { FirstIsZero(sh); }
      IndexNonneg(i - 1, j, k, sh);
    }
  }

  lemma FirstIsZero(sh: Shape)
    ensures VoxelIndex(0, 0, 0, sh) == 0
  {
  }

  lemma {:induction false} ReachedFromFirst(dom: VoxelDomain, c: int)
    requires dom.Valid() && Full(dom) && IsCell(c, dom.shape)
    ensures Reachable(dom.occupancy, dom.shape, 0, c)
    decreases c
  {
    hide NeighborCell, Shape.Size;
    if c == 0 {
      ReachableSelf(dom.occupancy, dom.shape, 0);
    } else {
      var slot := StepBack(c, dom.shape);
      var d := NeighborCell(c, slot, dom.shape);
      NeighborOpposite(c, slot, dom.shape);
      ReachedFromFirst(dom, d);
      assert NeighborCell(d, Opposite(slot), dom.shape) == c;
      ReachableExtend(dom.occupancy, dom.shape, 0, d, c);
    }
  }

  /** A full grid is accepted; so the assumptions of the solver's theorems can be met at every size. */
  lemma FullGridAccepted(dom: VoxelDomain)
    requires dom.Valid() && Full(dom)
    ensures Accepts(dom) && Prism(dom)
    ensures forall source: real, reference: real :: CG.Spd(dom.SystemOf(source, reference, None))
  {
    hide CG.Spd, VoxelDomain.SystemOf;
    var sh := dom.shape;
    forall i, j, k | sh.Contains(i, j, k) ensures Filled(dom, i, j, k) {
      Decode(i, j, k, sh);
    }
    assert Filled(dom, 0, 0, 0) && Filled(dom, sh.n0 - 1, 0, 0);
    forall a, b | Occupied(dom.occupancy, a) && Occupied(dom.occupancy, b) ensures Reachable(dom.occupancy, sh, a, b) {
      ReachedFromFirst(dom, a);
      ReachedFromFirst(dom, b);
      ReachableThrough(dom.occupancy, sh, 0, a, b);
    }
    assert MeetsSlab(dom.occupancy, sh, 0) && MeetsSlab(dom.occupancy, sh, sh.n0 - 1);
    assert OneComponent(dom.occupancy, sh);
    forall source: real, reference: real ensures CG.Spd(dom.SystemOf(source, reference, None)) {
      AcceptedIsSpd(dom, source, reference, None);
    }
  }
}
