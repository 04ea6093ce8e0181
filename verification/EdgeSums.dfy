/** Double-counting over the neighbour links of an assembled system: symmetry of the matrix and its
    quadratic form. */
module EdgeSums {
  import opened RealSums
  import opened Vectors
  import opened LinearSystem
  import opened VoxelGrid

  type Pairing = (int, int) -> real

  function Swapped(f: Pairing): Pairing {
    (a, b) => f(b, a)
  }

  /** Every link is recorded at both of its ends, with the same weight. */
  ghost predicate Mutual(sys: FiniteVolumeSystem) {
    && sys.Shaped()
    && forall a, s :: 0 <= a < sys.Size() && 0 <= s < SLOTS && sys.Neighbor(a, s) >= 0 ==>
         && sys.Neighbor(sys.Neighbor(a, s), Opposite(s)) == a
         && sys.neighborWeights[s] == sys.neighborWeights[Opposite(s)]
  }

  function Link(sys: FiniteVolumeSystem, f: Pairing, a: int, s: int): real {
    if sys.Neighbor(a, s) >= 0 then Vectors.At(sys.neighborWeights, s) * f(a, sys.Neighbor(a, s)) else 0.0
  }

  function SlotSum(sys: FiniteVolumeSystem, f: Pairing, s: int): real {
    Sum(sys.Size(), a => Link(sys, f, a, s))
  }

  function CellSum(sys: FiniteVolumeSystem, f: Pairing, a: int): real {
    Sum(sys.Slots(), s => Link(sys, f, a, s))
  }

  /** The weighted sum of `f` over all links, each link met once from either end. */
  function EdgeSum(sys: FiniteVolumeSystem, f: Pairing): real {
    Sum(sys.Size(), a => CellSum(sys, f, a))
  }

  lemma BySlot(sys: FiniteVolumeSystem, f: Pairing)
    ensures EdgeSum(sys, f) == Sum(sys.Slots(), s => SlotSum(sys, f, s))
  {
    hide Link;
    var g := (a, s) => Link(sys, f, a, s);
    var rows, columns := a => CellSum(sys, f, a), s => SlotSum(sys, f, s);
    forall a | 0 <= a < sys.Size() ensures rows(a) == Sum(sys.Slots(), s => g(a, s)) {
      SumExt(sys.Slots(), s => Link(sys, f, a, s), s => g(a, s));
    }
    forall s | 0 <= s < sys.Slots() ensures columns(s) == Sum(sys.Size(), a => g(a, s)) {
      SumExt(sys.Size(), a => Link(sys, f, a, s), a => g(a, s));
    }
    SumRowsColumns(sys.Size(), sys.Slots(), g, rows, columns);
  }

  function Entry(sys: FiniteVolumeSystem, f: Pairing, s: int, a: int, b: int): real {
    if sys.Neighbor(a, s) == b then Link(sys, f, a, s) else 0.0
  }

  lemma EntryRow(sys: FiniteVolumeSystem, f: Pairing, s: int, a: nat)
    requires Mutual(sys) && a < sys.Size() && 0 <= s < SLOTS
    ensures Sum(sys.Size(), b => Entry(sys, f, s, a, b)) == Link(sys, f, a, s)
  {
    hide Link;
    var row := b => Entry(sys, f, s, a, b);
    if sys.Neighbor(a, s) >= 0 {
      SumDelta(sys.Size(), row, sys.Neighbor(a, s));
    } else {
      SumZero(sys.Size(), row);
      NoLink(sys, f, a, s);
    }
  }

  lemma NoLink(sys: FiniteVolumeSystem, f: Pairing, a: int, s: int)
    requires sys.Neighbor(a, s) < 0
    ensures Link(sys, f, a, s) == 0.0
  {
  }

  lemma SlotEntries(sys: FiniteVolumeSystem, f: Pairing, s: int)
    requires Mutual(sys) && 0 <= s < SLOTS
    ensures SlotSum(sys, f, s) == Sum(sys.Size(), a => Sum(sys.Size(), b => Entry(sys, f, s, a, b)))
  {
    hide Link, Entry, Mutual, FiniteVolumeSystem.Neighbor;
    var g, h := a => Link(sys, f, a, s), a => Sum(sys.Size(), b => Entry(sys, f, s, a, b));
    forall a | 0 <= a < sys.Size() ensures g(a) == h(a) {
      EntryRow(sys, f, s, a);
    }
    SumExt(sys.Size(), g, h);
  }

  lemma EntryTransposed(sys: FiniteVolumeSystem, f: Pairing, s: int, a: int, b: int)
    requires Mutual(sys) && 0 <= s < SLOTS && 0 <= a < sys.Size() && 0 <= b < sys.Size()
    ensures Entry(sys, f, s, a, b) == Entry(sys, Swapped(f), Opposite(s), b, a)
  {
  }

  /** The links of one slot, seen from their other ends, are the links of the opposite slot. */
  lemma SlotSwap(sys: FiniteVolumeSystem, f: Pairing, s: int)
    requires Mutual(sys) && 0 <= s < SLOTS
    ensures SlotSum(sys, f, s) == SlotSum(sys, Swapped(f), Opposite(s))
  {
    hide Entry, Link, Mutual, Swapped, FiniteVolumeSystem.Neighbor;
    var n, g, t := sys.Size(), Swapped(f), Opposite(s);
    SlotEntries(sys, f, s);
    SlotEntries(sys, g, t);
    var m := (a, b) => Entry(sys, f, s, a, b);
    var rows, columns := a => Sum(n, b => Entry(sys, f, s, a, b)), b => Sum(n, a => Entry(sys, g, t, b, a));
    forall a | 0 <= a < n ensures rows(a) == Sum(n, b => m(a, b)) {
      SumExt(n, b => Entry(sys, f, s, a, b), b => m(a, b));
    }
    forall b | 0 <= b < n ensures columns(b) == Sum(n, a => m(a, b)) {
      forall a | 0 <= a < n ensures Entry(sys, f, s, a, b) == Entry(sys, g, t, b, a) {
        EntryTransposed(sys, f, s, a, b);
      }
      SumExt(n, a => m(a, b), a => Entry(sys, g, t, b, a));
    }
    SumRowsColumns(n, n, m, rows, columns);
  }

  lemma SumOfSix(n: nat, f: int -> real)
    requires n == SLOTS
    ensures Sum(n, f) == f(0) + f(1) + f(2) + f(3) + f(4) + f(5)
  {
  }

  /** Reading every link from its other end leaves the sum unchanged. */
  lemma EdgeSwap(sys: FiniteVolumeSystem, f: Pairing)
    requires Mutual(sys)
    ensures EdgeSum(sys, f) == EdgeSum(sys, Swapped(f))
  {
    hide EdgeSum, SlotSum, Swapped;
    var g := Swapped(f);
    BySlot(sys, f);
    BySlot(sys, g);
    SumOfSix(sys.Slots(), s => SlotSum(sys, f, s));
    SumOfSix(sys.Slots(), s => SlotSum(sys, g, s));
    forall s | 0 <= s < SLOTS ensures SlotSum(sys, f, s) == SlotSum(sys, g, Opposite(s)) {
      SlotSwap(sys, f, s);
    }
    assert forall s :: 0 <= s < SLOTS ==> SlotSum(sys, f, s) == SlotSum(sys, g, Opposite(s));
  }

  lemma EdgeSumLinear(sys: FiniteVolumeSystem, f: Pairing, c: real, g: Pairing, h: Pairing)
    requires forall a, b :: h(a, b) == f(a, b) + c * g(a, b)
    ensures EdgeSum(sys, h) == EdgeSum(sys, f) + c * EdgeSum(sys, g)
  {
    hide Link;
    var n, m := sys.Size(), sys.Slots();
    forall a | 0 <= a < n
      ensures CellSum(sys, h, a) == CellSum(sys, f, a) + c * CellSum(sys, g, a)
    {
      forall s | 0 <= s < m
        ensures Link(sys, h, a, s) == Link(sys, f, a, s) + c * Link(sys, g, a, s)
      {
        LinkLinear(sys, f, c, g, h, a, s);
      }
      SumLinear(m, s => Link(sys, f, a, s), c, s => Link(sys, g, a, s), s => Link(sys, h, a, s));
    }
    SumLinear(n, a => CellSum(sys, f, a), c, a => CellSum(sys, g, a), a => CellSum(sys, h, a));
  }

  lemma LinkLinear(sys: FiniteVolumeSystem, f: Pairing, c: real, g: Pairing, h: Pairing, a: int, s: int)
    requires forall a, b :: h(a, b) == f(a, b) + c * g(a, b)
    ensures Link(sys, h, a, s) == Link(sys, f, a, s) + c * Link(sys, g, a, s)
  {
  }

  lemma EdgeSumSame(sys: FiniteVolumeSystem, f: Pairing, g: Pairing)
    requires forall a, b :: f(a, b) == g(a, b)
    ensures EdgeSum(sys, f) == EdgeSum(sys, g)
  {
    hide EdgeSum;
    EdgeSumLinear(sys, g, 0.0, g, f);
  }

  function Products(x: Vec, y: Vec): Pairing {
    (a, b) => Vectors.At(x, a) * Vectors.At(y, b)
  }

  function OwnSquares(x: Vec): Pairing {
    (a, b) => Vectors.At(x, a) * Vectors.At(x, a)
  }

  /** The squared potential difference across a link. */
  function SquaredDifferences(x: Vec): Pairing {
    (a, b) => (Vectors.At(x, a) - Vectors.At(x, b)) * (Vectors.At(x, a) - Vectors.At(x, b))
  }

  function Ones(): Pairing {
    (a, b) => 1.0
  }

  /** What the diagonal holds beyond the link weights: the half-cell terminal couplings. */
  function Excess(sys: FiniteVolumeSystem, a: int): real {
    Vectors.At(sys.diagonal, a) - CellSum(sys, Ones(), a)
  }

  function DiagonalProduct(sys: FiniteVolumeSystem, x: Vec, y: Vec, a: int): real {
    Vectors.At(sys.diagonal, a) * Vectors.At(x, a) * Vectors.At(y, a)
  }

  lemma RowProduct(sys: FiniteVolumeSystem, x: Vec, y: Vec, a: int)
    requires sys.Shaped() && |x| == |y| == sys.Size()
    ensures Vectors.At(x, a) * sys.OffDiagonal(y, a, sys.Slots()) == CellSum(sys, Products(x, y), a)
  {
    hide Link, Products, FiniteVolumeSystem.Coupling, Vectors.At;
    forall s | 0 <= s < sys.Slots()
      ensures Link(sys, Products(x, y), a, s) == Vectors.At(x, a) * sys.Coupling(y, a, s)
    {
      LinkProduct(sys, x, y, a, s);
    }
    SumScale(sys.Slots(), Vectors.At(x, a), s => sys.Coupling(y, a, s), s => Link(sys, Products(x, y), a, s));
  }

  lemma LinkProduct(sys: FiniteVolumeSystem, x: Vec, y: Vec, a: int, s: int)
    ensures Link(sys, Products(x, y), a, s) == Vectors.At(x, a) * sys.Coupling(y, a, s)
  {
    hide Vectors.At;
  }

  lemma DotApply(sys: FiniteVolumeSystem, x: Vec, y: Vec)
    requires sys.Shaped() && |x| == |y| == sys.Size()
    ensures Dot(x, sys.Apply(y)) == Sum(sys.Size(), a => DiagonalProduct(sys, x, y, a)) - EdgeSum(sys, Products(x, y))
  {
    hide CellSum, Products, FiniteVolumeSystem.OffDiagonal, Vectors.At;
    var n, z := sys.Size(), sys.Apply(y);
    var f, g, h := a => DiagonalProduct(sys, x, y, a), a => CellSum(sys, Products(x, y), a),
                   a => Vectors.At(x, a) * Vectors.At(z, a);
    forall a | 0 <= a < n ensures h(a) == f(a) + -1.0 * g(a) {
      RowProduct(sys, x, y, a);
      ApplyEntry(sys, y, a);
      RowExpanded(Vectors.At(sys.diagonal, a), Vectors.At(x, a), Vectors.At(y, a), sys.OffDiagonal(y, a, sys.Slots()));
    }
    SumLinear(n, f, -1.0, g, h);
  }

  lemma ApplyEntry(sys: FiniteVolumeSystem, y: Vec, a: nat)
    requires sys.Shaped() && |y| == sys.Size() && a < sys.Size()
    ensures Vectors.At(sys.Apply(y), a)
      == Vectors.At(sys.diagonal, a) * Vectors.At(y, a) - sys.OffDiagonal(y, a, sys.Slots())
  {
    hide FiniteVolumeSystem.OffDiagonal;
  }

  lemma RowExpanded(d: real, x: real, y: real, o: real)
    ensures x * (d * y - o) == d * x * y - x * o
  {
  }

  /** The assembled matrix is symmetric. */
  lemma Symmetric(sys: FiniteVolumeSystem)
    requires Mutual(sys)
    ensures sys.SelfAdjoint()
  {
    forall x: Vec, y: Vec | |x| == |y| == sys.Size()
      ensures Dot(x, sys.Apply(y)) == Dot(y, sys.Apply(x))
    {
      hide EdgeSum, Dot, FiniteVolumeSystem.Apply, Vectors.At, Mutual;
      DotApply(sys, x, y);
      DotApply(sys, y, x);
      SumExt(sys.Size(), a => DiagonalProduct(sys, x, y, a), a => DiagonalProduct(sys, y, x, a));
      EdgeSwap(sys, Products(x, y));
      EdgeSumSame(sys, Swapped(Products(x, y)), Products(y, x));
    }
  }
}
