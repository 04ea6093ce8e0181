/** Quadratic form, positive definiteness, uniqueness and the maximum principle of a system whose
    links are mutual and whose every cell is joined to a terminal. */
module SystemTheory {
  import opened RealSums
  import opened Vectors
  import opened LinearSystem
  import opened VoxelGrid
  import opened EdgeSums

  function ExcessSquares(sys: FiniteVolumeSystem, x: Vec): real {
    Sum(sys.Size(), a => Excess(sys, a) * (Vectors.At(x, a) * Vectors.At(x, a)))
  }

  lemma OwnSquaresCell(sys: FiniteVolumeSystem, x: Vec, a: int)
    ensures CellSum(sys, OwnSquares(x), a) == Vectors.At(x, a) * Vectors.At(x, a) * CellSum(sys, Ones(), a)
  {
    hide Vectors.At, Link, OwnSquares, Ones;
    var q := Vectors.At(x, a) * Vectors.At(x, a);
    var f, h := s => Link(sys, Ones(), a, s), s => Link(sys, OwnSquares(x), a, s);
    forall s | 0 <= s < sys.Slots() ensures h(s) == q * f(s) {
      OwnSquaresLink(sys, x, a, s);
    }
    SumScale(sys.Slots(), q, f, h);
  }

  lemma OwnSquaresLink(sys: FiniteVolumeSystem, x: Vec, a: int, s: int)
    ensures Link(sys, OwnSquares(x), a, s) == Vectors.At(x, a) * Vectors.At(x, a) * Link(sys, Ones(), a, s)
  {
    hide Vectors.At;
  }

  lemma DiagonalSquares(sys: FiniteVolumeSystem, x: Vec)
    ensures Sum(sys.Size(), a => DiagonalProduct(sys, x, x, a)) == ExcessSquares(sys, x) + EdgeSum(sys, OwnSquares(x))
  {
    hide Vectors.At, CellSum, OwnSquares, Ones;
    var f, g, h := a => Excess(sys, a) * (Vectors.At(x, a) * Vectors.At(x, a)), a => CellSum(sys, OwnSquares(x), a),
                   a => DiagonalProduct(sys, x, x, a);
    forall a | 0 <= a < sys.Size() ensures h(a) == f(a) + 1.0 * g(a) {
      OwnSquaresCell(sys, x, a);
      ExcessSplit(Vectors.At(sys.diagonal, a), CellSum(sys, Ones(), a), Vectors.At(x, a));
    }
    SumLinear(sys.Size(), f, 1.0, g, h);
  }

  lemma ExcessSplit(d: real, c: real, x: real)
    ensures d * x * x == (d - c) * (x * x) + x * x * c
  {
  }

  lemma SquaredDifferencesSplit(sys: FiniteVolumeSystem, x: Vec)
    requires Mutual(sys)
    ensures EdgeSum(sys, SquaredDifferences(x))
      == 2.0 * EdgeSum(sys, OwnSquares(x)) - 2.0 * EdgeSum(sys, Products(x, x))
  {
    hide EdgeSum, Vectors.At, Mutual;
    var own, cross := OwnSquares(x), Products(x, x);
    var both: Pairing := (a, b) => own(a, b) + 1.0 * Swapped(own)(a, b);
    EdgeSumLinear(sys, own, 1.0, Swapped(own), both);
    EdgeSwap(sys, own);
    forall a: int, b: int ensures SquaredDifferences(x)(a, b) == both(a, b) + -2.0 * cross(a, b) {
      SquareOfDifference(Vectors.At(x, a), Vectors.At(x, b));
    }
    EdgeSumLinear(sys, both, -2.0, cross, SquaredDifferences(x));
  }

  lemma SquareOfDifference(p: real, q: real)
    ensures (p - q) * (p - q) == p * p + q * q - 2.0 * (p * q)
  {
  }

  /** Twice the quadratic form: weighted squared differences over all links, seen from both ends,
      plus twice the weighted squares of the terminal cells. */
  lemma QuadraticForm(sys: FiniteVolumeSystem, x: Vec)
    requires Mutual(sys) && |x| == sys.Size()
    ensures 2.0 * Dot(x, sys.Apply(x)) == EdgeSum(sys, SquaredDifferences(x)) + 2.0 * ExcessSquares(sys, x)
  {
    hide EdgeSum, Dot, FiniteVolumeSystem.Apply, ExcessSquares;
    DotApply(sys, x, x);
    DiagonalSquares(sys, x);
    SquaredDifferencesSplit(sys, x);
  }

  ghost predicate Conductive(sys: FiniteVolumeSystem) {
    && sys.Shaped()
    && Mutual(sys)
    && AllPositive(sys.neighborWeights)
    && forall a :: 0 <= a < sys.Size() ==> Excess(sys, a) >= 0.0
  }

  predicate Joined(sys: FiniteVolumeSystem, a: int, b: int) {
    exists s :: 0 <= s < SLOTS && sys.Neighbor(a, s) == b && b >= 0
  }

  /** A chain of linked cells that ends at a terminal. */
  ghost predicate LeadsToTerminal(sys: FiniteVolumeSystem, p: seq<int>) {
    && |p| > 0
    && (forall i :: 0 <= i < |p| ==> 0 <= p[i] < sys.Size())
    && (forall i :: 0 <= i < |p| - 1 ==> Joined(sys, p[i], p[i + 1]))
    && Excess(sys, p[|p| - 1]) > 0.0
  }

  ghost predicate GroundedCell(sys: FiniteVolumeSystem, a: int) {
    exists p :: LeadsToTerminal(sys, p) && p[0] == a
  }

  ghost predicate Grounded(sys: FiniteVolumeSystem) {
    forall a :: 0 <= a < sys.Size() ==> GroundedCell(sys, a)
  }

  // Non-negative pairings sum to something non-negative that bounds each link.
  lemma LinkBounded(sys: FiniteVolumeSystem, f: Pairing, a: int, s: int)
    requires sys.Shaped() && AllPositive(sys.neighborWeights)
    requires forall p, q :: f(p, q) >= 0.0
    requires 0 <= a < sys.Size() && 0 <= s < SLOTS
    ensures 0.0 <= Link(sys, f, a, s) <= EdgeSum(sys, f)
  {
    forall p, t | 0 <= p < sys.Size() && 0 <= t < SLOTS ensures Link(sys, f, p, t) >= 0.0 {
      LinkNonneg(sys, f, p, t);
    }
    hide Link;
    forall p | 0 <= p < sys.Size() ensures CellSum(sys, f, p) >= 0.0 {
      SumNonneg(sys.Slots(), t => Link(sys, f, p, t));
    }
    SumBoundsTerm(sys.Slots(), t => Link(sys, f, a, t), s);
    SumBoundsTerm(sys.Size(), p => CellSum(sys, f, p), a);
  }

  lemma LinkNonneg(sys: FiniteVolumeSystem, f: Pairing, a: int, s: int)
    requires sys.Shaped() && AllPositive(sys.neighborWeights) && 0 <= s < SLOTS
    requires forall p, q :: f(p, q) >= 0.0
    ensures Link(sys, f, a, s) >= 0.0
  {
  }

  lemma EdgeSumNonneg(sys: FiniteVolumeSystem, f: Pairing)
    requires sys.Shaped() && AllPositive(sys.neighborWeights)
    requires forall p, q :: f(p, q) >= 0.0
    ensures EdgeSum(sys, f) >= 0.0
  {
    hide Link;
    forall p | 0 <= p < sys.Size() ensures CellSum(sys, f, p) >= 0.0 {
      forall t | 0 <= t < SLOTS ensures Link(sys, f, p, t) >= 0.0 {
        LinkNonneg(sys, f, p, t);
      }
      SumNonneg(sys.Slots(), t => Link(sys, f, p, t));
    }
    SumNonneg(sys.Size(), p => CellSum(sys, f, p));
  }

  lemma SquaresNonneg(x: Vec)
    ensures forall p, q :: SquaredDifferences(x)(p, q) >= 0.0
  {
  }

  lemma ExcessSquareBounded(sys: FiniteVolumeSystem, x: Vec, a: nat)
    requires Conductive(sys) && a < sys.Size()
    ensures 0.0 <= Excess(sys, a) * (Vectors.At(x, a) * Vectors.At(x, a)) <= ExcessSquares(sys, x)
  {
    hide Vectors.At, Excess;
    var f := a => Excess(sys, a) * (Vectors.At(x, a) * Vectors.At(x, a));
    forall i | 0 <= i < sys.Size() ensures f(i) >= 0.0 {
      var q := Vectors.At(x, i) * Vectors.At(x, i);
      SquarePositive(Vectors.At(x, i), q);
    }
    SumBoundsTerm(sys.Size(), f, a);
  }

  lemma ExcessSquaresNonneg(sys: FiniteVolumeSystem, x: Vec)
    requires Conductive(sys)
    ensures ExcessSquares(sys, x) >= 0.0
  {
    if sys.Size() > 0 {
      ExcessSquareBounded(sys, x, 0);
    }
  }

  // Potentials that dissipate nothing agree across every link and vanish at the terminals.
  lemma NothingDissipated(sys: FiniteVolumeSystem, x: Vec)
    requires Conductive(sys) && |x| == sys.Size() && Dot(x, sys.Apply(x)) <= 0.0
    ensures forall a, b :: 0 <= a < sys.Size() && Joined(sys, a, b) ==> Vectors.At(x, a) == Vectors.At(x, b)
    ensures forall a :: 0 <= a < sys.Size() && Excess(sys, a) > 0.0 ==> Vectors.At(x, a) == 0.0
  {
    hide EdgeSum, ExcessSquares, Vectors.At, Dot, FiniteVolumeSystem.Apply, Excess, Mutual;
    var d := SquaredDifferences(x);
    QuadraticForm(sys, x);
    SquaresNonneg(x);
    EdgeSumNonneg(sys, d);
    ExcessSquaresNonneg(sys, x);
    forall a, b | 0 <= a < sys.Size() && Joined(sys, a, b)
      ensures Vectors.At(x, a) == Vectors.At(x, b)
    {
      var s :| 0 <= s < SLOTS && sys.Neighbor(a, s) == b && b >= 0;
      LinkBounded(sys, d, a, s);
      VanishingLink(sys, x, a, s);
    }
    forall a | 0 <= a < sys.Size() && Excess(sys, a) > 0.0
      ensures Vectors.At(x, a) == 0.0
    {
      ExcessSquareBounded(sys, x, a);
      VanishingProduct(Excess(sys, a), Vectors.At(x, a));
    }
  }

  lemma VanishingProduct(w: real, d: real)
    requires w > 0.0 && w * (d * d) <= 0.0
    ensures d == 0.0
  {
    var q := d * d;
    SquarePositive(d, q);
    if q > 0.0 {
      ProductPositive(w, q, w * q);
    }
  }

  lemma VanishingLink(sys: FiniteVolumeSystem, x: Vec, a: int, s: int)
    requires sys.Shaped() && AllPositive(sys.neighborWeights) && 0 <= s < SLOTS
    requires sys.Neighbor(a, s) >= 0 && Link(sys, SquaredDifferences(x), a, s) <= 0.0
    ensures Vectors.At(x, a) == Vectors.At(x, sys.Neighbor(a, s))
  {
    VanishingProduct(sys.neighborWeights[s], Vectors.At(x, a) - Vectors.At(x, sys.Neighbor(a, s)));
  }

  lemma {:induction false} ZeroAlongChain(sys: FiniteVolumeSystem, x: Vec, p: seq<int>)
    requires LeadsToTerminal(sys, p)
    requires forall a, b :: 0 <= a < sys.Size() && Joined(sys, a, b) ==> Vectors.At(x, a) == Vectors.At(x, b)
    requires forall a :: 0 <= a < sys.Size() && Excess(sys, a) > 0.0 ==> Vectors.At(x, a) == 0.0
    ensures Vectors.At(x, p[0]) == 0.0
  {
    hide Vectors.At, Excess, Joined;
    if |p| > 1 {
      assert LeadsToTerminal(sys, p[1..]);
      ZeroAlongChain(sys, x, p[1..]);
    }
  }

  /** The matrix of a grounded system is positive definite. */
  lemma PositiveDefinite(sys: FiniteVolumeSystem)
    requires Conductive(sys) && Grounded(sys)
    ensures sys.PositiveDefinite()
  {
    forall x: Vec | |x| == sys.Size() && !IsZero(x) ensures Dot(x, sys.Apply(x)) > 0.0 {
      hide Dot, FiniteVolumeSystem.Apply, Joined, Excess, Mutual;
      if Dot(x, sys.Apply(x)) <= 0.0 {
        NothingDissipated(sys, x);
        var a :| 0 <= a < |x| && x[a] != 0.0;
        assert GroundedCell(sys, a);
        var p :| LeadsToTerminal(sys, p) && p[0] == a;
        ZeroAlongChain(sys, x, p);
      }
    }
  }

  // The cells that no chain of links joins to a terminal.
  function Indicator(sys: FiniteVolumeSystem, cells: set<int>): (x: Vec)
    ensures |x| == sys.Size()
  {
    seq(sys.Size(), a => if a in cells then 1.0 else 0.0)
  }

  lemma UngroundedSpreads(sys: FiniteVolumeSystem, a: int, b: int)
    requires 0 <= a < sys.Size() && Joined(sys, a, b) && GroundedCell(sys, b)
    ensures GroundedCell(sys, a)
  {
    hide Excess, Joined;
    var p :| LeadsToTerminal(sys, p) && p[0] == b;
    assert LeadsToTerminal(sys, [a] + p);
  }

  lemma FloatingIndicator(sys: FiniteVolumeSystem, x: Vec)
    requires Conductive(sys) && |x| == sys.Size()
    requires forall a, b :: 0 <= a < sys.Size() && Joined(sys, a, b) ==> Vectors.At(x, a) == Vectors.At(x, b)
    requires forall a :: 0 <= a < sys.Size() && Excess(sys, a) != 0.0 ==> Vectors.At(x, a) == 0.0
    ensures Dot(x, sys.Apply(x)) == 0.0
  {
    hide Excess, Vectors.At, Dot, FiniteVolumeSystem.Apply, Mutual, SquaredDifferences;
    var d := SquaredDifferences(x);
    QuadraticForm(sys, x);
    forall a | 0 <= a < sys.Size() ensures CellSum(sys, d, a) == 0.0 {
      forall s | 0 <= s < SLOTS ensures Link(sys, d, a, s) == 0.0 {
        FlatLink(sys, x, a, s);
      }
      SumZero(sys.Slots(), s => Link(sys, d, a, s));
    }
    SumZero(sys.Size(), a => CellSum(sys, d, a));
    SumZero(sys.Size(), a => Excess(sys, a) * (Vectors.At(x, a) * Vectors.At(x, a)));
  }

  lemma FlatLink(sys: FiniteVolumeSystem, x: Vec, a: int, s: int)
    requires 0 <= s < SLOTS
    requires sys.Neighbor(a, s) >= 0 ==> Vectors.At(x, a) == Vectors.At(x, sys.Neighbor(a, s))
    ensures Link(sys, SquaredDifferences(x), a, s) == 0.0
  {
    var b := sys.Neighbor(a, s);
    if b >= 0 {
      var d := Vectors.At(x, a) - Vectors.At(x, b);
      assert d == 0.0 && SquaredDifferences(x)(a, b) == d * d == 0.0;
    }
  }

  /** Conversely, a cell that no chain joins to a terminal leaves the matrix singular: being
      grounded is exactly the condition for positive definiteness. */
  lemma DefiniteExactlyWhenGrounded(sys: FiniteVolumeSystem)
    requires Conductive(sys)
    ensures sys.PositiveDefinite() <==> Grounded(sys)
  {
    hide Excess, Dot, FiniteVolumeSystem.Apply, Mutual, GroundedCell;
    if Grounded(sys) {
      PositiveDefinite(sys);
    } else {
      var loose := set a | 0 <= a < sys.Size() && !GroundedCell(sys, a);
      var x := Indicator(sys, loose);
      var c :| 0 <= c < sys.Size() && !GroundedCell(sys, c);
      assert x[c] == 1.0;
      forall a, b | 0 <= a < sys.Size() && Joined(sys, a, b)
        ensures Vectors.At(x, a) == Vectors.At(x, b)
      {
        JoinedBack(sys, a, b);
        if GroundedCell(sys, a) {
          UngroundedSpreads(sys, b, a);
        } else if GroundedCell(sys, b) {
          UngroundedSpreads(sys, a, b);
        }
      }
      forall a | 0 <= a < sys.Size() && Excess(sys, a) != 0.0 ensures Vectors.At(x, a) == 0.0 {
        TerminalGrounded(sys, a);
      }
      FloatingIndicator(sys, x);
    }
  }

  lemma JoinedBack(sys: FiniteVolumeSystem, a: int, b: int)
    requires Mutual(sys) && 0 <= a < sys.Size() && Joined(sys, a, b)
    ensures 0 <= b < sys.Size() && Joined(sys, b, a)
  {
    var s :| 0 <= s < SLOTS && sys.Neighbor(a, s) == b && b >= 0;
    assert sys.Neighbor(b, Opposite(s)) == a;
  }

  lemma TerminalGrounded(sys: FiniteVolumeSystem, a: int)
    requires 0 <= a < sys.Size() && Excess(sys, a) > 0.0
    ensures GroundedCell(sys, a)
  {
    hide Excess;
    assert LeadsToTerminal(sys, [a]);
  }

  lemma UniqueSolution(sys: FiniteVolumeSystem, x: Vec, y: Vec)
    requires Conductive(sys) && Grounded(sys) && |x| == |y| == sys.Size()
    requires sys.Apply(x) == sys.Apply(y)
    ensures x == y
  {
    hide Dot, FiniteVolumeSystem.Apply, Mutual, Excess, Grounded;
    var z := AddScaled(x, -1.0, y);
    PositiveDefinite(sys);
    sys.ApplyLinear(x, -1.0, y);
    assert IsZero(sys.Apply(z));
    DotZero(z, sys.Apply(z));
    assert IsZero(z);
    assert forall i :: 0 <= i < |x| ==> z[i] == x[i] - y[i];
  }

  // The two parts of a vector.
  function Positive(z: Vec): (y: Vec)
    ensures |y| == |z|
  {
    seq(|z|, i requires 0 <= i < |z| => if z[i] > 0.0 then z[i] else 0.0)
  }

  function Negative(z: Vec): (y: Vec)
    ensures |y| == |z|
  {
    seq(|z|, i requires 0 <= i < |z| => if z[i] < 0.0 then -z[i] else 0.0)
  }

  lemma CrossPart(sys: FiniteVolumeSystem, z: Vec)
    requires Conductive(sys) && |z| == sys.Size()
    ensures Dot(Positive(z), sys.Apply(Negative(z))) <= 0.0
  {
    hide Link, Products, Positive, Negative, Dot, FiniteVolumeSystem.Apply, DiagonalProduct, Mutual, Excess;
    var y, m := Positive(z), Negative(z);
    DotApply(sys, y, m);
    forall a | 0 <= a < sys.Size() ensures DiagonalProduct(sys, y, m, a) == 0.0 {
      PartsDisjoint(sys, z, a);
    }
    SumZero(sys.Size(), a => DiagonalProduct(sys, y, m, a));
    PartsNonneg(z);
    EdgeSumNonneg(sys, Products(y, m));
  }

  lemma PartsDisjoint(sys: FiniteVolumeSystem, z: Vec, a: int)
    requires |z| == sys.Size() && 0 <= a < |z|
    ensures DiagonalProduct(sys, Positive(z), Negative(z), a) == 0.0
  {
  }

  lemma PartsNonneg(z: Vec)
    ensures forall a, b :: Products(Positive(z), Negative(z))(a, b) >= 0.0
  {
  }

  lemma NonnegProduct(p: real, q: real)
    requires p >= 0.0 && q >= 0.0
    ensures p * q >= 0.0
  {
  }

  lemma NonpositiveProduct(y: Vec, v: Vec)
    requires |y| == |v|
    requires forall i :: 0 <= i < |y| ==> y[i] >= 0.0 && v[i] <= 0.0
    ensures Dot(y, v) <= 0.0
  {
    var f := i => Vectors.At(y, i) * -Vectors.At(v, i);
    forall i | 0 <= i < |y| ensures f(i) >= 0.0 {
      NonnegProduct(y[i], -v[i]);
    }
    SumNonneg(|y|, f);
    SumScale(|y|, -1.0, i => Vectors.At(y, i) * Vectors.At(v, i), f);
  }

  /** Monotonicity: a vector that the matrix makes non-positive is itself non-positive. */
  lemma InverseNonneg(sys: FiniteVolumeSystem, z: Vec)
    requires Conductive(sys) && Grounded(sys) && |z| == sys.Size()
    requires forall a :: 0 <= a < sys.Size() ==> sys.Apply(z)[a] <= 0.0
    ensures forall a :: 0 <= a < sys.Size() ==> z[a] <= 0.0
  {
    hide Dot, FiniteVolumeSystem.Apply, Mutual, Excess, Grounded;
    var y, m := Positive(z), Negative(z);
    assert AddScaled(y, -1.0, m) == z;
    sys.ApplyLinear(y, -1.0, m);
    DotAddScaledRight(sys.Apply(y), -1.0, sys.Apply(m), y);
    CrossPart(sys, z);
    NonpositiveProduct(y, sys.Apply(z));
    PositiveDefinite(sys);
    assert IsZero(y);
    assert forall a :: 0 <= a < |z| ==> y[a] == 0.0;
  }
}
