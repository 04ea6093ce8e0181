/** The assembled sparse system and its matrix-vector product. */
module LinearSystem {
  import opened RealSums
  import opened Vectors

  const SLOTS: nat := 6

  // `neighbors[a][s]` is the active index of cell `a`'s neighbour in direction `s`, or -1.
  datatype FiniteVolumeSystem = FiniteVolumeSystem(
    activeCells: seq<int>,
    activeIndex: seq<int>,
    neighbors: seq<seq<int>>,
    neighborWeights: Vec,
    diagonal: Vec,
    rhs: Vec,
    initial: Vec
  ) {
    function Size(): nat { |diagonal| }

    // The number of slots, six in a shaped system, read off the weights.
    function Slots(): nat { |neighborWeights| }

    predicate Shaped() {
      && |activeCells| == |neighbors| == |rhs| == |initial| == Size()
      && |neighborWeights| == SLOTS
      && (forall a :: 0 <= a < Size() ==> |neighbors[a]| == SLOTS)
      && (forall a, s :: 0 <= a < Size() && 0 <= s < SLOTS ==> -1 <= neighbors[a][s] < Size())
      && AllPositive(diagonal)
    }

    function Neighbor(a: int, s: int): int {
      if Shaped() && 0 <= a < Size() && 0 <= s < SLOTS then neighbors[a][s] else -1
    }

    /** What slot `s` subtracts from row `a`. */
    function Coupling(x: Vec, a: int, s: int): real {
      if Neighbor(a, s) >= 0 then At(neighborWeights, s) * At(x, Neighbor(a, s)) else 0.0
    }

    function OffDiagonal(x: Vec, a: int, slots: nat): real {
      Sum(slots, s => Coupling(x, a, s))
    }

    function Row(x: Vec, a: int, slots: nat): real {
      At(diagonal, a) * At(x, a) - OffDiagonal(x, a, slots)
    }

    function Apply(x: Vec): (y: Vec)
      requires Shaped() && |x| == Size()
      ensures |y| == Size()
    {
      seq(Size(), a requires 0 <= a < Size() => Row(x, a, Slots()))
    }

    function Residual(x: Vec): (r: Vec)
      requires Shaped() && |x| == Size()
      ensures |r| == Size()
    {
      AddScaled(rhs, -1.0, Apply(x))
    }

    lemma CouplingLinear(x: Vec, c: real, y: Vec, a: int, s: int)
      requires |x| == |y|
      ensures Coupling(AddScaled(x, c, y), a, s) == Coupling(x, a, s) + c * Coupling(y, a, s)
    {
    }

    lemma OffDiagonalLinear(x: Vec, c: real, y: Vec, a: int, slots: nat)
      requires |x| == |y|
      ensures OffDiagonal(AddScaled(x, c, y), a, slots) == OffDiagonal(x, a, slots) + c * OffDiagonal(y, a, slots)
    {
      hide Coupling, AddScaled;
      var z := AddScaled(x, c, y);
      var f, g, h := s => Coupling(x, a, s), s => Coupling(y, a, s), s => Coupling(z, a, s);
      forall s | 0 <= s < slots
        ensures h(s) == f(s) + c * g(s)
      {
        CouplingLinear(x, c, y, a, s);
      }
      SumLinear(slots, f, c, g, h);
    }

    lemma RowLinear(x: Vec, c: real, y: Vec, a: int)
      requires |x| == |y|
      ensures Row(AddScaled(x, c, y), a, Slots()) == Row(x, a, Slots()) + c * Row(y, a, Slots())
    {
      hide At, OffDiagonal, AddScaled;
      OffDiagonalLinear(x, c, y, a, Slots());
      AddScaledEntry(x, c, y, a);
      CombinedProduct(At(diagonal, a), At(x, a), c, At(y, a));
      Distribute(c, At(diagonal, a) * At(y, a), OffDiagonal(y, a, Slots()));
    }

    static lemma Distribute(c: real, p: real, q: real)
      ensures c * (p - q) == c * p - c * q
    {
    }

    lemma ApplyLinear(x: Vec, c: real, y: Vec)
      requires Shaped() && |x| == |y| == Size()
      ensures Apply(AddScaled(x, c, y)) == AddScaled(Apply(x), c, Apply(y))
    {
      hide At, Row;
      forall a | 0 <= a < Size()
        ensures Apply(AddScaled(x, c, y))[a] == AddScaled(Apply(x), c, Apply(y))[a]
      {
        RowLinear(x, c, y, a);
      }
    }

    ghost predicate SelfAdjoint()
      requires Shaped()
    {
      forall x: Vec, y: Vec :: |x| == |y| == Size() ==> Dot(x, Apply(y)) == Dot(y, Apply(x))
    }

    ghost predicate PositiveDefinite()
      requires Shaped()
    {
      forall x: Vec :: |x| == Size() && !IsZero(x) ==> Dot(x, Apply(x)) > 0.0
    }

    lemma RowStep(x: Vec, a: int, slot: nat)
      ensures Row(x, a, slot + 1) == Row(x, a, slot) - Coupling(x, a, slot)
    {
    }

    /** The vectorised product, one neighbour slot after the other. */
    method ApplyMatrix(values: Vec) returns (result: Vec)
      requires Shaped() && |values| == Size()
      ensures result == Apply(values)
    {
      var out := new real[Size()](a requires 0 <= a < Size() => diagonal[a] * values[a]);
      for slot := 0 to Slots()
        invariant forall a :: 0 <= a < Size() ==> out[a] == Row(values, a, slot)
      {
        for a := 0 to Size()
          invariant forall b :: 0 <= b < a ==> out[b] == Row(values, b, slot + 1)
          invariant forall b :: a <= b < Size() ==> out[b] == Row(values, b, slot)
        {
          RowStep(values, a, slot);
          if neighbors[a][slot] >= 0 {
            out[a] := out[a] - neighborWeights[slot] * values[neighbors[a][slot]];
          }
          assert out[a] == Row(values, a, slot + 1);
        }
      }
      result := out[..];
    }
  }
}
