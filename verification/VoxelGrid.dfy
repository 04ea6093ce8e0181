/** The flattened voxel grid: cell numbering and the six neighbour directions. */
module VoxelGrid {

  datatype Shape = Shape(n0: nat, n1: nat, n2: nat) {
    function Size(): nat { n0 * n1 * n2 }

    predicate Contains(i: int, j: int, k: int) {
      0 <= i < n0 && 0 <= j < n1 && 0 <= k < n2
    }
  }

  function VoxelIndex(i: int, j: int, k: int, sh: Shape): int {
    (i * sh.n1 + j) * sh.n2 + k
  }

  // The coordinates of a cell, decoded as the solver decodes them.
  function AxialOf(index: int, sh: Shape): int
    requires sh.n1 > 0 && sh.n2 > 0
  {
    index / (sh.n1 * sh.n2)
  }

  function UOf(index: int, sh: Shape): int
    requires sh.n1 > 0 && sh.n2 > 0
  {
    (index / sh.n2) % sh.n1
  }

  function VOf(index: int, sh: Shape): int
    requires sh.n1 > 0 && sh.n2 > 0
  {
    index % sh.n2
  }

  predicate IsCell(index: int, sh: Shape) {
    0 <= index < sh.Size()
  }

  lemma DivModUnique(q: int, r: int, n: int)
    requires 0 <= r < n
    ensures (q * n + r) / n == q && (q * n + r) % n == r
  {
    var x := q * n + r;
    var d := x / n - q;
    assert d * n == r - x % n;
    assert d >= 1 ==> d * n >= n;
    assert d <= -1 ==> d * n <= -n;
  }

  lemma ScaledBound(q: int, r: int, m: int, n: int)
    requires 0 <= q < m && 0 <= r < n
    ensures 0 <= q * n + r < m * n
  {
    assert (q + 1) * n <= m * n;
    assert (q + 1) * n == q * n + n;
    assert 0 <= q * n;
  }

  /** Encoding then decoding a coordinate triple of the grid gives the triple back. */
  lemma Decode(i: int, j: int, k: int, sh: Shape)
    requires sh.Contains(i, j, k)
    ensures var c := VoxelIndex(i, j, k, sh);
      IsCell(c, sh) && AxialOf(c, sh) == i && UOf(c, sh) == j && VOf(c, sh) == k
  {
    var m := sh.n1 * sh.n2;
    DivModUnique(i * sh.n1 + j, k, sh.n2);
    DivModUnique(i, j, sh.n1);
    ScaledBound(j, k, sh.n1, sh.n2);
    ScaledBound(i, j * sh.n2 + k, sh.n0, m);
    DivModUnique(i, j * sh.n2 + k, m);
    assert VoxelIndex(i, j, k, sh) == i * m + (j * sh.n2 + k);
    assert sh.n0 * m == sh.Size();
  }

  /** Cells are numbered in the order of their coordinates, the axial one first. */
  lemma NumberedInOrder(a: (int, int, int), b: (int, int, int), sh: Shape)
    requires sh.Contains(a.0, a.1, a.2) && sh.Contains(b.0, b.1, b.2)
    ensures VoxelIndex(a.0, a.1, a.2, sh) < VoxelIndex(b.0, b.1, b.2, sh) <==>
      a.0 < b.0 || (a.0 == b.0 && (a.1 < b.1 || (a.1 == b.1 && a.2 < b.2)))
  {
    DigitsInOrder(a.0, a.1, b.0, b.1, sh.n1);
    DigitsInOrder(a.0 * sh.n1 + a.1, a.2, b.0 * sh.n1 + b.1, b.2, sh.n2);
  }

  lemma DigitsInOrder(p: int, q: int, r: int, s: int, n: int)
    requires 0 <= q < n && 0 <= s < n
    ensures p * n + q < r * n + s <==> p < r || (p == r && q < s)
    ensures p * n + q == r * n + s <==> p == r && q == s
  {
    if p < r {
      assert (p + 1) * n <= r * n;
    } else if p > r {
      assert (r + 1) * n <= p * n;
    }
  }

  lemma QuotientBound(x: int, m: int, n: int)
    requires n > 0 && 0 <= x < m * n
    ensures 0 <= x / n < m
  {
  }

  lemma NestedDivision(c: int, n1: int, n2: int)
    requires n1 > 0 && n2 > 0
    ensures n1 * n2 > 0 && c / (n1 * n2) == (c / n2) / n1
  {
    var q := c / n2;
    var i, j, k := q / n1, q % n1, c % n2;
    ScaledBound(j, k, n1, n2);
    assert c == q * n2 + k && q == i * n1 + j;
    assert c == i * (n1 * n2) + (j * n2 + k);
    DivModUnique(i, j * n2 + k, n1 * n2);
  }

  /** Decoding then encoding a cell number gives the number back. */
  lemma Encode(c: int, sh: Shape)
    requires IsCell(c, sh)
    ensures sh.n1 > 0 && sh.n2 > 0
    ensures sh.Contains(AxialOf(c, sh), UOf(c, sh), VOf(c, sh))
    ensures VoxelIndex(AxialOf(c, sh), UOf(c, sh), VOf(c, sh), sh) == c
  {
    PositiveFactors(sh);
    NestedDivision(c, sh.n1, sh.n2);
    var q := c / sh.n2;
    QuotientBound(c, sh.n0 * sh.n1, sh.n2);
    QuotientBound(q, sh.n0, sh.n1);
    assert q == (q / sh.n1) * sh.n1 + q % sh.n1;
  }

  lemma PositiveFactors(sh: Shape)
    requires sh.Size() > 0
    ensures sh.n0 > 0 && sh.n1 > 0 && sh.n2 > 0
  {
    assert sh.n1 == 0 || sh.n0 == 0 ==> sh.n0 * sh.n1 == 0;
  }

  // The neighbour offset of each slot: one pair of opposite slots per axis.
  function Offset(slot: int): (int, int, int) {
    if slot == 0 then (-1, 0, 0)
    else if slot == 1 then (1, 0, 0)
    else if slot == 2 then (0, -1, 0)
    else if slot == 3 then (0, 1, 0)
    else if slot == 4 then (0, 0, -1)
    else (0, 0, 1)
  }

  function Opposite(slot: int): int {
    if slot % 2 == 0 then slot + 1 else slot - 1
  }

  /** The cell next to `c` in direction `slot`, or -1 outside the grid. */
  function NeighborCell(c: int, slot: int, sh: Shape): int
    requires sh.n1 > 0 && sh.n2 > 0
  {
    var d := Offset(slot);
    var ni, nj, nk := AxialOf(c, sh) + d.0, UOf(c, sh) + d.1, VOf(c, sh) + d.2;
    if sh.Contains(ni, nj, nk) then VoxelIndex(ni, nj, nk, sh) else -1
  }

  lemma NeighborOpposite(c: int, slot: int, sh: Shape)
    requires IsCell(c, sh) && 0 <= slot < 6 && sh.n1 > 0 && sh.n2 > 0
    ensures -1 <= NeighborCell(c, slot, sh) < sh.Size()
    ensures var d := NeighborCell(c, slot, sh);
      d >= 0 ==> IsCell(d, sh) && d != c && NeighborCell(d, Opposite(slot), sh) == c
  {
    hide VoxelIndex, AxialOf, UOf, VOf, IsCell, Shape.Size;
    Encode(c, sh);
    var o := Offset(slot);
    var i, j, k := AxialOf(c, sh), UOf(c, sh), VOf(c, sh);
    if sh.Contains(i + o.0, j + o.1, k + o.2) {
      Decode(i + o.0, j + o.1, k + o.2, sh);
    }
  }
}
