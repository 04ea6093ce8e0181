/** How far the current may still depend on the position of the cross-section when the solver stops at
    its tolerance. */
module CurrentAccuracy {
  import opened RealSums
  import opened Vectors
  import opened VoxelGrid
  import opened Connectivity
  import opened FiniteVolume
  import opened Options
  import opened DomainTheory
  import opened DcCurrent
  import opened PcgSolver

  lemma {:induction false} SumAppend(a: nat, b: nat, f: int -> real)
    ensures Sum(a + b, f) == Sum(a, f) + Sum(b, i => f(a + i))
    decreases b
  {
    if b > 0 {
      SumAppend(a, b - 1, f);
    }
  }

  // A sum over a rectangle of consecutive numbers, row by row.
  lemma {:induction false} SumRows(n: nat, m: nat, base: int, f: int -> real)
    ensures Sum(n * m, d => f(base + d)) == Sum(n, j => Sum(m, k => f(base + (j * m + k))))
    decreases n
  {
    if n > 0 {
      SumRows(n - 1, m, base, f);
      var done := (n - 1) * m;
      assert n * m == done + m && done >= 0;
      LastRow(m, base, f, done);
    }
  }

  lemma LastRow(m: nat, base: int, f: int -> real, done: nat)
    ensures Sum(done + m, d => f(base + d)) == Sum(done, d => f(base + d)) + Sum(m, k => f(base + (done + k)))
  {
    hide Sum;
    var g := d => f(base + d);
    SumAppend(done, m, g);
    SumExt(done, g, d => f(base + d));
    SumExt(done + m, g, d => f(base + d));
    SumExt(m, i => g(done + i), k => f(base + (done + k)));
  }

  lemma CauchyAlgebra(n: real, s: real, q: real, f: real)
    requires n >= 0.0 && s * s <= n * q && q >= 0.0 && (n == 0.0 ==> s == 0.0)
    ensures (s + f) * (s + f) <= (n + 1.0) * (q + f * f)
  {
    if n > 0.0 {
      var d := s - n * f;
      assert d * d == s * s - 2.0 * n * (s * f) + n * n * (f * f);
      SquarePositive(d, d * d);
      assert n * (q + n * (f * f) - 2.0 * (s * f)) >= 0.0;
      QuotientNonneg(n, q + n * (f * f) - 2.0 * (s * f));
    }
    SquarePositive(f, f * f);
    assert (s + f) * (s + f) == s * s + 2.0 * (s * f) + f * f;
    assert (n + 1.0) * (q + f * f) == n * q + q + n * (f * f) + f * f;
  }

  lemma QuotientNonneg(n: real, x: real)
    requires n > 0.0 && n * x >= 0.0
    ensures x >= 0.0
  {
  }

  /** The square of a sum against the sum of the squares. */
  lemma {:induction false} CauchySchwarz(n: nat, f: int -> real)
    ensures Sum(n, i => f(i) * f(i)) >= 0.0
    ensures Sum(n, f) * Sum(n, f) <= n as real * Sum(n, i => f(i) * f(i))
    decreases n
  {
    if n > 0 {
      CauchySchwarz(n - 1, f);
      SquarePositive(f(n - 1), f(n - 1) * f(n - 1));
      CauchyAlgebra((n - 1) as real, Sum(n - 1, f), Sum(n - 1, i => f(i) * f(i)), f(n - 1));
    }
  }

  /** A vector's value for a cell by number, zero outside the domain. */
  function CellValues(dom: VoxelDomain, r: Vec): int -> real {
    c => if Occupied(dom.occupancy, c) then At(r, Rank(dom.occupancy, c)) else 0.0
  }

  function Entries(r: Vec): int -> real {
    a => At(r, a)
  }

  function SlabSize(dom: VoxelDomain): int {
    dom.shape.n1 * dom.shape.n2
  }

  /** How many active cells lie below slab `i`. */
  function ActiveBelowSlab(dom: VoxelDomain, i: nat): nat
    requires dom.Valid() && 0 <= i * SlabSize(dom) <= |dom.occupancy|
  {
    |ActiveBelow(dom.occupancy, i * SlabSize(dom))|
  }

  lemma SlabRange(dom: VoxelDomain, i: nat)
    requires dom.Valid() && i <= dom.shape.n0
    ensures 0 <= i * SlabSize(dom) <= |dom.occupancy|
  {
  }

  lemma CellInSlab(dom: VoxelDomain, i: nat, j: int, k: int)
    requires dom.Valid() && dom.shape.Contains(i, j, k)
    ensures VoxelIndex(i, j, k, dom.shape) == i * SlabSize(dom) + (j * dom.shape.n2 + k)
  {
  }

  lemma PrefixOf(dom: VoxelDomain, r: Vec, n: nat)
    requires n <= |dom.occupancy|
    ensures Sum(n, CellValues(dom, r)) == Sum(|ActiveBelow(dom.occupancy, n)|, Entries(r))
  {
  }

  /** A grid function that holds a vector's values sums, over a slab, to the entries of a run of consecutive
      active cells. */
  lemma GridIsRun(dom: VoxelDomain, r: Vec, grid: (int, int) -> real, i: nat)
    requires dom.Valid() && i < dom.shape.n0
    requires forall j, k | 0 <= j < dom.shape.n1 && 0 <= k < dom.shape.n2 ::
      grid(j, k) == CellValues(dom, r)(VoxelIndex(i, j, k, dom.shape))
    ensures 0 <= i * SlabSize(dom) <= (i + 1) * SlabSize(dom) <= |dom.occupancy|
    ensures SlabSum(dom, grid)
      == Sum(ActiveBelowSlab(dom, i + 1), Entries(r)) - Sum(ActiveBelowSlab(dom, i), Entries(r))
  {
    hide VoxelDomain.Valid, ActiveBelow, Rank, VoxelIndex, At, CellValues, Entries;
    SlabRange(dom, i);
    SlabRange(dom, i + 1);
    var base, size := i * SlabSize(dom), SlabSize(dom);
    assert (i + 1) * size == base + size;
    var f := CellValues(dom, r);
    SumAppend(base, size, f);
    PrefixOf(dom, r, base);
    PrefixOf(dom, r, base + size);
    SlabByRows(dom, r, grid, i);
    SumExt(size, d => f(base + d), d => CellValues(dom, r)(base + d));
  }

  lemma SlabByRows(dom: VoxelDomain, r: Vec, grid: (int, int) -> real, i: nat)
    requires dom.Valid() && i < dom.shape.n0
    requires forall j, k | 0 <= j < dom.shape.n1 && 0 <= k < dom.shape.n2 ::
      grid(j, k) == CellValues(dom, r)(VoxelIndex(i, j, k, dom.shape))
    ensures SlabSize(dom) >= 0
    ensures SlabSum(dom, grid) == Sum(SlabSize(dom), d => CellValues(dom, r)(i * SlabSize(dom) + d))
  {
    hide ActiveBelow, Rank, VoxelIndex, At, CellValues;
    var base, n, m := i * SlabSize(dom), dom.shape.n1, dom.shape.n2;
    var f := CellValues(dom, r);
    SumRows(n, m, base, f);
    var cell: (int, int) -> real := (j, k) => f(base + (j * m + k));
    SumSwap(n, m, cell);
    forall j | 0 <= j < n ensures Sum(m, k => f(base + (j * m + k))) == Sum(m, k => cell(j, k)) {
      SumExt(m, k => f(base + (j * m + k)), k => cell(j, k));
    }
    SumExt(n, j => Sum(m, k => f(base + (j * m + k))), j => Sum(m, k => cell(j, k)));
    SumExt(SlabSize(dom), d => CellValues(dom, r)(base + d), d => f(base + d));
    forall k | 0 <= k < m ensures RowSum(dom, grid, k) == Sum(n, j => cell(j, k)) {
      forall j | 0 <= j < n ensures grid(j, k) == cell(j, k) {
        CellInSlab(dom, i, j, k);
      }
      SumExt(n, j => grid(j, k), j => cell(j, k));
    }
    SumExt(m, k => RowSum(dom, grid, k), k => Sum(n, j => cell(j, k)));
  }

  /** The residuals of a slab are those of a run of consecutive active cells. */
  lemma SlabIsRun(dom: VoxelDomain, x: Vec, source: real, reference: real, i: nat)
    requires dom.Valid() && dom.NoIsolatedCell() && |x| == |dom.Cells()| && i < dom.shape.n0
    ensures dom.SystemOf(source, reference, None).Shaped() && dom.SystemOf(source, reference, None).Size() == |x|
    ensures 0 <= i * SlabSize(dom) <= (i + 1) * SlabSize(dom) <= |dom.occupancy|
    ensures var r := dom.SystemOf(source, reference, None).Residual(x);
      SlabResidual(dom, x, source, reference, i)
        == Sum(ActiveBelowSlab(dom, i + 1), Entries(r)) - Sum(ActiveBelowSlab(dom, i), Entries(r))
  {
    hide VoxelDomain.SystemOf, ActiveBelow, Rank, VoxelIndex, At, VoxelDomain.NoIsolatedCell, Entries;
    Shaped(dom, source, reference, None);
    GridIsRun(dom, dom.SystemOf(source, reference, None).Residual(x), ResidualGrid(dom, x, source, reference, i), i);
  }

  /** The residuals between two faces are those of one run of active cells. */
  lemma {:induction false} BetweenIsRun(dom: VoxelDomain, x: Vec, source: real, reference: real, p: nat, q: nat)
    requires dom.Valid() && dom.NoIsolatedCell() && |x| == |dom.Cells()| && p <= q <= dom.shape.n0
    ensures dom.SystemOf(source, reference, None).Shaped() && dom.SystemOf(source, reference, None).Size() == |x|
    ensures 0 <= p * SlabSize(dom) && q * SlabSize(dom) <= |dom.occupancy| && p * SlabSize(dom) <= q * SlabSize(dom)
    ensures var r := dom.SystemOf(source, reference, None).Residual(x);
      ResidualBetween(dom, x, source, reference, p, q)
        == Sum(ActiveBelowSlab(dom, q), Entries(r)) - Sum(ActiveBelowSlab(dom, p), Entries(r))
    decreases q
  {
    hide VoxelDomain.SystemOf, VoxelDomain.Valid, ActiveBelowSlab, SlabResidual, Entries, VoxelDomain.NoIsolatedCell,
      SlabSize;
    Shaped(dom, source, reference, None);
    SlabRange(dom, p);
    SlabRange(dom, q);
    if p < q {
      BetweenIsRun(dom, x, source, reference, p, q - 1);
      SlabIsRun(dom, x, source, reference, q - 1);
    } else {
      assert p == q;
    }
  }

  lemma {:induction false} ActiveBelowGrows(occ: seq<bool>, a: nat, b: nat)
    requires a <= b <= |occ|
    ensures |ActiveBelow(occ, a)| <= |ActiveBelow(occ, b)|
    decreases b
  {
    if a < b {
      ActiveBelowGrows(occ, a, b - 1);
    }
  }

  // Part of a sum of non-negative terms.
  lemma PartOfSum(f: int -> real, part: int -> real, a: nat, b: nat, n: nat)
    requires a <= b <= n && forall i :: 0 <= i < n ==> f(i) >= 0.0
    requires forall i :: 0 <= i < b - a ==> part(i) == f(a + i)
    ensures 0.0 <= Sum(b - a, part) <= Sum(n, f)
  {
    hide Sum;
    SumAppend(a, b - a, f);
    SumAppend(b, n - b, f);
    SumExt(b - a, part, i => f(a + i));
    SumNonneg(a, f);
    SumNonneg(b - a, part);
    SumNonneg(n - b, i => f(b + i));
  }

  // The square of a run's sum against the squares of all entries.
  lemma RunBound(r: Vec, a: nat, b: nat)
    requires a <= b <= |r|
    ensures var s := Sum(b, Entries(r)) - Sum(a, Entries(r)); s * s <= |r| as real * Dot(r, r)
  {
    hide At, Sum;
    var f: int -> real := i => Entries(r)(a + i);
    SumAppend(a, b - a, Entries(r));
    SumExt(b - a, i => Entries(r)(a + i), f);
    CauchySchwarz(b - a, f);
    var own, squares: int -> real := i => f(i) * f(i), i => At(r, i) * At(r, i);
    SumExt(b - a, i => f(i) * f(i), own);
    forall i ensures squares(i) >= 0.0 {
      SquarePositive(At(r, i), squares(i));
    }
    PartOfSum(squares, own, a, b, |r|);
    DotIsSum(r, squares);
    hide Dot;
    RunAlgebra(Sum(b - a, f), (b - a) as real, |r| as real, Sum(b - a, own), Dot(r, r));
  }

  lemma DotIsSum(r: Vec, squares: int -> real)
    requires forall i :: squares(i) == At(r, i) * At(r, i)
    ensures Dot(r, r) == Sum(|r|, squares)
  {
    SumExt(|r|, squares, i => At(r, i) * At(r, i));
  }

  lemma RunAlgebra(s: real, m: real, n: real, part: real, whole: real)
    requires s * s <= m * part && 0.0 <= m <= n && 0.0 <= part <= whole
    ensures s * s <= n * whole
  {
  }

  /** For the vector the solver returns: between any two cross-sections the total density differs, in
      its square, by at most the number of cells times the squared tolerance, times fixed factors. */
  lemma CurrentMismatch(dom: VoxelDomain, x: Vec, conductivity: real, source: real, reference: real, p: nat, q: nat,
                        tolerance: real)
    requires dom.Valid() && dom.NoIsolatedCell() && |x| == |dom.Cells()| && p <= q <= dom.shape.n0
    requires var sys := dom.SystemOf(source, reference, None);
      sys.Shaped() && sys.Size() == |x| && RelativeSquared(sys, sys.Residual(x)) <= tolerance * tolerance
    ensures var sys := dom.SystemOf(source, reference, None);
      var d := TotalDensity(dom, x, conductivity, source, reference, q)
        - TotalDensity(dom, x, conductivity, source, reference, p);
      var factor := conductivity * dom.axialSpacing;
      d * d <= factor * factor * (|x| as real * (tolerance * tolerance * RhsSquared(sys)))
  {
    hide VoxelDomain.SystemOf, VoxelDomain.Valid, TotalDensity, ResidualBetween, Dot, Entries, RhsSquared,
      VoxelDomain.NoIsolatedCell, SlabSize, ActiveBelow;
    var sys := dom.SystemOf(source, reference, None);
    var r := sys.Residual(x);
    Conservation(dom, x, conductivity, source, reference, p, q);
    BetweenIsRun(dom, x, source, reference, p, q);
    var a, b := ActiveBelowSlab(dom, p), ActiveBelowSlab(dom, q);
    ActiveBelowGrows(dom.occupancy, p * SlabSize(dom), q * SlabSize(dom));
    ActiveBelowGrows(dom.occupancy, q * SlabSize(dom), |dom.occupancy|);
    RunBound(r, a, b);
    var d := TotalDensity(dom, x, conductivity, source, reference, q)
      - TotalDensity(dom, x, conductivity, source, reference, p);
    MismatchAlgebra(d, conductivity * dom.axialSpacing, ResidualBetween(dom, x, source, reference, p, q), |x| as real,
                    Dot(r, r), RhsSquared(sys), tolerance * tolerance);
  }

  lemma MismatchAlgebra(d: real, f: real, s: real, n: real, rr: real, b: real, t: real)
    requires b > 0.0 && rr / b <= t && n >= 0.0 && s * s <= n * rr && d == -f * s
    ensures d * d <= f * f * (n * (t * b))
  {
  }
}
