/** The reported currents: cross-sections, their conservation along the conductor, and why the
    position of the cross-section does not matter for a solution. */
module DcCurrent {
  import opened RealSums
  import opened Vectors
  import opened VoxelGrid
  import opened Connectivity
  import opened LinearSystem
  import opened FiniteVolume
  import opened Options
  import opened DomainTheory
  import opened CellBalance

  /** A sum over the cells of one slab. */
  function SlabSum(dom: VoxelDomain, g: (int, int) -> real): real {
    Sum(dom.shape.n2, k => RowSum(dom, g, k))
  }

  function RowSum(dom: VoxelDomain, g: (int, int) -> real, k: int): real {
    Sum(dom.shape.n1, j => g(j, k))
  }

  lemma SlabSumScale(dom: VoxelDomain, a: real, f: (int, int) -> real, h: (int, int) -> real)
    requires forall j, k :: 0 <= j < dom.shape.n1 && 0 <= k < dom.shape.n2 ==> h(j, k) == a * f(j, k)
    ensures SlabSum(dom, h) == a * SlabSum(dom, f)
  {
    hide Sum;
    forall k | 0 <= k < dom.shape.n2 ensures RowSum(dom, h, k) == a * RowSum(dom, f, k) {
      SumScale(dom.shape.n1, a, j => f(j, k), j => h(j, k));
    }
    SumScale(dom.shape.n2, a, k => RowSum(dom, f, k), k => RowSum(dom, h, k));
  }

  lemma SlabSumDifference(dom: VoxelDomain, f: (int, int) -> real, g: (int, int) -> real, h: (int, int) -> real)
    requires forall j, k | 0 <= j < dom.shape.n1 && 0 <= k < dom.shape.n2 :: h(j, k) == f(j, k) - g(j, k)
    ensures SlabSum(dom, h) == SlabSum(dom, f) + -1.0 * SlabSum(dom, g)
  {
    hide Sum;
    forall k | 0 <= k < dom.shape.n2 ensures RowSum(dom, h, k) == RowSum(dom, f, k) + -1.0 * RowSum(dom, g, k) {
      SumLinear(dom.shape.n1, j => f(j, k), -1.0, j => g(j, k), j => h(j, k));
    }
    SumLinear(dom.shape.n2, k => RowSum(dom, f, k), -1.0, k => RowSum(dom, g, k), k => RowSum(dom, h, k));
  }

  lemma SlabNonneg(dom: VoxelDomain, g: (int, int) -> real)
    requires forall j, k | 0 <= j < dom.shape.n1 && 0 <= k < dom.shape.n2 :: g(j, k) >= 0.0
    ensures SlabSum(dom, g) >= 0.0
    ensures forall k | 0 <= k < dom.shape.n2 :: RowSum(dom, g, k) >= 0.0
  {
    hide Sum;
    forall k | 0 <= k < dom.shape.n2 ensures RowSum(dom, g, k) >= 0.0 {
      SumNonneg(dom.shape.n1, j => g(j, k));
    }
    SumNonneg(dom.shape.n2, k => RowSum(dom, g, k));
  }

  function TotalFlux(dom: VoxelDomain, x: Vec, source: real, reference: real, f: int): real
    requires dom.Valid()
  {
    SlabSum(dom, AxialGrid(dom, x, source, reference, f))
  }

  function AxialGrid(dom: VoxelDomain, x: Vec, source: real, reference: real, f: int): (int, int) -> real
    requires dom.Valid()
  {
    (j, k) => AxialFlux(dom, x, source, reference, f, j, k)
  }

  function ResidualGrid(dom: VoxelDomain, x: Vec, source: real, reference: real, i: int): (int, int) -> real
    requires dom.Valid() && dom.NoIsolatedCell() && |x| == |dom.Cells()|
  {
    (j, k) => ResidualAt(dom, source, reference, x, i, j, k)
  }

  // The lateral flux through one line of faces.
  function VRow(dom: VoxelDomain, x: Vec, i: int, k: int): real
    requires dom.Valid()
  {
    Sum(dom.shape.n1, j => VFlux(dom, x, i, j, k))
  }

  /** The sum of the residuals of slab `i`. */
  function SlabResidual(dom: VoxelDomain, x: Vec, source: real, reference: real, i: int): real
    requires dom.Valid() && dom.NoIsolatedCell() && |x| == |dom.Cells()|
  {
    SlabSum(dom, ResidualGrid(dom, x, source, reference, i))
  }

  lemma RowBalance(dom: VoxelDomain, x: Vec, source: real, reference: real, i: int, k: int)
    requires dom.Valid() && dom.NoIsolatedCell() && |x| == |dom.Cells()| && 0 <= i < dom.shape.n0
    requires 0 <= k < dom.shape.n2
    ensures RowSum(dom, ResidualGrid(dom, x, source, reference, i), k)
      == RowSum(dom, AxialGrid(dom, x, source, reference, i), k)
        - RowSum(dom, AxialGrid(dom, x, source, reference, i + 1), k)
         + (VRow(dom, x, i, k) - VRow(dom, x, i, k + 1))
  {
    hide AxialFlux, UFlux, VFlux, ResidualAt, VoxelDomain.DiagonalOf;
    var n := dom.shape.n1;
    var rg, ag, bg := ResidualGrid(dom, x, source, reference, i), AxialGrid(dom, x, source, reference, i),
                      AxialGrid(dom, x, source, reference, i + 1);
    var r, a, b := j => rg(j, k), j => ag(j, k), j => bg(j, k);
    var u, v, w := j => UFlux(dom, x, i, j, k), j => VFlux(dom, x, i, j, k), j => VFlux(dom, x, i, j, k + 1);
    forall j | 0 <= j < n ensures r(j) == (a(j) - b(j)) + (u(j) - u(j + 1)) + (v(j) - w(j)) {
      FluxBalance(dom, source, reference, x, i, j, k);
    }
    SumBalance(n, r, a, b, u, v, w);
    UFluxEnds(dom, x, i, k);
  }

  lemma UFluxEnds(dom: VoxelDomain, x: Vec, i: int, k: int)
    requires dom.Valid()
    ensures UFlux(dom, x, i, 0, k) == 0.0 && UFlux(dom, x, i, dom.shape.n1, k) == 0.0
  {
  }

  lemma VFluxEnds(dom: VoxelDomain, x: Vec, i: int)
    requires dom.Valid()
    ensures VRow(dom, x, i, 0) == 0.0 && VRow(dom, x, i, dom.shape.n2) == 0.0
  {
    SumZero(dom.shape.n1, j => VFlux(dom, x, i, j, 0));
    SumZero(dom.shape.n1, j => VFlux(dom, x, i, j, dom.shape.n2));
  }

  /** Lateral fluxes cancel: a slab's residuals sum to the difference of the fluxes through its faces. */
  lemma SlabBalance(dom: VoxelDomain, x: Vec, source: real, reference: real, i: int)
    requires dom.Valid() && dom.NoIsolatedCell() && |x| == |dom.Cells()| && 0 <= i < dom.shape.n0
    ensures SlabResidual(dom, x, source, reference, i)
      == TotalFlux(dom, x, source, reference, i) - TotalFlux(dom, x, source, reference, i + 1)
  {
    hide RowSum, VRow, AxialGrid, ResidualGrid, VoxelDomain.DiagonalOf;
    var n := dom.shape.n2;
    var rg, ag, bg := ResidualGrid(dom, x, source, reference, i), AxialGrid(dom, x, source, reference, i),
                      AxialGrid(dom, x, source, reference, i + 1);
    var r, a, b := k => RowSum(dom, rg, k), k => RowSum(dom, ag, k), k => RowSum(dom, bg, k);
    var u := k => VRow(dom, x, i, k);
    forall k | 0 <= k < n ensures r(k) == (a(k) - b(k)) + (u(k) - u(k + 1)) + (0.0 - 0.0) {
      RowBalance(dom, x, source, reference, i, k);
    }
    SumBalance(n, r, a, b, u, k => 0.0, k => 0.0);
    VFluxEnds(dom, x, i);
  }

  // Ohm's law across a half cell and across a full cell.
  function HalfCell(conductivity: real, drop: real, h: real): real
    requires h > 0.0
  {
    2.0 * conductivity * drop / h
  }

  function FullCell(conductivity: real, drop: real, h: real): real
    requires h > 0.0
  {
    conductivity * drop / h
  }

  /** The current density through face `f` at one grid position, as `_cross_section` computes it. */
  function Density(dom: VoxelDomain, x: Vec, conductivity: real, source: real, reference: real, f: int, j: int,
                   k: int): real
    requires dom.Valid()
  {
    dom.PositiveSpacing();
    var h := dom.axialSpacing;
    if f == 0 then
      if Filled(dom, 0, j, k) then HalfCell(conductivity, source - PotentialAt(dom, x, 0, j, k), h) else 0.0
    else if f == dom.shape.n0 then
      if Filled(dom, f - 1, j, k) then HalfCell(conductivity, PotentialAt(dom, x, f - 1, j, k) - reference, h) else 0.0
    else if Filled(dom, f - 1, j, k) && Filled(dom, f, j, k) then
      FullCell(conductivity, PotentialAt(dom, x, f - 1, j, k) - PotentialAt(dom, x, f, j, k), h)
    else 0.0
  }

  function DensityGrid(dom: VoxelDomain, x: Vec, conductivity: real, source: real, reference: real,
                       f: int): (int, int) -> real
    requires dom.Valid()
  {
    (j, k) => Density(dom, x, conductivity, source, reference, f, j, k)
  }

  function TotalDensity(dom: VoxelDomain, x: Vec, conductivity: real, source: real, reference: real, f: int): real
    requires dom.Valid()
  {
    SlabSum(dom, DensityGrid(dom, x, conductivity, source, reference, f))
  }

  lemma ScaledDifference(c: real, d: real, h: real, w: real)
    requires h > 0.0 && w * (h * h) == 1.0
    ensures c * d / h == c * h * (w * d)
    ensures 2.0 * c * d / h == c * h * (2.0 * w * d)
  {
  }

  lemma DensityIsFlux(dom: VoxelDomain, x: Vec, conductivity: real, source: real, reference: real, f: int, j: int,
                      k: int)
    requires dom.Valid()
    ensures Density(dom, x, conductivity, source, reference, f, j, k)
      == conductivity * dom.axialSpacing * AxialFlux(dom, x, source, reference, f, j, k)
  {
    hide PotentialAt, Filled;
    dom.PositiveSpacing();
    var h, w := dom.axialSpacing, InverseSquare(dom.axialSpacing);
    assert dom.Weights()[0] == w;
    hide VoxelDomain.Weights, InverseSquare;
    ScaledDifference(conductivity, source - PotentialAt(dom, x, 0, j, k), h, w);
    ScaledDifference(conductivity, PotentialAt(dom, x, f - 1, j, k) - reference, h, w);
    ScaledDifference(conductivity, PotentialAt(dom, x, f - 1, j, k) - PotentialAt(dom, x, f, j, k), h, w);
  }

  lemma TotalDensityIsFlux(dom: VoxelDomain, x: Vec, conductivity: real, source: real, reference: real, f: int)
    requires dom.Valid()
    ensures TotalDensity(dom, x, conductivity, source, reference, f)
      == conductivity * dom.axialSpacing * TotalFlux(dom, x, source, reference, f)
  {
    hide Density, AxialFlux;
    var d, a := DensityGrid(dom, x, conductivity, source, reference, f), AxialGrid(dom, x, source, reference, f);
    forall j, k | 0 <= j < dom.shape.n1 && 0 <= k < dom.shape.n2
      ensures d(j, k) == conductivity * dom.axialSpacing * a(j, k)
    {
      DensityIsFlux(dom, x, conductivity, source, reference, f, j, k);
    }
    SlabSumScale(dom, conductivity * dom.axialSpacing, a, d);
  }

  /** Current conservation for any candidate vector: between two faces the total density changes by
      the residuals of the slabs between them. */
  lemma {:induction false} Conservation(dom: VoxelDomain, x: Vec, conductivity: real, source: real, reference: real,
                                        p: nat, q: nat)
    requires dom.Valid() && dom.NoIsolatedCell() && |x| == |dom.Cells()| && p <= q <= dom.shape.n0
    ensures TotalDensity(dom, x, conductivity, source, reference, q)
      - TotalDensity(dom, x, conductivity, source, reference, p)
      == -(conductivity * dom.axialSpacing) * ResidualBetween(dom, x, source, reference, p, q)
  {
    hide TotalDensity, TotalFlux, SlabResidual, VoxelDomain.DiagonalOf;
    if p < q {
      Conservation(dom, x, conductivity, source, reference, p, q - 1);
      SlabBalance(dom, x, source, reference, q - 1);
      TotalDensityIsFlux(dom, x, conductivity, source, reference, q - 1);
      TotalDensityIsFlux(dom, x, conductivity, source, reference, q);
      StepAlgebra(conductivity * dom.axialSpacing, ResidualBetween(dom, x, source, reference, p, q - 1),
                  TotalFlux(dom, x, source, reference, q - 1), TotalFlux(dom, x, source, reference, q));
    }
  }

  lemma StepAlgebra(c: real, r: real, a: real, b: real)
    ensures c * b - c * a + -c * r == -c * (r + (a - b))
  {
  }

  /** The residuals of the slabs from `p` up to `q`. */
  function ResidualBetween(dom: VoxelDomain, x: Vec, source: real, reference: real, p: nat, q: nat): real
    requires dom.Valid() && dom.NoIsolatedCell() && |x| == |dom.Cells()|
  {
    if p >= q then 0.0
    else ResidualBetween(dom, x, source, reference, p, q - 1) + SlabResidual(dom, x, source, reference, q - 1)
  }

  lemma SolutionHasNoResidual(dom: VoxelDomain, x: Vec, source: real, reference: real, i: int)
    requires dom.Valid() && dom.NoIsolatedCell() && |x| == |dom.Cells()|
    requires Solves(dom.SystemOf(source, reference, None), x)
    ensures SlabResidual(dom, x, source, reference, i) == 0.0
  {
    var g := ResidualGrid(dom, x, source, reference, i);
    var sys := dom.SystemOf(source, reference, None);
    assert forall a :: At(sys.Residual(x), a) == 0.0;
    forall j, k | 0 <= j < dom.shape.n1 && 0 <= k < dom.shape.n2 ensures g(j, k) == 0.0 * g(j, k) {
    }
    SlabSumScale(dom, 0.0, g, g);
  }

  lemma {:induction false} NoResidualBetween(dom: VoxelDomain, x: Vec, source: real, reference: real, p: nat, q: nat)
    requires dom.Valid() && dom.NoIsolatedCell() && |x| == |dom.Cells()|
    requires Solves(dom.SystemOf(source, reference, None), x)
    ensures ResidualBetween(dom, x, source, reference, p, q) == 0.0
  {
    hide SlabResidual, VoxelDomain.DiagonalOf, Solves, VoxelDomain.SystemOf;
    if p < q {
      NoResidualBetween(dom, x, source, reference, p, q - 1);
      SolutionHasNoResidual(dom, x, source, reference, q - 1);
    }
  }

  /** For a solution the total current is the same at every cross-section, terminals included. */
  lemma SameCurrentEverywhere(dom: VoxelDomain, x: Vec, conductivity: real, source: real, reference: real, p: nat,
                              q: nat)
    requires dom.Valid() && dom.NoIsolatedCell() && |x| == |dom.Cells()| && p <= dom.shape.n0 && q <= dom.shape.n0
    requires Solves(dom.SystemOf(source, reference, None), x)
    ensures TotalDensity(dom, x, conductivity, source, reference, p)
      == TotalDensity(dom, x, conductivity, source, reference, q)
  {
    hide TotalDensity, VoxelDomain.DiagonalOf, Solves, VoxelDomain.SystemOf;
    var lo, hi := if p <= q then p else q, if p <= q then q else p;
    Conservation(dom, x, conductivity, source, reference, lo, hi);
    NoResidualBetween(dom, x, source, reference, lo, hi);
  }

  function RoundLikeJavaScript(v: real): int {
    (v + 0.5).Floor
  }

  lemma FaceOrder(position: real, n: real)
    requires n >= 0.0
    ensures position <= 0.0 ==> position * n <= 0.0
    ensures position >= 0.0 ==> position * n >= 0.0
    ensures position <= 1.0 ==> position * n <= n
    ensures position >= 1.0 ==> position * n >= n
  {
  }

  /** The face a relative position selects: the nearest one, the upper one half-way between two, and the ends for
      positions outside. */
  function FaceIndex(position: real, n: nat): (f: int)
    ensures 0 <= f <= n
    ensures 0.0 <= position <= 1.0 ==> -0.5 < f as real - position * n as real <= 0.5
    ensures position <= 0.0 ==> f == 0
    ensures position >= 1.0 ==> f == n
  {
    var r := RoundLikeJavaScript(position * n as real);
    FaceOrder(position, n as real);
    if r <= 0 then 0 else if r >= n then n else r
  }

  function Abs(v: real): (r: real)
    ensures r >= 0.0 && (r == v || r == -v)
  {
    if v < 0.0 then -v else v
  }

  // One row of the cross-section: its densities (or zeros) and their sum.
  method CrossSectionRow(solution: Vec, sys: FiniteVolumeSystem, dom: VoxelDomain, f: int, k: int, conductivity: real,
                         source: real, reference: real, includeValues: bool)
    returns (line: seq<real>, sum: real)
    requires dom.Valid() && sys == dom.SystemOf(source, reference, None) && |solution| == |dom.Cells()|
    requires 0 <= f <= dom.shape.n0 && 0 <= k < dom.shape.n2
    ensures |line| == dom.shape.n1 && forall j | 0 <= j < |line| ::
      line[j] == if includeValues then Density(dom, solution, conductivity, source, reference, f, j, k) else 0.0
    ensures sum == RowSum(dom, DensityGrid(dom, solution, conductivity, source, reference, f), k)
  {
    hide VoxelDomain.SystemOf, Density;
    ghost var g := DensityGrid(dom, solution, conductivity, source, reference, f);
    line, sum := [], 0.0;
    for j := 0 to dom.shape.n1
      invariant sum == Sum(j, t => g(t, k)) && |line| == j
      invariant forall t | 0 <= t < j :: line[t] == if includeValues then g(t, k) else 0.0
    {
      var density := DensityAt(solution, sys, dom, f, j, k, conductivity, source, reference);
      line := line + [if includeValues then density else 0.0];
      sum := sum + density;
    }
  }

  /** `_cross_section`: the density of every position of the selected face, and the total current. */
  method CrossSection(solution: Vec, sys: FiniteVolumeSystem, dom: VoxelDomain, position: real, conductivity: real,
                      source: real, reference: real, includeValues: bool)
    returns (values: seq<seq<real>>, total: real)
    requires dom.Valid() && sys == dom.SystemOf(source, reference, None) && |solution| == |dom.Cells()|
    ensures |values| == dom.shape.n2 && forall row | 0 <= row < |values| :: |values[row]| == dom.shape.n1
    ensures forall row, j | 0 <= row < |values| && 0 <= j < |values[row]| ::
      values[row][j] == if includeValues
        then Density(dom, solution, conductivity, source, reference, FaceIndex(position, dom.shape.n0), j,
                     dom.shape.n2 - row - 1)
        else 0.0
    ensures total == Abs(TotalDensity(dom, solution, conductivity, source, reference, FaceIndex(position, dom.shape.n0))
                         * dom.uSpacing * dom.vSpacing)
  {
    hide VoxelDomain.SystemOf, Density, FaceIndex, RowSum, DensityGrid;
    var f, n2 := FaceIndex(position, dom.shape.n0), dom.shape.n2;
    ghost var g := DensityGrid(dom, solution, conductivity, source, reference, f);
    ghost var rows := k => RowSum(dom, g, k);
    values := [];
    var totalDensity := 0.0;
    for row := 0 to n2
      invariant totalDensity == Sum(row, r => rows(n2 - 1 - r)) && |values| == row
      invariant forall r | 0 <= r < row :: |values[r]| == dom.shape.n1
      invariant forall r, j | 0 <= r < row && 0 <= j < |values[r]| ::
        values[r][j] == if includeValues
          then Density(dom, solution, conductivity, source, reference, f, j, n2 - r - 1) else 0.0
    {
      var line, sum := CrossSectionRow(solution, sys, dom, f, n2 - row - 1, conductivity, source, reference,
                                       includeValues);
      values := values + [line];
      totalDensity := totalDensity + sum;
    }
    SumReverse(n2, rows);
    total := Abs(totalDensity * dom.uSpacing * dom.vSpacing);
  }

  lemma StoredPotential(solution: Vec, sys: FiniteVolumeSystem, dom: VoxelDomain, c: int, source: real, reference: real)
    requires dom.Valid() && sys == dom.SystemOf(source, reference, None) && |solution| == |dom.Cells()|
    requires Occupied(dom.occupancy, c)
    ensures |sys.activeIndex| == |dom.occupancy| && 0 <= sys.activeIndex[c] < |solution|
    ensures solution[sys.activeIndex[c]] == Potential(dom, solution, c)
  {
    hide ActiveBelow, VoxelDomain.DiagonalOf, VoxelDomain.RhsOf, VoxelDomain.InitialOf, VoxelDomain.NeighborRow;
    CellOf(dom, c);
  }

  // The body of the inner loop: the potential difference across one face position.
  method DensityAt(solution: Vec, sys: FiniteVolumeSystem, dom: VoxelDomain, f: int, j: int, k: int, conductivity: real,
                   source: real, reference: real)
    returns (density: real)
    requires dom.Valid() && sys == dom.SystemOf(source, reference, None) && |solution| == |dom.Cells()|
    requires 0 <= f <= dom.shape.n0 && 0 <= j < dom.shape.n1 && 0 <= k < dom.shape.n2
    ensures density == Density(dom, solution, conductivity, source, reference, f, j, k)
  {
    hide VoxelIndex, Shape.Size, VoxelDomain.SystemOf, Potential, HalfCell, FullCell;
    dom.PositiveSpacing();
    density := 0.0;
    if f == 0 {
      var right := VoxelIndex(0, j, k, dom.shape);
      Decode(0, j, k, dom.shape);
      if dom.occupancy[right] {
        StoredPotential(solution, sys, dom, right, source, reference);
        density := HalfCell(conductivity, source - solution[sys.activeIndex[right]], dom.axialSpacing);
      }
    } else if f == dom.shape.n0 {
      var left := VoxelIndex(f - 1, j, k, dom.shape);
      Decode(f - 1, j, k, dom.shape);
      if dom.occupancy[left] {
        StoredPotential(solution, sys, dom, left, source, reference);
        density := HalfCell(conductivity, solution[sys.activeIndex[left]] - reference, dom.axialSpacing);
      }
    } else {
      var left, right := VoxelIndex(f - 1, j, k, dom.shape), VoxelIndex(f, j, k, dom.shape);
      Decode(f - 1, j, k, dom.shape);
      Decode(f, j, k, dom.shape);
      if dom.occupancy[left] && dom.occupancy[right] {
        StoredPotential(solution, sys, dom, left, source, reference);
        StoredPotential(solution, sys, dom, right, source, reference);
        density := FullCell(conductivity, solution[sys.activeIndex[left]] - solution[sys.activeIndex[right]],
                            dom.axialSpacing);
      }
    }
  }
}
