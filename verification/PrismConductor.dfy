/** Joule heating, and the conductors on which the whole computation is exact: prisms, whose
    occupancy does not vary along the axis. */
module PrismConductor {
  import opened RealSums
  import opened Vectors
  import opened VoxelGrid
  import opened Connectivity
  import opened LinearSystem
  import opened FiniteVolume
  import opened Options
  import opened DomainTheory
  import opened CellBalance
  import opened DcCurrent

  function Spacing(dom: VoxelDomain, axis: int): (h: real)
    requires dom.Valid()
    ensures h > 0.0
  {
    dom.PositiveSpacing();
    if axis == 0 then dom.axialSpacing else if axis == 1 then dom.uSpacing else dom.vSpacing
  }

  function OnAxis(axis: int, i: int, j: int, k: int): int {
    if axis == 0 then i else if axis == 1 then j else k
  }

  function Extent(sh: Shape, axis: int): int {
    if axis == 0 then sh.n0 else if axis == 1 then sh.n1 else sh.n2
  }

  // The potential slope towards the neighbour in direction `slot`: over a full cell, over half a
  // cell at a terminal, or none at an insulated face.
  function Slope(dom: VoxelDomain, x: Vec, source: real, reference: real, i: int, j: int, k: int, axis: int,
                 plus: bool): real
    requires dom.Valid() && 0 <= axis < 3
  {
    var o := Offset(2 * axis + if plus then 1 else 0);
    var h, p := Spacing(dom, axis), PotentialAt(dom, x, i, j, k);
    if Filled(dom, i + o.0, j + o.1, k + o.2) then
      var q := PotentialAt(dom, x, i + o.0, j + o.1, k + o.2);
      if plus then (q - p) / h else (p - q) / h
    else if plus then
      if axis == 0 && i == dom.shape.n0 - 1 then 2.0 * (reference - p) / h else 0.0
    else
      if axis == 0 && i == 0 then 2.0 * (p - source) / h else 0.0
  }

  function GradientOf(dom: VoxelDomain, x: Vec, source: real, reference: real, i: int, j: int, k: int, axis: int): real
    requires dom.Valid() && 0 <= axis < 3
  {
    (Slope(dom, x, source, reference, i, j, k, axis, false)
     + Slope(dom, x, source, reference, i, j, k, axis, true)) / 2.0
  }

  /** The heating of one cell: conductivity times the squared gradient. */
  function JouleAt(dom: VoxelDomain, x: Vec, conductivity: real, source: real, reference: real, i: int, j: int,
                   k: int): real
    requires dom.Valid()
  {
    if Filled(dom, i, j, k) then
      var g0, g1, g2 := GradientOf(dom, x, source, reference, i, j, k, 0),
                        GradientOf(dom, x, source, reference, i, j, k, 1),
                        GradientOf(dom, x, source, reference, i, j, k, 2);
      conductivity * (g0 * g0 + g1 * g1 + g2 * g2)
    else 0.0
  }

  ghost predicate Prism(dom: VoxelDomain) {
    forall i, m, j, k | dom.shape.Contains(i, j, k) && dom.shape.Contains(m, j, k) ::
      Filled(dom, i, j, k) == Filled(dom, m, j, k)
  }

  // The linear profile at axial position `i`.
  function Profile(dom: VoxelDomain, source: real, reference: real, i: int): real
    requires dom.Valid()
  {
    source + (reference - source) * ((i as real + 0.5) / dom.shape.n0 as real)
  }

  lemma ProfileSteps(dom: VoxelDomain, source: real, reference: real, i: int)
    requires dom.Valid()
    ensures var n, s := dom.shape.n0 as real, (reference - source) / dom.shape.n0 as real;
      && Profile(dom, source, reference, i + 1) - Profile(dom, source, reference, i) == s
      && 2.0 * (Profile(dom, source, reference, 0) - source) == s
      && 2.0 * (reference - Profile(dom, source, reference, dom.shape.n0 - 1)) == s
  {
  }

  lemma PrismPotential(dom: VoxelDomain, source: real, reference: real, i: int, j: int, k: int)
    requires dom.Valid() && Filled(dom, i, j, k)
    ensures PotentialAt(dom, dom.SystemOf(source, reference, None).initial, i, j, k)
      == Profile(dom, source, reference, i)
  {
    hide VoxelIndex, AxialOf, Shape.Size, ActiveBelow, VoxelDomain.DiagonalOf, VoxelDomain.RhsOf,
      VoxelDomain.NeighborRow, Profile, VoxelDomain.InitialOf;
    var c := VoxelIndex(i, j, k, dom.shape);
    CellOf(dom, c);
    Decode(i, j, k, dom.shape);
    ProfileIsInitial(dom, source, reference, c);
  }

  lemma ProfileIsInitial(dom: VoxelDomain, source: real, reference: real, c: int)
    requires dom.Valid()
    ensures dom.InitialOf(c, source, reference) == Profile(dom, source, reference, AxialOf(c, dom.shape))
  {
  }

  /** In a prism the linear profile carries the same flux through every face of a column. */
  lemma PrismAxialFlux(dom: VoxelDomain, source: real, reference: real, f: int, j: int, k: int)
    requires dom.Valid() && Prism(dom) && 0 <= f <= dom.shape.n0 && 0 <= j < dom.shape.n1 && 0 <= k < dom.shape.n2
    ensures AxialFlux(dom, dom.SystemOf(source, reference, None).initial, source, reference, f, j, k)
      == if Filled(dom, 0, j, k) then dom.Weights()[0] * ((source - reference) / dom.shape.n0 as real) else 0.0
  {
    hide VoxelDomain.SystemOf, VoxelIndex, PotentialAt, Profile, VoxelDomain.Weights;
    var n, w := dom.shape.n0, dom.Weights()[0];
    ProfileSteps(dom, source, reference, f - 1);
    assert Filled(dom, n - 1, j, k) == Filled(dom, 0, j, k);
    if Filled(dom, 0, j, k) {
      PrismPotential(dom, source, reference, 0, j, k);
      PrismPotential(dom, source, reference, n - 1, j, k);
      if 0 < f < n {
        assert Filled(dom, f - 1, j, k) && Filled(dom, f, j, k);
        PrismPotential(dom, source, reference, f - 1, j, k);
        PrismPotential(dom, source, reference, f, j, k);
      }
      NegatedQuotient(source, reference, n as real);
    }
  }

  lemma NegatedQuotient(s: real, r: real, n: real)
    requires n > 0.0
    ensures (s - r) / n == -((r - s) / n)
  {
  }

  lemma PrismLateralFlux(dom: VoxelDomain, source: real, reference: real, i: int, j: int, k: int)
    requires dom.Valid() && 0 <= i < dom.shape.n0
    ensures UFlux(dom, dom.SystemOf(source, reference, None).initial, i, j, k) == 0.0
    ensures VFlux(dom, dom.SystemOf(source, reference, None).initial, i, j, k) == 0.0
  {
    hide VoxelDomain.SystemOf, VoxelIndex, PotentialAt, Profile, VoxelDomain.Weights;
    if Filled(dom, i, j, k) {
      PrismPotential(dom, source, reference, i, j, k);
    }
    if Filled(dom, i, j - 1, k) {
      PrismPotential(dom, source, reference, i, j - 1, k);
    }
    if Filled(dom, i, j, k - 1) {
      PrismPotential(dom, source, reference, i, j, k - 1);
    }
  }

  lemma PrismNotIsolated(dom: VoxelDomain)
    requires dom.Valid() && Prism(dom)
    ensures dom.NoIsolatedCell()
  {
    hide VoxelIndex, AxialOf, UOf, VOf, Shape.Size, VoxelDomain.DiagonalOf;
    forall c | Occupied(dom.occupancy, c) ensures dom.DiagonalOf(c) > 0.0 {
      assert |dom.occupancy| == dom.shape.Size();
      Encode(c, dom.shape);
      var i, j, k := AxialOf(c, dom.shape), UOf(c, dom.shape), VOf(c, dom.shape);
      if i == 0 {
        TerminalNotIsolated(dom, c);
      } else {
        assert Filled(dom, i, j, k) && Filled(dom, i - 1, j, k);
        assert dom.OccupiedNeighbor(c, 0);
        LinkedNotIsolated(dom, c, 0);
      }
    }
  }

  /** In a prism the linear initial guess is the exact solution. */
  lemma PrismInitialExact(dom: VoxelDomain, source: real, reference: real)
    requires dom.Valid() && Prism(dom)
    ensures dom.NoIsolatedCell()
    ensures var sys := dom.SystemOf(source, reference, None);
      sys.Shaped() && IsZero(sys.Residual(sys.initial)) && Solves(sys, sys.initial)
  {
    hide VoxelDomain.SystemOf, VoxelIndex, AxialOf, UOf, VOf, Shape.Size, VoxelDomain.DiagonalOf, AxialFlux, UFlux,
      VFlux, Prism;
    hide FiniteVolumeSystem.Apply, ActiveBelow, Rank;
    var sys := dom.SystemOf(source, reference, None);
    PrismNotIsolated(dom);
    Shaped(dom, source, reference, None);
    var r := sys.Residual(sys.initial);
    forall a | 0 <= a < |r| ensures r[a] == 0.0 {
      CellAt(dom, a);
      var c := dom.Cells()[a];
      Encode(c, dom.shape);
      PrismResidual(dom, source, reference, AxialOf(c, dom.shape), UOf(c, dom.shape), VOf(c, dom.shape));
      assert At(r, a) == 0.0;
    }
    assert forall a :: 0 <= a < |r| ==> r[a] == sys.rhs[a] + -1.0 * sys.Apply(sys.initial)[a];
  }

  lemma PrismResidual(dom: VoxelDomain, source: real, reference: real, i: int, j: int, k: int)
    requires dom.Valid() && Prism(dom) && dom.NoIsolatedCell() && dom.shape.Contains(i, j, k)
    requires |dom.SystemOf(source, reference, None).initial| == |dom.Cells()|
    ensures ResidualAt(dom, source, reference, dom.SystemOf(source, reference, None).initial, i, j, k) == 0.0
  {
    hide VoxelDomain.SystemOf, AxialFlux, UFlux, VFlux, Prism, ResidualAt, VoxelDomain.DiagonalOf, Filled;
    FluxBalance(dom, source, reference, dom.SystemOf(source, reference, None).initial, i, j, k);
    PrismAxialFlux(dom, source, reference, i, j, k);
    PrismAxialFlux(dom, source, reference, i + 1, j, k);
    PrismLateralFlux(dom, source, reference, i, j, k);
    PrismLateralFlux(dom, source, reference, i, j + 1, k);
    PrismLateralFlux(dom, source, reference, i, j, k + 1);
  }

  /** The number of occupied positions of the cross-section. */
  function CrossSectionCells(dom: VoxelDomain): real {
    SlabSum(dom, CrossSectionGrid(dom))
  }

  function CrossSectionGrid(dom: VoxelDomain): (int, int) -> real {
    (j, k) => if Filled(dom, 0, j, k) then 1.0 else 0.0
  }

  function CrossSectionArea(dom: VoxelDomain): real {
    CrossSectionCells(dom) * dom.uSpacing * dom.vSpacing
  }

  lemma PrismTotal(dom: VoxelDomain, conductivity: real, source: real, reference: real, f: int)
    requires dom.Valid() && Prism(dom) && 0 <= f <= dom.shape.n0
    ensures var x := dom.SystemOf(source, reference, None).initial;
      TotalDensity(dom, x, conductivity, source, reference, f) * dom.uSpacing * dom.vSpacing
      == conductivity * (source - reference) / dom.length * CrossSectionArea(dom)
  {
    hide VoxelDomain.SystemOf, Density, Prism, AxialFlux, Filled, VoxelDomain.Weights;
    var x := dom.SystemOf(source, reference, None).initial;
    var h, w, n := dom.axialSpacing, dom.Weights()[0], dom.shape.n0 as real;
    var c := conductivity * h * (w * ((source - reference) / n));
    var g, s := DensityGrid(dom, x, conductivity, source, reference, f), CrossSectionGrid(dom);
    forall j, k | 0 <= j < dom.shape.n1 && 0 <= k < dom.shape.n2 ensures g(j, k) == c * s(j, k) {
      DensityIsFlux(dom, x, conductivity, source, reference, f, j, k);
      PrismAxialFlux(dom, source, reference, f, j, k);
    }
    SlabSumScale(dom, c, s, g);
    FirstWeight(dom);
    CurrentAlgebra(conductivity, source - reference, h, w, n, dom.length);
    AreaAlgebra(c, CrossSectionCells(dom), dom.uSpacing, dom.vSpacing);
  }

  lemma PositiveArea(dom: VoxelDomain)
    requires dom.Valid()
    ensures CrossSectionArea(dom) >= 0.0
  {
    hide SlabSum, Filled;
    SlabNonneg(dom, CrossSectionGrid(dom));
    NonnegScaled(CrossSectionCells(dom), dom.uSpacing, dom.vSpacing);
  }

  lemma NonnegScaled(a: real, u: real, v: real)
    requires a >= 0.0 && u > 0.0 && v > 0.0
    ensures a * u * v >= 0.0
  {
    var p := a * u;
    assert p >= 0.0;
    assert p * v >= 0.0;
  }

  lemma AbsScaled(total: real, d: real, length: real, area: real)
    requires length > 0.0 && area >= 0.0 && total == d / length * area
    ensures Abs(total) == Abs(d) / length * area
  {
    var q := d / length;
    assert d == q * length;
    assert -d / length == -q;
    if d < 0.0 {
      assert q < 0.0;
      assert -q * area == -(q * area);
      assert -q * area >= 0.0;
    } else {
      assert q >= 0.0;
      assert q * area >= 0.0;
    }
  }

  /** In a prism every cross-section carries conductivity times voltage over length times area, and reports
      its absolute value. */
  lemma PrismCurrent(dom: VoxelDomain, conductivity: real, source: real, reference: real, f: int)
    requires dom.Valid() && Prism(dom) && 0 <= f <= dom.shape.n0
    ensures var total := TotalDensity(dom, dom.SystemOf(source, reference, None).initial, conductivity, source,
                                      reference, f)
                         * dom.uSpacing * dom.vSpacing;
      && total == conductivity * (source - reference) / dom.length * CrossSectionArea(dom)
      && Abs(total) == Abs(conductivity * (source - reference)) / dom.length * CrossSectionArea(dom)
  {
    hide VoxelDomain.SystemOf, TotalDensity, Prism, CrossSectionArea, Abs;
    PrismTotal(dom, conductivity, source, reference, f);
    PositiveArea(dom);
    AbsScaled(TotalDensity(dom, dom.SystemOf(source, reference, None).initial, conductivity, source, reference, f)
              * dom.uSpacing * dom.vSpacing, conductivity * (source - reference), dom.length, CrossSectionArea(dom));
  }

  lemma FirstWeight(dom: VoxelDomain)
    requires dom.Valid()
    ensures dom.axialSpacing > 0.0 && dom.Weights()[0] * (dom.axialSpacing * dom.axialSpacing) == 1.0
  {
  }

  lemma CurrentAlgebra(c: real, d: real, h: real, w: real, n: real, length: real)
    requires h > 0.0 && n > 0.0 && length > 0.0 && h == length / n && w * (h * h) == 1.0
    ensures c * h * (w * (d / n)) == c * d / length
  {
  }

  lemma AreaAlgebra(c: real, a: real, u: real, v: real)
    ensures c * a * u * v == c * (a * u * v)
  {
  }

  lemma PrismSlopes(dom: VoxelDomain, source: real, reference: real, i: int, j: int, k: int, axis: int, plus: bool)
    requires dom.Valid() && Prism(dom) && Filled(dom, i, j, k) && 0 <= axis < 3
    ensures Slope(dom, dom.SystemOf(source, reference, None).initial, source, reference, i, j, k, axis, plus)
      == if axis == 0 then ((reference - source) / dom.shape.n0 as real) / dom.axialSpacing else 0.0
  {
    hide VoxelDomain.SystemOf, VoxelIndex, PotentialAt, Profile;
    var o := Offset(2 * axis + if plus then 1 else 0);
    PrismPotential(dom, source, reference, i, j, k);
    ProfileSteps(dom, source, reference, i);
    ProfileSteps(dom, source, reference, i - 1);
    if Filled(dom, i + o.0, j + o.1, k + o.2) {
      PrismPotential(dom, source, reference, i + o.0, j + o.1, k + o.2);
    } else if axis == 0 {
      assert !dom.shape.Contains(i + o.0, j, k);
    }
  }

  function JouleGrid(dom: VoxelDomain, x: Vec, conductivity: real, source: real, reference: real,
                     i: int): (int, int) -> real
    requires dom.Valid()
  {
    (j, k) => JouleAt(dom, x, conductivity, source, reference, i, j, k)
  }

  function JouleSlabs(dom: VoxelDomain, x: Vec, conductivity: real, source: real, reference: real): int -> real
    requires dom.Valid()
  {
    i => SlabSum(dom, JouleGrid(dom, x, conductivity, source, reference, i))
  }

  /** The heating of the whole domain, cell volumes included. */
  function JoulePower(dom: VoxelDomain, x: Vec, conductivity: real, source: real, reference: real): real
    requires dom.Valid()
  {
    Sum(dom.shape.n0, JouleSlabs(dom, x, conductivity, source, reference))
    * (dom.axialSpacing * dom.uSpacing * dom.vSpacing)
  }

  lemma PrismJoule(dom: VoxelDomain, conductivity: real, source: real, reference: real, i: int, j: int, k: int)
    requires dom.Valid() && Prism(dom) && dom.shape.Contains(i, j, k)
    ensures var e := ((reference - source) / dom.shape.n0 as real) / dom.axialSpacing;
      JouleAt(dom, dom.SystemOf(source, reference, None).initial, conductivity, source, reference, i, j, k)
      == conductivity * (e * e) * CrossSectionGrid(dom)(j, k)
  {
    hide VoxelDomain.SystemOf, Slope;
    assert Filled(dom, i, j, k) == Filled(dom, 0, j, k);
    if Filled(dom, i, j, k) {
      forall axis, plus | 0 <= axis < 3
        ensures Slope(dom, dom.SystemOf(source, reference, None).initial, source, reference, i, j, k, axis, plus)
          == if axis == 0 then ((reference - source) / dom.shape.n0 as real) / dom.axialSpacing else 0.0
      {
        PrismSlopes(dom, source, reference, i, j, k, axis, plus);
      }
    }
  }

  lemma PrismSlabPower(dom: VoxelDomain, conductivity: real, source: real, reference: real, i: int)
    requires dom.Valid() && Prism(dom) && 0 <= i < dom.shape.n0
    ensures var e := ((reference - source) / dom.shape.n0 as real) / dom.axialSpacing;
      JouleSlabs(dom, dom.SystemOf(source, reference, None).initial, conductivity, source, reference)(i)
      == conductivity * (e * e) * CrossSectionCells(dom)
  {
    hide VoxelDomain.SystemOf, JouleAt, Prism, CrossSectionGrid, SlabSum;
    var e := ((reference - source) / dom.shape.n0 as real) / dom.axialSpacing;
    var c, s := conductivity * (e * e), CrossSectionGrid(dom);
    var g := JouleGrid(dom, dom.SystemOf(source, reference, None).initial, conductivity, source, reference, i);
    forall j, k | 0 <= j < dom.shape.n1 && 0 <= k < dom.shape.n2 ensures g(j, k) == c * s(j, k) {
      PrismJoule(dom, conductivity, source, reference, i, j, k);
    }
    SlabSumScale(dom, c, s, g);
  }

  /** Joule's law on a prism: the heating summed over the cell volumes is voltage times current. */
  lemma PrismPower(dom: VoxelDomain, conductivity: real, source: real, reference: real)
    requires dom.Valid() && Prism(dom)
    ensures JoulePower(dom, dom.SystemOf(source, reference, None).initial, conductivity, source, reference)
      == (source - reference) * (conductivity * (source - reference) / dom.length * CrossSectionArea(dom))
  {
    hide VoxelDomain.SystemOf, Prism, CrossSectionCells, JouleSlabs;
    var x, n, h := dom.SystemOf(source, reference, None).initial, dom.shape.n0, dom.axialSpacing;
    FirstWeight(dom);
    var e := ((reference - source) / n as real) / h;
    var slabs := JouleSlabs(dom, x, conductivity, source, reference);
    var c, d := conductivity, source - reference;
    var power := c * (e * e) * CrossSectionCells(dom);
    forall i | 0 <= i < n ensures slabs(i) == power {
      PrismSlabPower(dom, conductivity, source, reference, i);
    }
    SumConstant(n, slabs, power);
    hide VoxelDomain.Valid;
    PowerAlgebra(c, d, n as real, h, dom.length, CrossSectionCells(dom), dom.uSpacing, dom.vSpacing, e);
  }

  lemma PowerAlgebra(c: real, d: real, n: real, h: real, length: real, a: real, u: real, v: real, e: real)
    requires n > 0.0 && h > 0.0 && length > 0.0 && h == length / n && e == (-d / n) / h
    ensures n * (c * (e * e) * a) * (h * u * v) == d * (c * d / length * (a * u * v))
  {
  }

  /** `_gradient`: both one-sided slopes along each axis, averaged. */
  method Gradient(dom: VoxelDomain, sys: FiniteVolumeSystem, values: Vec, globalIndex: int, source: real,
                  reference: real)
    returns (gradient: seq<real>)
    requires dom.Valid() && sys == dom.SystemOf(source, reference, None) && |values| == |dom.Cells()|
    requires Occupied(dom.occupancy, globalIndex)
    ensures |gradient| == 3
    ensures var i, j, k := AxialOf(globalIndex, dom.shape), UOf(globalIndex, dom.shape), VOf(globalIndex, dom.shape);
      forall axis | 0 <= axis < 3 :: gradient[axis] == GradientOf(dom, values, source, reference, i, j, k, axis)
  {
    hide VoxelDomain.SystemOf, VoxelIndex, AxialOf, UOf, VOf, Shape.Size, Slope;
    assert |dom.occupancy| == dom.shape.Size();
    Encode(globalIndex, dom.shape);
    var i, j, k := AxialOf(globalIndex, dom.shape), UOf(globalIndex, dom.shape), VOf(globalIndex, dom.shape);
    gradient := [];
    for axis := 0 to 3
      invariant |gradient| == axis
      invariant forall t | 0 <= t < axis :: gradient[t] == GradientOf(dom, values, source, reference, i, j, k, t)
    {
      var minus := OneSided(dom, sys, values, source, reference, i, j, k, axis, false);
      var plus := OneSided(dom, sys, values, source, reference, i, j, k, axis, true);
      gradient := gradient + [(minus + plus) / 2.0];
    }
  }

  // The slope on one side of a cell, read through the active index.
  method OneSided(dom: VoxelDomain, sys: FiniteVolumeSystem, values: Vec, source: real, reference: real, i: int, j: int,
                  k: int, axis: int, plus: bool)
    returns (slope: real)
    requires dom.Valid() && sys == dom.SystemOf(source, reference, None) && |values| == |dom.Cells()|
    requires Filled(dom, i, j, k) && 0 <= axis < 3
    ensures slope == Slope(dom, values, source, reference, i, j, k, axis, plus)
  {
    hide VoxelDomain.SystemOf, VoxelIndex, Shape.Size, Potential, ActiveBelow;
    var sh, h := dom.shape, Spacing(dom, axis);
    var o := Offset(2 * axis + if plus then 1 else 0);
    var center := values[sys.activeIndex[VoxelIndex(i, j, k, sh)]] by {
      StoredPotential(values, sys, dom, VoxelIndex(i, j, k, sh), source, reference);
    }
    StoredPotential(values, sys, dom, VoxelIndex(i, j, k, sh), source, reference);
    var inside := if plus then OnAxis(axis, i, j, k) < Extent(sh, axis) - 1 else OnAxis(axis, i, j, k) > 0;
    var other := -1;
    if inside {
      var n := VoxelIndex(i + o.0, j + o.1, k + o.2, sh);
      Decode(i + o.0, j + o.1, k + o.2, sh);
      ActiveIndexSign(sys, dom, n, source, reference);
      other := sys.activeIndex[n];
      if other >= 0 {
        StoredPotential(values, sys, dom, n, source, reference);
        return if plus then (values[other] - center) / h else (center - values[other]) / h;
      }
    }
    if plus {
      slope := if axis == 0 && i == sh.n0 - 1 then 2.0 * (reference - center) / h else 0.0;
    } else {
      slope := if axis == 0 && i == 0 then 2.0 * (center - source) / h else 0.0;
    }
  }

  lemma ActiveIndexSign(sys: FiniteVolumeSystem, dom: VoxelDomain, c: int, source: real, reference: real)
    requires dom.Valid() && sys == dom.SystemOf(source, reference, None) && 0 <= c < |dom.occupancy|
    ensures |sys.activeIndex| == |dom.occupancy| && (sys.activeIndex[c] >= 0 <==> dom.occupancy[c])
  {
  }
}
