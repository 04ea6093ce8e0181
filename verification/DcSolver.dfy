/** The numerical part of `_run_dc`: connectivity, assembly, solve and Joule heating in sequence. */
module DcSolver {
  import opened Vectors
  import opened VoxelGrid
  import opened Connectivity
  import opened LinearSystem
  import opened FiniteVolume
  import opened Options
  import opened DomainTheory
  import opened CellBalance
  import opened DcCurrent
  import opened PcgSolver
  import opened PrismConductor

  datatype Potentials = InvalidGeometry | Potentials(outcome: Outcome)

  lemma AcceptedConnected(dom: VoxelDomain)
    requires dom.Valid() && Accepts(dom)
    ensures ConnectedToTerminal(dom)
  {
    hide MeetsSlab, OneComponent;
  }

  /** From occupancy to potentials. A domain is rejected exactly when it misses a terminal slab or is
      not one component; on an accepted one the solver's "not positive definite" error cannot occur,
      enough iterations always suffice, and prisms are solved by the initial guess. */
  method SolvePotentials(dom: VoxelDomain, source: real, reference: real, tolerance: real, maxIterations: int)
    returns (result: Potentials)
    requires dom.Valid()
    ensures result.InvalidGeometry? <==> !Accepts(dom)
    ensures Accepts(dom) && tolerance >= 0.0 ==> !result.outcome.NotPositiveDefinite?
    ensures Accepts(dom) && tolerance >= 0.0 && maxIterations >= dom.occupiedCount ==> result.outcome.Solved?
    ensures Accepts(dom) && result.outcome.Solved? ==>
      var sys := dom.SystemOf(source, reference, None);
      sys.Shaped() && |result.outcome.solution| == sys.Size()
      && RelativeSquared(sys, sys.Residual(result.outcome.solution)) <= tolerance * tolerance
    ensures Accepts(dom) && tolerance >= 0.0 && Prism(dom) ==>
      result.outcome == Solved(dom.SystemOf(source, reference, None).initial, 0, 0.0)
  {
    hide VoxelDomain.SystemOf, VoxelDomain.DiagonalOf, Prism, CG.Spd, OneComponent, MeetsSlab;
    var verdict := ValidateConnectivity(dom.occupancy, dom.occupiedCount, dom.shape);
    if verdict != Accepted {
      return InvalidGeometry;
    }
    AcceptedConnected(dom);
    ConnectedNotIsolated(dom);
    var assembled := CreateScalarSystem(dom, source, reference, None);
    var sys := assembled.value;
    Shaped(dom, source, reference, None);
    SystemSize(dom, source, reference, None);
    AcceptedIsSpd(dom, source, reference, None);
    var outcome := SolvePcg(sys, tolerance, maxIterations);
    if tolerance >= 0.0 && Prism(dom) {
      PrismSolved(dom, source, reference, tolerance);
      assert outcome.Solved?;
      assert outcome.iterations == 0;
    }
    result := Potentials(outcome);
  }

  lemma PrismSolved(dom: VoxelDomain, source: real, reference: real, tolerance: real)
    requires dom.Valid() && Prism(dom) && tolerance >= 0.0
    ensures var sys := dom.SystemOf(source, reference, None);
      sys.Shaped() && WithinAt(sys, tolerance, 0) && CG.Nth(sys, 0).x == sys.initial
      && RelativeSquared(sys, sys.Residual(sys.initial)) == 0.0
  {
    hide VoxelDomain.SystemOf, VoxelDomain.DiagonalOf, Prism;
    PrismInitialExact(dom, source, reference);
    var sys := dom.SystemOf(source, reference, None);
    ZeroResidualWithin(sys, tolerance, sys.Residual(sys.initial));
    DotSelf(sys.Residual(sys.initial));
  }

  /** At tolerance zero the result solves the system, so the maximum principle and the constancy of the
      current hold of it. */
  lemma ZeroToleranceSolves(sys: FiniteVolumeSystem, x: Vec)
    requires sys.Shaped() && |x| == sys.Size() && RelativeSquared(sys, sys.Residual(x)) <= 0.0
    ensures Solves(sys, x)
  {
    hide Dot, FiniteVolumeSystem.Apply;
    var r := sys.Residual(x);
    DotSelf(r);
    NonpositiveQuotient(Dot(r, r), RhsSquared(sys));
    forall a | 0 <= a < |x| ensures sys.Apply(x)[a] == sys.rhs[a] {
      assert r[a] == sys.rhs[a] + -1.0 * sys.Apply(x)[a];
    }
  }

  lemma NonpositiveQuotient(a: real, b: real)
    requires b > 0.0 && a / b <= 0.0
    ensures a <= 0.0
  {
    assert a == (a / b) * b;
  }

  // The heating of active cell `a`, at its grid coordinates.
  function HeatOf(dom: VoxelDomain, x: Vec, conductivity: real, source: real, reference: real, c: int): real
    requires dom.Valid()
  {
    JouleAt(dom, x, conductivity, source, reference, AxialOf(c, dom.shape), UOf(c, dom.shape), VOf(c, dom.shape))
  }

  method ActiveHeat(dom: VoxelDomain, sys: FiniteVolumeSystem, solution: Vec, conductivity: real, source: real,
                    reference: real)
    returns (heat: Vec)
    requires dom.Valid() && sys == dom.SystemOf(source, reference, None) && |solution| == |dom.Cells()|
    ensures |heat| == |dom.Cells()|
    ensures forall a | 0 <= a < |heat| ::
      heat[a] == HeatOf(dom, solution, conductivity, source, reference, dom.Cells()[a])
  {
    hide VoxelDomain.SystemOf, GradientOf, VoxelIndex, AxialOf, UOf, VOf, Shape.Size, ActiveBelow, Rank;
    SystemWeights(dom, source, reference, None);
    heat := [];
    for active := 0 to |sys.activeCells|
      invariant |heat| == active
      invariant forall a | 0 <= a < active ::
        heat[a] == HeatOf(dom, solution, conductivity, source, reference, dom.Cells()[a])
    {
      var c := sys.activeCells[active];
      CellAt(dom, active);
      assert |dom.occupancy| == dom.shape.Size();
      Encode(c, dom.shape);
      var g := Gradient(dom, sys, solution, c, source, reference);
      heat := heat + [conductivity * (g[0] * g[0] + g[1] * g[1] + g[2] * g[2])];
    }
  }

  /** `dense_field`: active values at their grid positions, zero elsewhere. */
  method DenseField(dom: VoxelDomain, sys: FiniteVolumeSystem, activeValues: Vec, ghost source: real,
                    ghost reference: real)
    returns (values: seq<seq<seq<real>>>)
    requires dom.Valid() && sys == dom.SystemOf(source, reference, None) && |activeValues| == |dom.Cells()|
    ensures |values| == dom.shape.n0
    ensures forall i | 0 <= i < |values| :: |values[i]| == dom.shape.n2
    ensures forall i, row | 0 <= i < |values| && 0 <= row < |values[i]| ::
      values[i][row] == DenseRow(dom, activeValues, i, row)
  {
    hide VoxelDomain.SystemOf, DenseRow;
    values := [];
    for i := 0 to dom.shape.n0
      invariant |values| == i
      invariant forall m | 0 <= m < i :: |values[m]| == dom.shape.n2
      invariant forall m, row | 0 <= m < i && 0 <= row < |values[m]| ::
        values[m][row] == DenseRow(dom, activeValues, m, row)
    {
      var slab: seq<seq<real>> := [];
      for row := 0 to dom.shape.n2
        invariant |slab| == row
        invariant forall r | 0 <= r < row :: slab[r] == DenseRow(dom, activeValues, i, r)
      {
        var line := DenseLine(dom, sys, activeValues, i, row, source, reference);
        slab := slab + [line];
      }
      values := values + [slab];
    }
  }

  // Rows run against the v axis.
  function DenseRow(dom: VoxelDomain, values: Vec, i: int, row: int): seq<real> {
    seq(dom.shape.n1, j => if Filled(dom, i, j, dom.shape.n2 - row - 1)
        then PotentialAt(dom, values, i, j, dom.shape.n2 - row - 1) else 0.0)
  }

  method DenseLine(dom: VoxelDomain, sys: FiniteVolumeSystem, activeValues: Vec, i: int, row: int, ghost source: real,
                   ghost reference: real)
    returns (line: seq<real>)
    requires dom.Valid() && sys == dom.SystemOf(source, reference, None) && |activeValues| == |dom.Cells()|
    requires 0 <= i < dom.shape.n0 && 0 <= row < dom.shape.n2
    ensures line == DenseRow(dom, activeValues, i, row)
  {
    hide VoxelDomain.SystemOf, VoxelIndex, Shape.Size, Potential, ActiveBelow;
    var k := dom.shape.n2 - row - 1;
    line := [];
    for j := 0 to dom.shape.n1
      invariant |line| == j
      invariant forall t | 0 <= t < j ::
        line[t] == if Filled(dom, i, t, k) then PotentialAt(dom, activeValues, i, t, k) else 0.0
    {
      var c := VoxelIndex(i, j, k, dom.shape);
      Decode(i, j, k, dom.shape);
      ActiveIndexSign(sys, dom, c, source, reference);
      var active := sys.activeIndex[c];
      if active >= 0 {
        StoredPotential(activeValues, sys, dom, c, source, reference);
        line := line + [activeValues[active]];
      } else {
        line := line + [0.0];
      }
    }
  }

  /** The Joule-heating output: at every grid position the heating of its cell. */
  method JouleField(dom: VoxelDomain, sys: FiniteVolumeSystem, solution: Vec, conductivity: real, source: real,
                    reference: real)
    returns (field: seq<seq<seq<real>>>)
    requires dom.Valid() && sys == dom.SystemOf(source, reference, None) && |solution| == |dom.Cells()|
    ensures |field| == dom.shape.n0
    ensures forall i | 0 <= i < |field| :: |field[i]| == dom.shape.n2
    ensures forall i, row | 0 <= i < |field| && 0 <= row < |field[i]| ::
      field[i][row]
        == seq(dom.shape.n1, j => JouleAt(dom, solution, conductivity, source, reference, i, j, dom.shape.n2 - row - 1))
  {
    hide VoxelDomain.SystemOf, JouleAt;
    var heat := ActiveHeat(dom, sys, solution, conductivity, source, reference);
    field := DenseField(dom, sys, heat, source, reference);
    forall i, row | 0 <= i < |field| && 0 <= row < |field[i]|
      ensures field[i][row]
        == seq(dom.shape.n1, j => JouleAt(dom, solution, conductivity, source, reference, i, j, dom.shape.n2 - row - 1))
    {
      var k := dom.shape.n2 - row - 1;
      forall j | 0 <= j < dom.shape.n1
        ensures field[i][row][j] == JouleAt(dom, solution, conductivity, source, reference, i, j, k)
      {
        HeatPlaced(dom, solution, heat, conductivity, source, reference, i, j, k);
      }
    }
  }

  lemma HeatPlaced(dom: VoxelDomain, x: Vec, heat: Vec, conductivity: real, source: real, reference: real, i: int,
                   j: int, k: int)
    requires dom.Valid() && dom.shape.Contains(i, j, k) && |heat| == |dom.Cells()|
    requires forall a | 0 <= a < |heat| :: heat[a] == HeatOf(dom, x, conductivity, source, reference, dom.Cells()[a])
    ensures JouleAt(dom, x, conductivity, source, reference, i, j, k) == if Filled(dom, i, j, k)
      then PotentialAt(dom, heat, i, j, k) else 0.0
  {
    hide VoxelIndex, AxialOf, UOf, VOf, Shape.Size, GradientOf, ActiveBelow, Rank;
    Decode(i, j, k, dom.shape);
    if Filled(dom, i, j, k) {
      CellOf(dom, VoxelIndex(i, j, k, dom.shape));
    }
  }
}
