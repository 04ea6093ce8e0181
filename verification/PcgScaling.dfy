/** The solver is independent of the unit of the potentials: scaling right-hand side and initial guess
    scales the solution and nothing else. */
module PcgScaling {
  import opened RealSums
  import opened Vectors
  import opened LinearSystem
  import opened ConjugateGradients
  import opened PcgSolver

  function Times(c: real, x: Vec): (y: Vec)
    ensures |y| == |x|
  {
    seq(|x|, i requires 0 <= i < |x| => c * x[i])
  }

  /** The same matrix with everything else multiplied by `c`. */
  function Scaled(sys: FiniteVolumeSystem, c: real): FiniteVolumeSystem {
    sys.(rhs := Times(c, sys.rhs), initial := Times(c, sys.initial))
  }

  function ScaledIterate(s: Iterate, c: real): Iterate {
    Iterate(Times(c, s.x), Times(c, s.r), Times(c, s.p), c * c * s.rz)
  }

  function ScaledOutcome(out: Outcome, c: real): Outcome {
    match out
    case Solved(solution, n, relative) => Solved(Times(c, solution), n, relative)
    case _ => out
  }

  // --- Vectors ---

  lemma DotTimes(c: real, x: Vec, y: Vec)
    requires |x| == |y|
    ensures Dot(Times(c, x), Times(c, y)) == c * c * Dot(x, y)
  {
    hide At;
    var f, h := i => At(x, i) * At(y, i), i => At(Times(c, x), i) * At(Times(c, y), i);
    forall i | 0 <= i < |x| ensures h(i) == c * c * f(i) {
      TimesAt(c, x, i);
      TimesAt(c, y, i);
      ProductTimes(c, At(x, i), At(y, i), At(Times(c, x), i), At(Times(c, y), i));
    }
    SumScale(|x|, c * c, f, h);
  }

  lemma TimesAt(c: real, x: Vec, i: int)
    ensures At(Times(c, x), i) == c * At(x, i)
  {
  }

  lemma ProductTimes(c: real, p: real, q: real, cp: real, cq: real)
    requires cp == c * p && cq == c * q
    ensures cp * cq == c * c * (p * q)
  {
  }

  lemma AddScaledTimes(c: real, x: Vec, a: real, y: Vec)
    requires |x| == |y|
    ensures AddScaled(Times(c, x), a, Times(c, y)) == Times(c, AddScaled(x, a, y))
  {
    forall i | 0 <= i < |x| ensures AddScaled(Times(c, x), a, Times(c, y))[i] == Times(c, AddScaled(x, a, y))[i] {
      Distributes(c, x[i], a, y[i]);
    }
  }

  lemma Distributes(c: real, x: real, a: real, y: real)
    ensures c * x + a * (c * y) == c * (x + a * y)
  {
  }

  lemma DivideTimes(c: real, x: Vec, d: Vec)
    requires |x| == |d| && AllPositive(d)
    ensures Divide(Times(c, x), d) == Times(c, Divide(x, d))
  {
    forall i | 0 <= i < |x| ensures Divide(Times(c, x), d)[i] == Times(c, Divide(x, d))[i] {
      QuotientTimes(c, x[i], d[i]);
    }
  }

  lemma QuotientTimes(c: real, x: real, d: real)
    requires d > 0.0
    ensures c * x / d == c * (x / d)
  {
  }

  // --- One iteration ---

  lemma ApplyTimes(sys: FiniteVolumeSystem, c: real, x: Vec)
    requires sys.Shaped() && |x| == sys.Size()
    ensures Scaled(sys, c).Shaped() && Scaled(sys, c).Apply(Times(c, x)) == Times(c, sys.Apply(x))
  {
    hide FiniteVolumeSystem.Row;
    var t := Scaled(sys, c);
    forall a | 0 <= a < sys.Size() ensures t.Apply(Times(c, x))[a] == Times(c, sys.Apply(x))[a] {
      RowTimes(sys, c, x, a);
      assert t.Apply(Times(c, x))[a] == t.Row(Times(c, x), a, t.Slots());
      assert t.Slots() == sys.Slots();
      assert sys.Apply(x)[a] == sys.Row(x, a, sys.Slots());
      assert Times(c, sys.Apply(x))[a] == c * sys.Apply(x)[a];
    }
  }

  lemma RowTimes(sys: FiniteVolumeSystem, c: real, x: Vec, a: int)
    requires sys.Shaped() && |x| == sys.Size()
    ensures Scaled(sys, c).Row(Times(c, x), a, sys.Slots()) == c * sys.Row(x, a, sys.Slots())
  {
    hide At, FiniteVolumeSystem.Coupling;
    var t := Scaled(sys, c);
    var f, h := s => sys.Coupling(x, a, s), s => t.Coupling(Times(c, x), a, s);
    forall s | 0 <= s < sys.Slots() ensures h(s) == c * f(s) {
      CouplingTimes(sys, c, x, a, s);
    }
    SumScale(sys.Slots(), c, f, h);
    SumExt(sys.Slots(), f, s => sys.Coupling(x, a, s));
    SumExt(sys.Slots(), h, s => t.Coupling(Times(c, x), a, s));
    TimesAt(c, x, a);
    RowAlgebra(c, At(sys.diagonal, a), At(x, a), sys.OffDiagonal(x, a, sys.Slots()));
  }

  lemma RowAlgebra(c: real, d: real, x: real, o: real)
    ensures d * (c * x) - c * o == c * (d * x - o)
  {
  }

  lemma CouplingTimes(sys: FiniteVolumeSystem, c: real, x: Vec, a: int, s: int)
    requires sys.Shaped()
    ensures Scaled(sys, c).Coupling(Times(c, x), a, s) == c * sys.Coupling(x, a, s)
  {
    assert Scaled(sys, c).Neighbor(a, s) == sys.Neighbor(a, s);
    var b := sys.Neighbor(a, s);
    TimesAt(c, x, b);
    hide At;
    WeightTimes(c, At(sys.neighborWeights, s), At(x, b));
  }

  lemma WeightTimes(c: real, w: real, x: real)
    ensures w * (c * x) == c * (w * x)
  {
  }

  lemma StartTimes(sys: FiniteVolumeSystem, c: real)
    requires sys.Shaped()
    ensures Scaled(sys, c).Shaped() && Start(Scaled(sys, c)) == ScaledIterate(Start(sys), c)
  {
    hide Dot, FiniteVolumeSystem.Apply, Times, AddScaled, Divide;
    ApplyTimes(sys, c, sys.initial);
    AddScaledTimes(c, sys.rhs, -1.0, sys.Apply(sys.initial));
    var r := sys.Residual(sys.initial);
    DivideTimes(c, r, sys.diagonal);
    DotTimes(c, r, Divide(r, sys.diagonal));
  }

  lemma CurvatureTimes(sys: FiniteVolumeSystem, c: real, s: Iterate)
    requires Fits(sys, s)
    ensures Fits(Scaled(sys, c), ScaledIterate(s, c))
    ensures Curvature(Scaled(sys, c), ScaledIterate(s, c)) == c * c * Curvature(sys, s)
  {
    hide Dot, FiniteVolumeSystem.Apply, Times;
    ApplyTimes(sys, c, s.p);
    DotTimes(c, s.p, sys.Apply(s.p));
  }

  lemma SquareOfScale(c: real, v: real)
    requires c != 0.0
    ensures c * c > 0.0
    ensures c * c * v == 0.0 <==> v == 0.0
    ensures c * c * v > 0.0 <==> v > 0.0
  {
    SquarePositive(c, c * c);
    var q := c * c;
    if v > 0.0 {
      ProductPositive(q, v, q * v);
    } else if v < 0.0 {
      ProductPositive(q, -v, q * -v);
    }
  }

  // Quotients of scaled numbers, which are passed as `cp` and `cq`.
  lemma CancelScale(c: real, p: real, q: real, cp: real, cq: real)
    requires c != 0.0 && q != 0.0 && cp == c * c * p && cq == c * c * q
    ensures cq != 0.0 && cp / cq == p / q
  {
    SquareOfScale(c, q);
    var v := p / q;
    assert p == v * q;
    assert cp == v * cq;
  }

  lemma AdvanceTimes(sys: FiniteVolumeSystem, c: real, s: Iterate)
    requires Fits(sys, s) && c != 0.0
    ensures Fits(Scaled(sys, c), ScaledIterate(s, c))
    ensures Advance(Scaled(sys, c), ScaledIterate(s, c)) == ScaledIterate(Advance(sys, s), c)
  {
    hide Curvature, Times, Dot, FiniteVolumeSystem.Apply, AddScaled, Divide;
    CurvatureTimes(sys, c, s);
    var k, t := Curvature(sys, s), ScaledIterate(s, c);
    SquareOfScale(c, k);
    SquareOfScale(c, s.rz);
    if k != 0.0 && s.rz != 0.0 {
      CancelScale(c, s.rz, k, t.rz, Curvature(Scaled(sys, c), t));
      MovesTimes(sys, c, s);
    }
  }

  // An iteration that divides by nothing zero.
  lemma MovesTimes(sys: FiniteVolumeSystem, c: real, s: Iterate)
    requires Fits(sys, s) && c != 0.0 && Curvature(sys, s) != 0.0 && s.rz != 0.0
    requires var t := ScaledIterate(s, c);
      && Fits(Scaled(sys, c), t) && Curvature(Scaled(sys, c), t) != 0.0 && t.rz != 0.0
      && StepLength(Scaled(sys, c), t) == StepLength(sys, s)
    ensures Advance(Scaled(sys, c), ScaledIterate(s, c)) == ScaledIterate(Advance(sys, s), c)
  {
    hide Dot, FiniteVolumeSystem.Apply, Times, AddScaled, Divide, Curvature, StepLength;
    var a := StepLength(sys, s);
    var r := NextResidual(sys, s);
    var z := Divide(r, sys.diagonal);
    var rz := Dot(r, z);
    ApplyTimes(sys, c, s.p);
    AddScaledTimes(c, s.r, -a, sys.Apply(s.p));
    DivideTimes(c, r, sys.diagonal);
    DotTimes(c, r, z);
    CancelScale(c, rz, s.rz, c * c * rz, c * c * s.rz);
    AddScaledTimes(c, z, rz / s.rz, s.p);
    AddScaledTimes(c, s.x, a, s.p);
    var sys2, t := Scaled(sys, c), ScaledIterate(s, c);
    assert NextResidual(sys2, t) == Times(c, r);
    assert Advance(sys2, t).r == Times(c, r);
    assert Advance(sys2, t).rz == c * c * rz;
    assert Advance(sys2, t).x == Times(c, Advance(sys, s).x);
    assert (c * c * rz) / t.rz == rz / s.rz;
    assert Advance(sys2, t).p == Times(c, Advance(sys, s).p);
  }

  /** Every iterate is scaled. */
  lemma {:induction false} NthTimes(sys: FiniteVolumeSystem, c: real, k: nat)
    requires sys.Shaped() && c != 0.0
    ensures Scaled(sys, c).Shaped() && Nth(Scaled(sys, c), k) == ScaledIterate(Nth(sys, k), c)
  {
    hide Start, Advance, ScaledIterate, Times;
    StartTimes(sys, c);
    if k > 0 {
      NthTimes(sys, c, k - 1);
      AdvanceTimes(sys, c, Nth(sys, k - 1));
    }
  }

  // --- The outcome ---

  lemma RelativeTimes(sys: FiniteVolumeSystem, c: real, r: Vec)
    requires c != 0.0 && !IsZero(sys.rhs)
    ensures RelativeSquared(Scaled(sys, c), Times(c, r)) == RelativeSquared(sys, r)
  {
    DotSelf(sys.rhs);
    DotTimes(c, r, r);
    DotTimes(c, sys.rhs, sys.rhs);
    hide Dot, Times;
    var t := Scaled(sys, c);
    assert Dot(sys.rhs, sys.rhs) > 0.0;
    assert Dot(t.rhs, t.rhs) == c * c * Dot(sys.rhs, sys.rhs);
    CancelScale(c, Dot(r, r), Dot(sys.rhs, sys.rhs), Dot(Times(c, r), Times(c, r)), Dot(t.rhs, t.rhs));
  }

  lemma TestsTimes(sys: FiniteVolumeSystem, c: real, tolerance: real, k: nat)
    requires sys.Shaped() && c != 0.0 && !IsZero(sys.rhs)
    ensures Scaled(sys, c).Shaped()
    ensures WithinAt(Scaled(sys, c), tolerance, k) <==> WithinAt(sys, tolerance, k)
    ensures Curvature(Scaled(sys, c), Nth(Scaled(sys, c), k)) > 0.0 <==> Curvature(sys, Nth(sys, k)) > 0.0
    ensures RelativeSquared(Scaled(sys, c), Nth(Scaled(sys, c), k).r) == RelativeSquared(sys, Nth(sys, k).r)
  {
    hide Nth, Curvature, RelativeSquared, Times;
    NthTimes(sys, c, k);
    CurvatureTimes(sys, c, Nth(sys, k));
    SquareOfScale(c, Curvature(sys, Nth(sys, k)));
    RelativeTimes(sys, c, Nth(sys, k).r);
  }

  /** Unless the right-hand side is zero, the solver's outcome on the scaled system is the same kind after as
      many iterations and with the same relative residual, and its solution is scaled. */
  lemma OutcomeScales(sys: FiniteVolumeSystem, c: real, tolerance: real, maxIterations: int, out: Outcome)
    requires sys.Shaped() && c != 0.0 && !IsZero(sys.rhs) && IsOutcome(sys, tolerance, maxIterations, out)
    ensures Scaled(sys, c).Shaped() && IsOutcome(Scaled(sys, c), tolerance, maxIterations, ScaledOutcome(out, c))
  {
    hide Nth, Curvature, RelativeSquared, Times, WithinAt, Scaled, IsZero;
    var t := Scaled(sys, c);
    forall k: nat
      ensures t.Shaped()
      ensures WithinAt(t, tolerance, k) <==> WithinAt(sys, tolerance, k)
      ensures Curvature(t, Nth(t, k)) > 0.0 <==> Curvature(sys, Nth(sys, k)) > 0.0
    {
      TestsTimes(sys, c, tolerance, k);
    }
    match out
    case Solved(_, n, _) =>
      TestsTimes(sys, c, tolerance, n);
      NthTimes(sys, c, n);
    case NotPositiveDefinite =>
      var n: nat :| n < LastIteration(maxIterations) && FailsAt(sys, tolerance, n);
      TestsTimes(sys, c, tolerance, n);
      assert FailsAt(t, tolerance, n);
    case NotConverged(_) => TestsTimes(sys, c, tolerance, LastIteration(maxIterations));
  }

  /** There is only one outcome. */
  lemma OutcomeUnique(sys: FiniteVolumeSystem, tolerance: real, maxIterations: int, a: Outcome, b: Outcome)
    requires sys.Shaped() && IsOutcome(sys, tolerance, maxIterations, a) && IsOutcome(sys, tolerance, maxIterations, b)
    ensures a == b
  {
    hide Nth, Curvature, RelativeSquared, WithinAt;
    var i, j := StopsAt(sys, tolerance, maxIterations, a), StopsAt(sys, tolerance, maxIterations, b);
    assert i == j;
  }

  // The iteration at which the outcome is decided.
  ghost function StopsAt(sys: FiniteVolumeSystem, tolerance: real, maxIterations: int, out: Outcome): (n: nat)
    requires sys.Shaped() && IsOutcome(sys, tolerance, maxIterations, out)
    ensures n <= LastIteration(maxIterations) && GoesOn(sys, tolerance, n)
    ensures out.Solved? ==> n == out.iterations && WithinAt(sys, tolerance, n)
    ensures out.NotPositiveDefinite? ==>
      n < LastIteration(maxIterations) && !WithinAt(sys, tolerance, n) && Curvature(sys, Nth(sys, n)) <= 0.0
    ensures out.NotConverged? ==> n == LastIteration(maxIterations) && !WithinAt(sys, tolerance, n)
  {
    match out
    case Solved(_, n, _) => n
    case NotPositiveDefinite =>
      var n: nat :| n < LastIteration(maxIterations) && FailsAt(sys, tolerance, n);
      n
    case NotConverged(_) => LastIteration(maxIterations)
  }

  // --- What the preconditioner is ---

  /** No cell has a neighbour. */
  predicate Unlinked(sys: FiniteVolumeSystem) {
    sys.Shaped() && forall a, s :: 0 <= a < sys.Size() && 0 <= s < SLOTS ==> sys.neighbors[a][s] == -1
  }

  lemma UnlinkedApply(sys: FiniteVolumeSystem, x: Vec)
    requires Unlinked(sys) && |x| == sys.Size()
    ensures forall a :: 0 <= a < |x| ==> sys.Apply(x)[a] == sys.diagonal[a] * x[a]
  {
    forall a | 0 <= a < |x| ensures sys.Apply(x)[a] == sys.diagonal[a] * x[a] {
      forall s | 0 <= s < sys.Slots() ensures sys.Coupling(x, a, s) == 0.0 {}
      SumZero(sys.Slots(), s => sys.Coupling(x, a, s));
    }
  }

  lemma UnlinkedDivide(sys: FiniteVolumeSystem, r: Vec)
    requires Unlinked(sys) && |r| == sys.Size()
    ensures sys.Apply(Divide(r, sys.diagonal)) == r
  {
    var z := Divide(r, sys.diagonal);
    UnlinkedApply(sys, z);
    hide FiniteVolumeSystem.Apply;
    forall a | 0 <= a < |r| ensures sys.Apply(z)[a] == r[a] {
      assert sys.diagonal[a] * (r[a] / sys.diagonal[a]) == r[a];
    }
  }

  lemma LessItself(r: Vec, a: real)
    requires a == 1.0
    ensures IsZero(AddScaled(r, -a, r))
  {
  }

  lemma EqualQuotient(a: real, b: real)
    requires a == b && b != 0.0
    ensures a / b == 1.0
  {
  }

  // An iterate whose direction the matrix maps to its residual is the last one.
  lemma LastStep(sys: FiniteVolumeSystem, s: Iterate)
    requires Fits(sys, s) && sys.Apply(s.p) == s.r && Curvature(sys, s) == s.rz
    requires s.rz == 0.0 ==> IsZero(s.r)
    ensures IsZero(Advance(sys, s).r)
  {
    hide Dot, FiniteVolumeSystem.Apply, AddScaled, Divide, IsZero, Curvature;
    if s.rz != 0.0 {
      EqualQuotient(s.rz, Curvature(sys, s));
      LessItself(s.r, StepLength(sys, s));
    }
  }

  /** Without links the preconditioned iteration needs one step, from any initial guess. */
  lemma UnlinkedSolvedAtOnce(sys: FiniteVolumeSystem)
    requires Unlinked(sys)
    ensures IsZero(Nth(sys, 1).r)
  {
    hide Dot, FiniteVolumeSystem.Apply, AddScaled, Divide, FiniteVolumeSystem.Residual, IsZero, Advance;
    var s := Nth(sys, 0);
    UnlinkedDivide(sys, s.r);
    DividePositive(s.r, sys.diagonal);
    DotCommutes(s.p, s.r);
    LastStep(sys, s);
  }
}
