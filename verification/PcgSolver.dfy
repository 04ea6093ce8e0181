/** The solver loop of `solve_pcg`, proved against the iteration of ConjugateGradients. Norms are
    kept squared, so that no square root is needed in exact arithmetic. */
module PcgSolver {
  import opened Vectors
  import opened LinearSystem
  import opened ConjugateGradients

  datatype Outcome =
    | Solved(solution: Vec, iterations: nat, relativeSquared: real)
    | NotPositiveDefinite
    | NotConverged(relativeSquared: real)

  /** The squared norm of the right-hand side, or one when that is zero. */
  function RhsSquared(sys: FiniteVolumeSystem): (b: real)
    ensures b > 0.0
  {
    DotSelf(sys.rhs);
    if Dot(sys.rhs, sys.rhs) == 0.0 then 1.0 else Dot(sys.rhs, sys.rhs)
  }

  function RelativeSquared(sys: FiniteVolumeSystem, r: Vec): real {
    Dot(r, r) / RhsSquared(sys)
  }

  /** The test of the relative residual against a tolerance of either sign. */
  predicate Within(sys: FiniteVolumeSystem, tolerance: real, r: Vec) {
    tolerance >= 0.0 && RelativeSquared(sys, r) <= tolerance * tolerance
  }

  ghost predicate WithinAt(sys: FiniteVolumeSystem, tolerance: real, k: nat)
    requires sys.Shaped()
  {
    Within(sys, tolerance, Nth(sys, k).r)
  }

  function Energy(sys: FiniteVolumeSystem, x: Vec): real
    requires sys.Shaped() && |x| == sys.Size()
  {
    Dot(x, sys.Apply(x)) / 2.0 - Dot(sys.rhs, x)
  }

  lemma ZeroResidualWithin(sys: FiniteVolumeSystem, tolerance: real, r: Vec)
    requires tolerance >= 0.0 && IsZero(r)
    ensures Within(sys, tolerance, r)
  {
    DotSelf(r);
    SquarePositive(tolerance, tolerance * tolerance);
  }

  /** The energy along the line from `x` in direction `p`. */
  lemma EnergyAlongLine(sys: FiniteVolumeSystem, x: Vec, a: real, p: Vec)
    requires Spd(sys) && |x| == |p| == sys.Size()
    ensures Energy(sys, AddScaled(x, a, p))
         == Energy(sys, x) - a * Dot(sys.Residual(x), p) + a * a * Dot(p, sys.Apply(p)) / 2.0
  {
    hide Dot, FiniteVolumeSystem.Apply, AddScaled;
    var y, ax, ap := AddScaled(x, a, p), sys.Apply(x), sys.Apply(p);
    sys.ApplyLinear(x, a, p);
    DotAddScaledLeft(x, a, p, sys.Apply(y));
    DotAddScaledRight(ax, a, ap, x);
    DotAddScaledRight(ax, a, ap, p);
    DotAddScaledRight(x, a, p, sys.rhs);
    DotAddScaledLeft(sys.rhs, -1.0, ax, p);
    DotCommutes(ax, p);
    assert Dot(x, ap) == Dot(p, ax);
    LineAlgebra(a, Dot(x, ax), Dot(p, ax), Dot(p, ap), Dot(sys.rhs, x), Dot(sys.rhs, p));
  }

  lemma LineAlgebra(a: real, xx: real, px: real, pp: real, bx: real, bp: real)
    ensures ((xx + a * px) + a * (px + a * pp)) / 2.0 - (bx + a * bp)
         == (xx / 2.0 - bx) - a * (bp - px) + a * a * pp / 2.0
  {
  }

  lemma StepAlgebra(rz: real, c: real)
    requires rz > 0.0 && c > 0.0
    ensures var a := rz / c; -a * rz + a * a * c / 2.0 < 0.0
  {
  }

  /** Every step of the iteration strictly lowers the energy. */
  lemma EnergyDecreases(sys: FiniteVolumeSystem, k: nat)
    requires Spd(sys) && Live(sys, k)
    ensures Energy(sys, Nth(sys, k + 1).x) < Energy(sys, Nth(sys, k).x)
  {
    hide Dot, FiniteVolumeSystem.Apply, AddScaled, Nth, Energy, FiniteVolumeSystem.Residual;
    var s := Nth(sys, k);
    Conjugacy(sys, k);
    assert Aligned(sys, k);
    LiveStep(sys, k);
    AlwaysConsistent(sys, k);
    EnergyAlongLine(sys, s.x, StepLength(sys, s), s.p);
    StepAlgebra(s.rz, Curvature(sys, s));
  }

  // In the loop the second divisor cannot be zero once the first is positive.
  lemma CurvatureNeedsResidual(sys: FiniteVolumeSystem, s: Iterate)
    requires Consistent(sys, s) && Curvature(sys, s) > 0.0
    ensures s.rz > 0.0
  {
    hide Dot, FiniteVolumeSystem.Apply;
    DividePositive(s.r, sys.diagonal);
    if IsZero(s.r) {
      DotZero(s.p, sys.Apply(s.p));
    }
  }

  lemma DefiniteUntilWithin(sys: FiniteVolumeSystem, tolerance: real, k: nat)
    requires Spd(sys) && tolerance >= 0.0 && !WithinAt(sys, tolerance, k)
    ensures Curvature(sys, Nth(sys, k)) > 0.0
  {
    if !Live(sys, k) {
      ZeroResidualWithin(sys, tolerance, Nth(sys, k).r);
    } else {
      Conjugacy(sys, k);
      assert Aligned(sys, k);
      LiveStep(sys, k);
    }
  }

  lemma EventuallyWithin(sys: FiniteVolumeSystem, tolerance: real)
    requires Spd(sys) && tolerance >= 0.0
    ensures WithinAt(sys, tolerance, sys.Size())
  {
    FiniteTermination(sys);
    ZeroResidualWithin(sys, tolerance, Nth(sys, sys.Size()).r);
  }

  method AddScaledInPlace(a: array<real>, c: real, v: Vec)
    requires a.Length == |v|
    modifies a
    ensures a[..] == AddScaled(old(a[..]), c, v)
  {
    ghost var was := a[..];
    for i := 0 to a.Length
      invariant forall j :: 0 <= j < i ==> a[j] == was[j] + c * v[j]
      invariant forall j :: i <= j < a.Length ==> a[j] == was[j]
    {
      a[i] := a[i] + c * v[i];
    }
    assert forall j :: 0 <= j < |was| ==> a[..][j] == AddScaled(was, c, v)[j];
  }

  method CopyOf(v: Vec) returns (a: array<real>)
    ensures fresh(a) && a[..] == v
  {
    a := new real[|v|](i requires 0 <= i < |v| => v[i]);
  }

  /** The iterations before `n` neither met the tolerance nor failed the curvature test. */
  ghost predicate GoesOn(sys: FiniteVolumeSystem, tolerance: real, n: nat)
    requires sys.Shaped()
  {
    forall k: nat :: k < n ==> !WithinAt(sys, tolerance, k) && Curvature(sys, Nth(sys, k)) > 0.0
  }

  /** The number of the last iterate that is allowed. */
  function LastIteration(maxIterations: int): nat {
    if maxIterations > 0 then maxIterations else 0
  }

  /** What an outcome says about the iteration. */
  ghost predicate IsOutcome(sys: FiniteVolumeSystem, tolerance: real, maxIterations: int, out: Outcome)
    requires sys.Shaped()
  {
    match out
    case Solved(solution, n, relative) =>
      && n <= LastIteration(maxIterations) && GoesOn(sys, tolerance, n) && WithinAt(sys, tolerance, n)
      && solution == Nth(sys, n).x && relative == RelativeSquared(sys, Nth(sys, n).r)
    case NotPositiveDefinite =>
      exists n: nat :: n < LastIteration(maxIterations) && FailsAt(sys, tolerance, n)
    case NotConverged(relative) =>
      var n := LastIteration(maxIterations);
      GoesOn(sys, tolerance, n) && !WithinAt(sys, tolerance, n) && relative == RelativeSquared(sys, Nth(sys, n).r)
  }

  ghost predicate FailsAt(sys: FiniteVolumeSystem, tolerance: real, n: nat)
    requires sys.Shaped()
  {
    GoesOn(sys, tolerance, n) && !WithinAt(sys, tolerance, n) && Curvature(sys, Nth(sys, n)) <= 0.0
  }

  lemma RelativeMeans(sys: FiniteVolumeSystem, r: Vec)
    ensures Dot(sys.rhs, sys.rhs) > 0.0 ==> RelativeSquared(sys, r) * Dot(sys.rhs, sys.rhs) == Dot(r, r)
    ensures IsZero(sys.rhs) ==> RelativeSquared(sys, r) == Dot(r, r)
  {
    DotSelf(sys.rhs);
    hide Dot;
    var b := Dot(sys.rhs, sys.rhs);
    if b > 0.0 {
      assert Dot(r, r) / b * b == Dot(r, r);
    }
  }

  /** `solve_pcg`: the first iterate within the tolerance, if there is one in time. */
  method SolvePcg(sys: FiniteVolumeSystem, tolerance: real, maxIterations: int) returns (out: Outcome)
    requires sys.Shaped()
    ensures IsOutcome(sys, tolerance, maxIterations, out)
    ensures out.Solved? ==>
      && |out.solution| == sys.Size()
      && out.relativeSquared == RelativeSquared(sys, sys.Residual(out.solution)) <= tolerance * tolerance
    ensures out.Solved? && Dot(sys.rhs, sys.rhs) > 0.0 ==>
      var r := sys.Residual(out.solution);
      Dot(r, r) == out.relativeSquared * Dot(sys.rhs, sys.rhs)
    ensures out.Solved? && IsZero(sys.rhs) ==>
      var r := sys.Residual(out.solution);
      Dot(r, r) == out.relativeSquared
    ensures out.Solved? ==> out.iterations == 0 || out.iterations <= maxIterations
    ensures out.NotConverged? ==> forall k: nat :: k == 0 || k <= maxIterations ==> !WithinAt(sys, tolerance, k)
    ensures Spd(sys) && tolerance >= 0.0 ==> !out.NotPositiveDefinite?
    ensures Spd(sys) && tolerance >= 0.0 && maxIterations >= sys.Size() ==> out.Solved? && out.iterations <= sys.Size()
  {
    hide Dot, FiniteVolumeSystem.Apply, AddScaled, Divide, RelativeSquared, RhsSquared, Spd, IsZero,
      FiniteVolumeSystem.Residual, GoesOn, IsOutcome;
    var solution := CopyOf(sys.initial);
    var product := sys.ApplyMatrix(solution[..]);
    var residual := CopyOf(AddScaled(sys.rhs, -1.0, product));
    assert residual[..] == sys.Residual(sys.initial) by { ResidualIsDifference(sys, sys.initial); }
    var preconditioned := Divide(residual[..], sys.diagonal);
    var direction := preconditioned;
    var rz := Dot(residual[..], preconditioned);
    var relative := RelativeSquared(sys, residual[..]);
    if Within(sys, tolerance, residual[..]) {
      NothingYet(sys, tolerance);
      SolvedAt(sys, tolerance, maxIterations, 0);
      OutcomeFacts(sys, tolerance, maxIterations, Solved(solution[..], 0, relative));
      return Solved(solution[..], 0, relative);
    }
    NothingYet(sys, tolerance);
    var iteration := 1;
    while iteration <= maxIterations
      invariant 1 <= iteration && (iteration == 1 || iteration <= maxIterations + 1)
      invariant Nth(sys, iteration - 1) == Iterate(solution[..], residual[..], direction, rz)
      invariant relative == RelativeSquared(sys, residual[..])
      invariant GoesOn(sys, tolerance, iteration - 1) && !WithinAt(sys, tolerance, iteration - 1)
      invariant fresh(solution) && fresh(residual) && solution != residual
    {
      ghost var s := Nth(sys, iteration - 1);
      product := sys.ApplyMatrix(direction);
      var denominator := Dot(direction, product);
      assert denominator == Curvature(sys, s);
      if denominator <= 0.0 {
        FailedAt(sys, tolerance, maxIterations, iteration - 1);
        OutcomeFacts(sys, tolerance, maxIterations, NotPositiveDefinite);
        return NotPositiveDefinite;
      }
      AlwaysConsistent(sys, iteration - 1);
      CurvatureNeedsResidual(sys, s);
      var alpha := rz / denominator;
      AddScaledInPlace(solution, alpha, direction);
      AddScaledInPlace(residual, -alpha, product);
      relative := RelativeSquared(sys, residual[..]);
      assert Nth(sys, iteration) == Advance(sys, s);
      OneMore(sys, tolerance, iteration - 1);
      if Within(sys, tolerance, residual[..]) {
        SolvedAt(sys, tolerance, maxIterations, iteration);
        OutcomeFacts(sys, tolerance, maxIterations, Solved(solution[..], iteration, relative));
        return Solved(solution[..], iteration, relative);
      }
      preconditioned := Divide(residual[..], sys.diagonal);
      var next := Dot(residual[..], preconditioned);
      direction := AddScaled(preconditioned, next / rz, direction);
      rz := next;
      iteration := iteration + 1;
    }
    NotConvergedAt(sys, tolerance, maxIterations);
    OutcomeFacts(sys, tolerance, maxIterations, NotConverged(relative));
    return NotConverged(relative);
  }

  lemma NothingYet(sys: FiniteVolumeSystem, tolerance: real)
    requires sys.Shaped()
    ensures GoesOn(sys, tolerance, 0)
  {
  }

  lemma OneMore(sys: FiniteVolumeSystem, tolerance: real, n: nat)
    requires sys.Shaped() && GoesOn(sys, tolerance, n)
    requires !WithinAt(sys, tolerance, n) && Curvature(sys, Nth(sys, n)) > 0.0
    ensures GoesOn(sys, tolerance, n + 1)
  {
    hide Within, Curvature, Nth;
  }

  lemma FailedAt(sys: FiniteVolumeSystem, tolerance: real, maxIterations: int, n: nat)
    requires sys.Shaped() && n < maxIterations && FailsAt(sys, tolerance, n)
    ensures IsOutcome(sys, tolerance, maxIterations, NotPositiveDefinite)
  {
  }

  lemma NotConvergedAt(sys: FiniteVolumeSystem, tolerance: real, maxIterations: int)
    requires sys.Shaped()
    requires var n := LastIteration(maxIterations); GoesOn(sys, tolerance, n) && !WithinAt(sys, tolerance, n)
    ensures var n := LastIteration(maxIterations);
      IsOutcome(sys, tolerance, maxIterations, NotConverged(RelativeSquared(sys, Nth(sys, n).r)))
  {
  }

  lemma ResidualIsDifference(sys: FiniteVolumeSystem, x: Vec)
    requires sys.Shaped() && |x| == sys.Size()
    ensures sys.Residual(x) == AddScaled(sys.rhs, -1.0, sys.Apply(x))
  {
  }

  lemma SolvedAt(sys: FiniteVolumeSystem, tolerance: real, maxIterations: int, n: nat)
    requires sys.Shaped() && GoesOn(sys, tolerance, n) && WithinAt(sys, tolerance, n)
    requires n <= LastIteration(maxIterations)
    ensures IsOutcome(sys, tolerance, maxIterations, Solved(Nth(sys, n).x, n, RelativeSquared(sys, Nth(sys, n).r)))
  {
  }

  // What an outcome means for the residual, and when an error cannot occur.
  lemma OutcomeFacts(sys: FiniteVolumeSystem, tolerance: real, maxIterations: int, out: Outcome)
    requires sys.Shaped() && IsOutcome(sys, tolerance, maxIterations, out)
    ensures out.Solved? ==>
      && |out.solution| == sys.Size()
      && out.relativeSquared == RelativeSquared(sys, sys.Residual(out.solution)) <= tolerance * tolerance
    ensures out.Solved? && Dot(sys.rhs, sys.rhs) > 0.0 ==>
      var r := sys.Residual(out.solution);
      Dot(r, r) == out.relativeSquared * Dot(sys.rhs, sys.rhs)
    ensures out.Solved? && IsZero(sys.rhs) ==>
      var r := sys.Residual(out.solution);
      Dot(r, r) == out.relativeSquared
    ensures out.Solved? ==> out.iterations == 0 || out.iterations <= maxIterations
    ensures out.NotConverged? ==> forall k: nat :: k == 0 || k <= maxIterations ==> !WithinAt(sys, tolerance, k)
    ensures Spd(sys) && tolerance >= 0.0 ==> !out.NotPositiveDefinite?
    ensures Spd(sys) && tolerance >= 0.0 && maxIterations >= sys.Size() ==> out.Solved? && out.iterations <= sys.Size()
  {
    hide Dot, FiniteVolumeSystem.Apply, Nth, RelativeSquared, RhsSquared, IsZero, Spd;
    if out.Solved? {
      AlwaysConsistent(sys, out.iterations);
      RelativeMeans(sys, Nth(sys, out.iterations).r);
    }
    if Spd(sys) && tolerance >= 0.0 {
      EventuallyWithin(sys, tolerance);
      if out.NotPositiveDefinite? {
        var n: nat :| n < LastIteration(maxIterations) && FailsAt(sys, tolerance, n);
        DefiniteUntilWithin(sys, tolerance, n);
        assert false;
      }
    }
  }
}
