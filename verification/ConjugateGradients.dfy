/** The preconditioned conjugate-gradient iteration as a function of the iteration number, and its
    theory in exact arithmetic: conjugate directions, orthogonal residuals, finite termination. */
module ConjugateGradients {
  import opened Vectors
  import opened LinearSystem
  import opened OrthogonalFamilies

  datatype Iterate = Iterate(x: Vec, r: Vec, p: Vec, rz: real)

  predicate Fits(sys: FiniteVolumeSystem, s: Iterate) {
    sys.Shaped() && |s.x| == |s.r| == |s.p| == sys.Size()
  }

  function Start(sys: FiniteVolumeSystem): (s: Iterate)
    requires sys.Shaped()
    ensures Fits(sys, s)
  {
    var r := sys.Residual(sys.initial);
    var z := Divide(r, sys.diagonal);
    Iterate(sys.initial, r, z, Dot(r, z))
  }

  function Curvature(sys: FiniteVolumeSystem, s: Iterate): real
    requires Fits(sys, s)
  {
    Dot(s.p, sys.Apply(s.p))
  }

  function StepLength(sys: FiniteVolumeSystem, s: Iterate): real
    requires Fits(sys, s) && Curvature(sys, s) != 0.0
  {
    s.rz / Curvature(sys, s)
  }

  function NextResidual(sys: FiniteVolumeSystem, s: Iterate): (r: Vec)
    requires Fits(sys, s) && Curvature(sys, s) != 0.0
    ensures |r| == sys.Size()
  {
    AddScaled(s.r, -StepLength(sys, s), sys.Apply(s.p))
  }

  /** One iteration; the iterate stays put where the iteration divides by zero. */
  function Advance(sys: FiniteVolumeSystem, s: Iterate): (t: Iterate)
    requires Fits(sys, s)
    ensures Fits(sys, t)
  {
    if Curvature(sys, s) == 0.0 || s.rz == 0.0 then s
    else
      var r := NextResidual(sys, s);
      var z := Divide(r, sys.diagonal);
      var rz := Dot(r, z);
      Iterate(AddScaled(s.x, StepLength(sys, s), s.p), r, AddScaled(z, rz / s.rz, s.p), rz)
  }

  function Nth(sys: FiniteVolumeSystem, k: nat): (s: Iterate)
    requires sys.Shaped()
    ensures Fits(sys, s)
  {
    if k == 0 then Start(sys) else Advance(sys, Nth(sys, k - 1))
  }

  /** The preconditioned residual of iteration `k`. */
  function Preconditioned(sys: FiniteVolumeSystem, k: nat): (z: Vec)
    requires sys.Shaped()
    ensures |z| == sys.Size()
  {
    Divide(Nth(sys, k).r, sys.diagonal)
  }

  ghost predicate Spd(sys: FiniteVolumeSystem) {
    sys.Shaped() && sys.SelfAdjoint() && sys.PositiveDefinite()
  }

  /** The part of the invariant that needs no symmetry: the updated residual is the true one. */
  ghost predicate Consistent(sys: FiniteVolumeSystem, s: Iterate) {
    && Fits(sys, s)
    && s.r == sys.Residual(s.x)
    && s.rz == Dot(s.r, Divide(s.r, sys.diagonal))
    && (IsZero(s.r) ==> IsZero(s.p))
  }

  lemma StartConsistent(sys: FiniteVolumeSystem)
    requires sys.Shaped()
    ensures Consistent(sys, Start(sys))
  {
    hide Dot, FiniteVolumeSystem.Apply, FiniteVolumeSystem.Residual;
  }

  lemma ResidualUpdate(sys: FiniteVolumeSystem, x: Vec, a: real, p: Vec)
    requires sys.Shaped() && |x| == |p| == sys.Size()
    ensures sys.Residual(AddScaled(x, a, p)) == AddScaled(sys.Residual(x), -a, sys.Apply(p))
  {
    sys.ApplyLinear(x, a, p);
  }

  lemma AdvanceConsistent(sys: FiniteVolumeSystem, s: Iterate)
    requires Consistent(sys, s)
    ensures Consistent(sys, Advance(sys, s))
  {
    hide Dot;
    if Curvature(sys, s) != 0.0 && s.rz != 0.0 {
      var t := Advance(sys, s);
      ResidualUpdate(sys, s.x, StepLength(sys, s), s.p);
      DividePositive(t.r, sys.diagonal);
    }
  }

  lemma {:induction false} AlwaysConsistent(sys: FiniteVolumeSystem, k: nat)
    requires sys.Shaped()
    ensures Consistent(sys, Nth(sys, k))
  {
    hide Consistent, Start, Advance;
    if k == 0 {
      StartConsistent(sys);
    } else {
      AlwaysConsistent(sys, k - 1);
      AdvanceConsistent(sys, Nth(sys, k - 1));
    }
  }

  predicate Live(sys: FiniteVolumeSystem, k: nat)
    requires sys.Shaped()
  {
    !IsZero(Nth(sys, k).r)
  }

  /** Direction `j` is conjugate to direction `i`, and residual `j` orthogonal to direction and
      preconditioned residual `i`. */
  ghost predicate Conjugate(sys: FiniteVolumeSystem, j: nat, i: nat)
    requires sys.Shaped()
  {
    && Dot(Nth(sys, j).p, sys.Apply(Nth(sys, i).p)) == 0.0
    && Dot(Nth(sys, j).r, Nth(sys, i).p) == 0.0
    && Dot(Nth(sys, j).r, Preconditioned(sys, i)) == 0.0
  }

  ghost predicate Aligned(sys: FiniteVolumeSystem, j: nat)
    requires sys.Shaped()
  {
    Dot(Nth(sys, j).r, Nth(sys, j).p) == Nth(sys, j).rz
  }

  ghost predicate ConjugateUpTo(sys: FiniteVolumeSystem, k: nat)
    requires sys.Shaped()
  {
    && (forall j: nat :: j <= k ==> Aligned(sys, j))
    && (forall j: nat, i: nat :: i < j <= k ==> Conjugate(sys, j, i))
  }

  // Once the residual vanishes the iteration stays where it is.
  lemma {:induction false} Stuck(sys: FiniteVolumeSystem, k: nat, j: nat)
    requires sys.Shaped() && k <= j && !Live(sys, k)
    ensures Nth(sys, j) == Nth(sys, k)
  {
    hide Consistent, Advance, IsZero;
    if k < j {
      Stuck(sys, k, j - 1);
      AlwaysConsistent(sys, k);
      VanishedStays(sys, Nth(sys, k));
    }
  }

  lemma VanishedStays(sys: FiniteVolumeSystem, s: Iterate)
    requires Consistent(sys, s) && IsZero(s.r)
    ensures Advance(sys, s) == s
  {
    hide FiniteVolumeSystem.Apply, IsZero, Divide, AddScaled;
    DotZero(s.p, sys.Apply(s.p));
  }

  // The exact shape of the step from `s` to `t`.
  ghost predicate Steps(sys: FiniteVolumeSystem, s: Iterate, t: Iterate) {
    && Fits(sys, s) && Fits(sys, t)
    && s.rz > 0.0 && Curvature(sys, s) > 0.0
    && t.x == AddScaled(s.x, StepLength(sys, s), s.p)
    && t.r == NextResidual(sys, s)
    && t.p == AddScaled(Divide(t.r, sys.diagonal), t.rz / s.rz, s.p)
    && t.rz == Dot(t.r, Divide(t.r, sys.diagonal))
  }

  lemma PositiveCurvature(sys: FiniteVolumeSystem, s: Iterate)
    requires Spd(sys) && Consistent(sys, s) && !IsZero(s.r) && Dot(s.r, s.p) == s.rz
    ensures s.rz > 0.0 && Curvature(sys, s) > 0.0
  {
    hide Dot, FiniteVolumeSystem.Apply;
    DividePositive(s.r, sys.diagonal);
    if IsZero(s.p) {
      DotZero(s.r, s.p);
    }
  }

  lemma LiveStep(sys: FiniteVolumeSystem, k: nat)
    requires Spd(sys) && Live(sys, k) && Aligned(sys, k)
    ensures Steps(sys, Nth(sys, k), Nth(sys, k + 1))
  {
    hide Dot, Curvature, StepLength, FiniteVolumeSystem.Residual, FiniteVolumeSystem.Apply, Divide, NextResidual,
      AddScaled;
    AlwaysConsistent(sys, k);
    PositiveCurvature(sys, Nth(sys, k));
  }

  lemma ResidualStep(sys: FiniteVolumeSystem, k: nat, i: nat)
    requires Spd(sys) && Live(sys, k) && ConjugateUpTo(sys, k) && i <= k
    ensures Dot(Nth(sys, k + 1).r, Nth(sys, i).p) == 0.0
  {
    hide Dot, FiniteVolumeSystem.Apply, Nth, AddScaled, Divide;
    LiveStep(sys, k);
    var s, p, q := Nth(sys, k), Nth(sys, i).p, sys.Apply(Nth(sys, k).p);
    DotAddScaledLeft(s.r, -StepLength(sys, s), q, p);
    DotCommutes(q, p);
    if i < k {
      assert Conjugate(sys, k, i);
      assert Dot(p, q) == Dot(s.p, sys.Apply(p));
    } else {
      assert Aligned(sys, k);
    }
  }

  lemma PreconditionedStep(sys: FiniteVolumeSystem, k: nat, i: nat)
    requires Spd(sys) && Live(sys, k) && ConjugateUpTo(sys, k) && i <= k
    ensures Dot(Nth(sys, k + 1).r, Preconditioned(sys, i)) == 0.0
  {
    hide Dot, FiniteVolumeSystem.Apply, AddScaled, Divide, Curvature, StepLength, NextResidual;
    ResidualStep(sys, k, i);
    if i > 0 {
      LiveBefore(sys, i - 1, k);
      ResidualStep(sys, k, i - 1);
      LiveStep(sys, i - 1);
      var r, s, t := Nth(sys, k + 1).r, Nth(sys, i - 1), Nth(sys, i);
      DotAddScaledRight(Preconditioned(sys, i), t.rz / s.rz, s.p, r);
    }
  }

  lemma LiveBefore(sys: FiniteVolumeSystem, i: nat, k: nat)
    requires sys.Shaped() && i <= k && Live(sys, k)
    ensures Live(sys, i)
  {
    if !Live(sys, i) {
      Stuck(sys, i, k);
    }
  }

  // How the direction update cancels the curvature it would inherit.
  lemma CancelledCurvature(rz: real, next: real, c: real, w: real)
    requires rz > 0.0 && c > 0.0 && -(rz / c) * w == next
    ensures w + next / rz * c == 0.0
  {
  }

  lemma NonzeroFactor(a: real, w: real)
    requires a * w == 0.0 && a > 0.0
    ensures w == 0.0
  {
  }

  lemma PositiveStep(sys: FiniteVolumeSystem, s: Iterate)
    requires Fits(sys, s) && s.rz > 0.0 && Curvature(sys, s) > 0.0
    ensures StepLength(sys, s) > 0.0
  {
  }

  // The image of an earlier direction is a difference of residuals.
  lemma ImageProduct(sys: FiniteVolumeSystem, k: nat, i: nat)
    requires Spd(sys) && Live(sys, k) && ConjugateUpTo(sys, k) && i <= k
    ensures var u, z := Nth(sys, i), Preconditioned(sys, k + 1);
      && u.rz > 0.0 && Curvature(sys, u) > 0.0
      && -StepLength(sys, u) * Dot(z, sys.Apply(u.p)) == Dot(z, Nth(sys, i + 1).r)
  {
    hide Dot, FiniteVolumeSystem.Apply, Nth, AddScaled, Divide, StepLength;
    var u := Nth(sys, i);
    LiveBefore(sys, i, k);
    LiveStep(sys, i);
    EarlierProduct(sys, k, i);
    DotAddScaledRight(u.r, -StepLength(sys, u), sys.Apply(u.p), Preconditioned(sys, k + 1));
  }

  lemma DirectionStep(sys: FiniteVolumeSystem, k: nat, i: nat)
    requires Spd(sys) && Live(sys, k) && ConjugateUpTo(sys, k) && i <= k
    ensures Dot(Nth(sys, k + 1).p, sys.Apply(Nth(sys, i).p)) == 0.0
  {
    hide Dot, FiniteVolumeSystem.Apply, Nth, AddScaled, Divide, Spd, Live, StepLength;
    var s, t, z := Nth(sys, k), Nth(sys, k + 1), Preconditioned(sys, k + 1);
    var u := Nth(sys, i);
    LiveStep(sys, k);
    DotAddScaledLeft(z, t.rz / s.rz, s.p, sys.Apply(u.p));
    ImageProduct(sys, k, i);
    if i < k {
      EarlierProduct(sys, k, i + 1);
      assert Conjugate(sys, k, i);
      PositiveStep(sys, u);
      NonzeroFactor(StepLength(sys, u), Dot(z, sys.Apply(u.p)));
    } else {
      DotCommutes(t.r, z);
      LastDirection(sys, s, t.rz, Dot(z, sys.Apply(u.p)));
    }
  }

  lemma LastDirection(sys: FiniteVolumeSystem, s: Iterate, next: real, w: real)
    requires Fits(sys, s) && s.rz > 0.0 && Curvature(sys, s) > 0.0
    requires -StepLength(sys, s) * w == next
    ensures w + next / s.rz * Curvature(sys, s) == 0.0
  {
    CancelledCurvature(s.rz, next, Curvature(sys, s), w);
  }

  // The new preconditioned residual against an earlier residual.
  lemma EarlierProduct(sys: FiniteVolumeSystem, k: nat, i: nat)
    requires Spd(sys) && Live(sys, k) && ConjugateUpTo(sys, k) && i <= k
    ensures Dot(Preconditioned(sys, k + 1), Nth(sys, i).r) == 0.0
  {
    hide Dot, Nth;
    var r, t := Nth(sys, i).r, Nth(sys, k + 1).r;
    PreconditionedStep(sys, k, i);
    DivideSelfAdjoint(r, t, sys.diagonal);
    DotCommutes(Preconditioned(sys, k + 1), r);
  }

  lemma AlignedStep(sys: FiniteVolumeSystem, k: nat)
    requires Spd(sys) && Live(sys, k) && ConjugateUpTo(sys, k)
    ensures Aligned(sys, k + 1)
  {
    hide Dot, FiniteVolumeSystem.Apply, Nth, AddScaled, Divide;
    LiveStep(sys, k);
    ResidualStep(sys, k, k);
    var s, t := Nth(sys, k), Nth(sys, k + 1);
    DotAddScaledRight(Preconditioned(sys, k + 1), t.rz / s.rz, s.p, t.r);
  }

  lemma ConjugateStep(sys: FiniteVolumeSystem, k: nat, i: nat)
    requires Spd(sys) && Live(sys, k) && ConjugateUpTo(sys, k) && i <= k
    ensures Conjugate(sys, k + 1, i)
  {
    hide Dot, Nth;
    ResidualStep(sys, k, i);
    PreconditionedStep(sys, k, i);
    DirectionStep(sys, k, i);
  }

  lemma VanishedStep(sys: FiniteVolumeSystem, k: nat, i: nat)
    requires Spd(sys) && !Live(sys, k)
    ensures Conjugate(sys, k, i) && Aligned(sys, k)
  {
    hide Dot;
    AlwaysConsistent(sys, k);
    var s := Nth(sys, k);
    DotZero(s.p, sys.Apply(Nth(sys, i).p));
    DotZero(s.r, Nth(sys, i).p);
    DotZero(s.r, Preconditioned(sys, i));
    DotZero(s.r, s.p);
    DotZero(s.r, Preconditioned(sys, k));
  }

  lemma StartAligned(sys: FiniteVolumeSystem)
    requires sys.Shaped()
    ensures Aligned(sys, 0)
  {
    hide FiniteVolumeSystem.Residual, Divide, Dot;
  }

  lemma NextIterate(sys: FiniteVolumeSystem, k: nat, i: nat)
    requires Spd(sys) && ConjugateUpTo(sys, k) && i <= k
    ensures Conjugate(sys, k + 1, i) && Aligned(sys, k + 1)
  {
    hide Nth, Conjugate, Aligned, FiniteVolumeSystem.SelfAdjoint, FiniteVolumeSystem.PositiveDefinite;
    if Live(sys, k) {
      ConjugateStep(sys, k, i);
      AlignedStep(sys, k);
    } else {
      Stuck(sys, k, k + 1);
      VanishedStep(sys, k + 1, i);
    }
  }

  /** Every direction is conjugate to all earlier ones and every residual is orthogonal to all
      earlier preconditioned residuals, at every iteration. */
  lemma {:induction false} Conjugacy(sys: FiniteVolumeSystem, k: nat)
    requires Spd(sys)
    ensures ConjugateUpTo(sys, k)
  {
    hide Nth, Conjugate, Aligned, FiniteVolumeSystem.SelfAdjoint, FiniteVolumeSystem.PositiveDefinite;
    if k == 0 {
      StartAligned(sys);
    } else {
      Conjugacy(sys, k - 1);
      forall i: nat | i < k ensures Conjugate(sys, k, i) {
        NextIterate(sys, k - 1, i);
      }
      NextIterate(sys, k - 1, 0);
    }
  }

  lemma LiveFamily(sys: FiniteVolumeSystem, k: nat) returns (vs: seq<Vec>)
    requires Spd(sys) && Live(sys, k)
    ensures |vs| == k + 1 && Orthogonal(vs, sys.diagonal)
  {
    hide Dot, Nth;
    Conjugacy(sys, k);
    vs := seq(k + 1, i requires 0 <= i < k + 1 => Nth(sys, i).r);
    forall i | 0 <= i < |vs| ensures |vs[i]| == sys.Size() && !IsZero(vs[i]) {
      LiveBefore(sys, i, k);
    }
    forall i, j | 0 <= i < |vs| && 0 <= j < |vs| && i != j
      ensures Weighted(vs[i], vs[j], sys.diagonal) == 0.0
    {
      if j < i {
        assert Conjugate(sys, i, j);
      } else {
        assert Conjugate(sys, j, i);
        WeightedSymmetric(vs[i], vs[j], sys.diagonal);
      }
    }
  }

  /** The residual vanishes after at most as many iterations as there are unknowns. */
  lemma FiniteTermination(sys: FiniteVolumeSystem)
    requires Spd(sys)
    ensures IsZero(Nth(sys, sys.Size()).r)
  {
    if Live(sys, sys.Size()) {
      var vs := LiveFamily(sys, sys.Size());
      OrthogonalBound(vs, sys.diagonal);
    }
  }
}
