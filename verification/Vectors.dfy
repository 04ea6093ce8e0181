/** Vectors of reals as sequences: the operations the solver performs with numpy arrays. */
module Vectors {
  import opened RealSums

  type Vec = seq<real>

  /** Component `i`, and zero outside the vector: lets sums be written without side conditions. */
  function At(x: Vec, i: int): real {
    if 0 <= i < |x| then x[i] else 0.0
  }

  function Dot(x: Vec, y: Vec): real {
    Sum(|x|, i => At(x, i) * At(y, i))
  }

  function AddScaled(x: Vec, a: real, y: Vec): (z: Vec)
    requires |x| == |y|
    ensures |z| == |x|
  {
    seq(|x|, i requires 0 <= i < |x| => x[i] + a * y[i])
  }

  predicate AllPositive(d: Vec) {
    forall i :: 0 <= i < |d| ==> d[i] > 0.0
  }

  predicate IsZero(x: Vec) {
    forall i :: 0 <= i < |x| ==> x[i] == 0.0
  }

  function Divide(x: Vec, d: Vec): (z: Vec)
    requires |x| == |d| && AllPositive(d)
    ensures |z| == |x|
  {
    seq(|x|, i requires 0 <= i < |x| => x[i] / d[i])
  }

  lemma DotCommutes(x: Vec, y: Vec)
    requires |x| == |y|
    ensures Dot(x, y) == Dot(y, x)
  {
    SumExt(|x|, i => At(x, i) * At(y, i), i => At(y, i) * At(x, i));
  }

  lemma DotAddScaledLeft(x: Vec, a: real, y: Vec, z: Vec)
    requires |x| == |y| == |z|
    ensures Dot(AddScaled(x, a, y), z) == Dot(x, z) + a * Dot(y, z)
  {
    hide At, AddScaled;
    var w := AddScaled(x, a, y);
    var f, g, h := i => At(x, i) * At(z, i), i => At(y, i) * At(z, i), i => At(w, i) * At(z, i);
    forall i | 0 <= i < |x| ensures h(i) == f(i) + a * g(i) {
      AddScaledEntry(x, a, y, i);
      CombinedProduct(At(z, i), At(x, i), a, At(y, i));
    }
    SumLinear(|x|, f, a, g, h);
  }

  lemma AddScaledEntry(x: Vec, a: real, y: Vec, i: int)
    requires |x| == |y|
    ensures At(AddScaled(x, a, y), i) == At(x, i) + a * At(y, i)
  {
  }

  lemma CombinedProduct(w: real, x: real, a: real, y: real)
    ensures (x + a * y) * w == x * w + a * (y * w)
    ensures w * (x + a * y) == w * x + a * (w * y)
  {
  }

  lemma DotAddScaledRight(x: Vec, a: real, y: Vec, z: Vec)
    requires |x| == |y| == |z|
    ensures Dot(z, AddScaled(x, a, y)) == Dot(z, x) + a * Dot(z, y)
  {
    DotCommutes(z, AddScaled(x, a, y));
    DotAddScaledLeft(x, a, y, z);
    DotCommutes(z, x);
    DotCommutes(z, y);
  }

  lemma DotZero(x: Vec, y: Vec)
    requires |x| == |y| && (IsZero(x) || IsZero(y))
    ensures Dot(x, y) == 0.0
  {
    SumZero(|x|, i => At(x, i) * At(y, i));
  }

  // The product is passed as `p`: the solver simplifies a bare comparison of a square with zero
  // and then no longer connects it to the rest of the context.
  lemma ProductPositive(a: real, b: real, p: real)
    requires a > 0.0 && b > 0.0 && p == a * b
    ensures p > 0.0
  {
  }

  lemma SquarePositive(a: real, p: real)
    requires p == a * a
    ensures p >= 0.0
    ensures a != 0.0 ==> p > 0.0
  {
    if a < 0.0 {
      ProductPositive(-a, -a, p);
    } else if a > 0.0 {
      ProductPositive(a, a, p);
    }
  }

  lemma DotSelf(x: Vec)
    ensures Dot(x, x) >= 0.0
    ensures !IsZero(x) ==> Dot(x, x) > 0.0
    ensures IsZero(x) ==> Dot(x, x) == 0.0
  {
    var f := i => At(x, i) * At(x, i);
    forall i | 0 <= i < |x|
      ensures f(i) >= 0.0 && (x[i] != 0.0 ==> f(i) > 0.0)
    {
      SquarePositive(At(x, i), f(i));
    }
    SumNonneg(|x|, f);
    if !IsZero(x) {
      var i :| 0 <= i < |x| && x[i] != 0.0;
      SumBoundsTerm(|x|, f, i);
    } else {
      DotZero(x, x);
    }
  }

  /** Dividing by a positive diagonal is self-adjoint. */
  lemma DivideSelfAdjoint(x: Vec, y: Vec, d: Vec)
    requires |x| == |y| == |d| && AllPositive(d)
    ensures Dot(x, Divide(y, d)) == Dot(y, Divide(x, d))
  {
    var u, v := Divide(y, d), Divide(x, d);
    forall i | 0 <= i < |x|
      ensures At(x, i) * At(u, i) == At(y, i) * At(v, i)
    {
    }
    SumExt(|x|, i => At(x, i) * At(u, i), i => At(y, i) * At(v, i));
  }

  lemma DividePositive(x: Vec, d: Vec)
    requires |x| == |d| && AllPositive(d)
    ensures Dot(x, Divide(x, d)) >= 0.0
    ensures !IsZero(x) ==> Dot(x, Divide(x, d)) > 0.0
    ensures IsZero(x) ==> Dot(x, Divide(x, d)) == 0.0
  {
    var u := Divide(x, d);
    var f := i => At(x, i) * At(u, i);
    forall i | 0 <= i < |x|
      ensures f(i) >= 0.0 && (x[i] != 0.0 ==> f(i) > 0.0)
    {
      var p := x[i] * x[i];
      SquarePositive(x[i], p);
      assert f(i) == x[i] * (x[i] / d[i]) == p / d[i];
    }
    SumNonneg(|x|, f);
    if !IsZero(x) {
      var i :| 0 <= i < |x| && x[i] != 0.0;
      SumBoundsTerm(|x|, f, i);
    } else {
      DotZero(x, u);
    }
  }
}
