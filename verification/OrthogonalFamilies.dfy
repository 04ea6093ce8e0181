/** In dimension n no more than n non-zero vectors are pairwise orthogonal, for the inner product
    weighted by the inverse of a positive diagonal. Proved by Bessel's inequality, coordinate by
    coordinate, without any theory of bases. */
module OrthogonalFamilies {
  import opened RealSums
  import opened Vectors

  /** The inner product in which the preconditioner measures residuals. */
  function Weighted(x: Vec, y: Vec, d: Vec): real
    requires |x| == |y| == |d| && AllPositive(d)
  {
    Dot(x, Divide(y, d))
  }

  ghost predicate Orthogonal(vs: seq<Vec>, d: Vec)
    requires AllPositive(d)
  {
    && (forall k :: 0 <= k < |vs| ==> |vs[k]| == |d| && !IsZero(vs[k]))
    && (forall j, k :: 0 <= j < |vs| && 0 <= k < |vs| && j != k ==> Weighted(vs[j], vs[k], d) == 0.0)
  }

  function Coefficient(e: Vec, v: Vec, d: Vec): real
    requires |e| == |v| == |d| && AllPositive(d) && !IsZero(v)
  {
    DividePositive(v, d);
    Weighted(e, v, d) / Weighted(v, v, d)
  }

  lemma CoefficientDefinition(e: Vec, v: Vec, d: Vec)
    requires |e| == |v| == |d| && AllPositive(d) && !IsZero(v)
    ensures Coefficient(e, v, d) * Weighted(v, v, d) == Weighted(e, v, d)
  {
    hide Dot, Divide;
    DividePositive(v, d);
  }

  function Captured(e: Vec, v: Vec, d: Vec): real {
    if |e| == |v| == |d| && AllPositive(d) && !IsZero(v)
    then Coefficient(e, v, d) * Weighted(e, v, d)
    else 0.0
  }

  function CapturedSum(e: Vec, vs: seq<Vec>, d: Vec, m: nat): real {
    Sum(m, k => Captured(e, Member(vs, k), d))
  }

  lemma CapturedSumStep(e: Vec, vs: seq<Vec>, d: Vec, m: nat)
    ensures CapturedSum(e, vs, d, m + 1) == CapturedSum(e, vs, d, m) + Captured(e, Member(vs, m), d)
    ensures CapturedSum(e, vs, d, 0) == 0.0
  {
    hide Captured;
  }

  function Member(vs: seq<Vec>, k: int): Vec {
    if 0 <= k < |vs| then vs[k] else []
  }

  // `e` with its components along the first `m` vectors removed.
  ghost function Reduced(e: Vec, vs: seq<Vec>, d: Vec, m: nat): (w: Vec)
    requires AllPositive(d) && |e| == |d| && Orthogonal(vs, d) && m <= |vs|
    ensures |w| == |e|
  {
    if m == 0 then e
    else AddScaled(Reduced(e, vs, d, m - 1), -Coefficient(e, vs[m - 1], d), vs[m - 1])
  }

  lemma WeightedAddScaled(x: Vec, a: real, y: Vec, z: Vec, d: Vec)
    requires |x| == |y| == |z| == |d| && AllPositive(d)
    ensures Weighted(AddScaled(x, a, y), z, d) == Weighted(x, z, d) + a * Weighted(y, z, d)
    ensures Weighted(z, AddScaled(x, a, y), d) == Weighted(z, x, d) + a * Weighted(z, y, d)
  {
    hide Dot, Divide, AddScaled;
    DotAddScaledLeft(x, a, y, Divide(z, d));
    DivideSelfAdjoint(z, AddScaled(x, a, y), d);
    DivideSelfAdjoint(z, x, d);
    DivideSelfAdjoint(z, y, d);
  }

  lemma {:induction false} ReducedProducts(e: Vec, vs: seq<Vec>, d: Vec, m: nat, j: nat)
    requires AllPositive(d) && |e| == |d| && Orthogonal(vs, d) && m <= j < |vs|
    ensures Weighted(Reduced(e, vs, d, m), vs[j], d) == Weighted(e, vs[j], d)
  {
    hide Weighted, Coefficient;
    if m > 0 {
      ReducedProducts(e, vs, d, m - 1, j);
      WeightedAddScaled(Reduced(e, vs, d, m - 1), -Coefficient(e, vs[m - 1], d), vs[m - 1], vs[j], d);
    }
  }

  lemma {:induction false} ReducedNorm(e: Vec, vs: seq<Vec>, d: Vec, m: nat)
    requires AllPositive(d) && |e| == |d| && Orthogonal(vs, d) && m <= |vs|
    ensures Weighted(Reduced(e, vs, d, m), Reduced(e, vs, d, m), d)
         == Weighted(e, e, d) - CapturedSum(e, vs, d, m)
  {
    if m == 0 {
      CapturedSumStep(e, vs, d, 0);
    } else {
      hide Weighted, Captured, Coefficient, AddScaled, IsZero, CapturedSum;
      CapturedSumStep(e, vs, d, m - 1);
      ReducedNorm(e, vs, d, m - 1);
      var w, v := Reduced(e, vs, d, m - 1), vs[m - 1];
      ReducedProducts(e, vs, d, m - 1, m - 1);
      RemovedNorm(w, v, d, e);
    }
  }

  lemma RemovedNorm(w: Vec, v: Vec, d: Vec, e: Vec)
    requires |w| == |v| == |d| == |e| && AllPositive(d) && !IsZero(v)
    requires Weighted(w, v, d) == Weighted(e, v, d)
    ensures var u := AddScaled(w, -Coefficient(e, v, d), v);
            Weighted(u, u, d) == Weighted(w, w, d) - Captured(e, v, d)
  {
    hide Weighted, Coefficient;
    var c, p, q := Coefficient(e, v, d), Weighted(e, v, d), Weighted(v, v, d);
    var u := AddScaled(w, -c, v);
    WeightedAddScaled(w, -c, v, u, d);
    WeightedAddScaled(w, -c, v, w, d);
    WeightedAddScaled(w, -c, v, v, d);
    WeightedSymmetric(w, v, d);
    CoefficientDefinition(e, v, d);
    SquareCompletion(c, p, q);
  }

  lemma SquareCompletion(c: real, p: real, q: real)
    requires c * q == p
    ensures -c * (p + -c * q) == 0.0
  {
  }

  lemma WeightedSymmetric(x: Vec, y: Vec, d: Vec)
    requires |x| == |y| == |d| && AllPositive(d)
    ensures Weighted(x, y, d) == Weighted(y, x, d)
  {
    DivideSelfAdjoint(x, y, d);
  }

  lemma Bessel(e: Vec, vs: seq<Vec>, d: Vec)
    requires AllPositive(d) && |e| == |d| && Orthogonal(vs, d)
    ensures CapturedSum(e, vs, d, |vs|) <= Weighted(e, e, d)
  {
    ReducedNorm(e, vs, d, |vs|);
    DividePositive(Reduced(e, vs, d, |vs|), d);
  }

  // The unit vector of coordinate `c`.
  function Unit(n: nat, c: int): (e: Vec)
    ensures |e| == n
  {
    seq(n, i => if i == c then 1.0 else 0.0)
  }

  lemma UnitProduct(c: nat, v: Vec, d: Vec)
    requires c < |v| == |d| && AllPositive(d)
    ensures Weighted(Unit(|d|, c), v, d) == v[c] / d[c]
    ensures Weighted(v, Unit(|d|, c), d) == v[c] / d[c]
  {
    var e, u := Unit(|d|, c), Divide(v, d);
    SumDelta(|e|, i => At(e, i) * At(u, i), c);
    WeightedSymmetric(e, v, d);
  }

  // The share of coordinate `c` in the squared norm of `v`.
  function Share(v: Vec, d: Vec, c: int): real {
    if |v| == |d| && AllPositive(d) && !IsZero(v)
    then DividePositive(v, d); At(v, c) * At(Divide(v, d), c) / Weighted(v, v, d)
    else 0.0
  }

  lemma SharesSumToOne(v: Vec, d: Vec)
    requires |v| == |d| && AllPositive(d) && !IsZero(v)
    ensures Sum(|d|, c => Share(v, d, c)) == 1.0
  {
    DividePositive(v, d);
    var q := Weighted(v, v, d);
    var u := Divide(v, d);
    SumScale(|d|, 1.0 / q, c => At(v, c) * At(u, c), c => Share(v, d, c));
  }

  lemma CapturedUnit(c: nat, v: Vec, d: Vec)
    requires c < |v| == |d| && AllPositive(d) && !IsZero(v)
    ensures Captured(Unit(|d|, c), v, d) * d[c] == Share(v, d, c)
  {
    UnitProduct(c, v, d);
    DividePositive(v, d);
    var q, a := Weighted(v, v, d), v[c] / d[c];
    assert Share(v, d, c) == v[c] * a / q;
    assert (a / q) * a * d[c] == v[c] * a / q;
  }

  lemma SharesOfCoordinate(vs: seq<Vec>, d: Vec, c: nat)
    requires AllPositive(d) && Orthogonal(vs, d) && c < |d|
    ensures Sum(|vs|, k => Share(Member(vs, k), d, c)) <= 1.0
  {
    hide Weighted, Captured, Share, Orthogonal, Unit;
    var e := Unit(|d|, c);
    forall k | 0 <= k < |vs|
      ensures Share(Member(vs, k), d, c) == d[c] * Captured(e, Member(vs, k), d)
    {
      CapturedUnit(c, MemberOf(vs, d, k), d);
    }
    SumScale(|vs|, d[c], k => Captured(e, Member(vs, k), d), k => Share(Member(vs, k), d, c));
    Bessel(e, vs, d);
    UnitEntry(c, d);
    ScaledBound(CapturedSum(e, vs, d, |vs|), d[c]);
  }

  lemma UnitEntry(c: nat, d: Vec)
    requires c < |d| && AllPositive(d)
    ensures Weighted(Unit(|d|, c), Unit(|d|, c), d) == 1.0 / d[c]
  {
    UnitProduct(c, Unit(|d|, c), d);
  }

  ghost function MemberOf(vs: seq<Vec>, d: Vec, k: nat): (v: Vec)
    requires AllPositive(d) && Orthogonal(vs, d) && k < |vs|
    ensures |v| == |d| && !IsZero(v)
  {
    vs[k]
  }

  lemma ScaledBound(s: real, w: real)
    requires w > 0.0 && s <= 1.0 / w
    ensures w * s <= 1.0
  {
  }

  /** No more pairwise orthogonal non-zero vectors than dimensions. */
  lemma OrthogonalBound(vs: seq<Vec>, d: Vec)
    requires AllPositive(d) && Orthogonal(vs, d)
    ensures |vs| <= |d|
  {
    hide Share, Weighted, IsZero;
    var f := (k, c) => Share(Member(vs, k), d, c);
    var rows, columns := k => Sum(|d|, c => f(k, c)), c => Sum(|vs|, k => f(k, c));
    forall k | 0 <= k < |vs| ensures rows(k) == 1.0 {
      var v := Member(vs, k);
      SharesSumToOne(v, d);
      SumExt(|d|, c => f(k, c), c => Share(v, d, c));
    }
    SumConstant(|vs|, rows, 1.0);
    SumSwap(|vs|, |d|, f);
    forall c | 0 <= c < |d| ensures columns(c) <= 1.0 {
      SharesOfCoordinate(vs, d, c);
      SumExt(|vs|, k => f(k, c), k => Share(Member(vs, k), d, c));
    }
    SumMonotone(|d|, columns, c => 1.0);
    SumConstant(|d|, c => 1.0, 1.0);
    SumExt(|vs|, rows, k => Sum(|d|, c => f(k, c)));
    SumExt(|d|, columns, c => Sum(|vs|, k => f(k, c)));
  }
}
