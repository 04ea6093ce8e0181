/** What the assembled system approximates: on quadratic fields the links of a cell give the exact divergence, on
    affine fields the gradient is exact, and a volume source enters each cell once. */
module GridExactness {
  import opened RealSums
  import opened Vectors
  import opened VoxelGrid
  import opened LinearSystem
  import opened FiniteVolume
  import opened Options
  import opened DomainTheory
  import opened CellBalance
  import opened PrismConductor

  // One variable of a quadratic field.
  function Along(q: real, l: real, t: real): real {
    q * t * t + l * t
  }

  /** A field of the distances from the source terminal and along the lateral axes. */
  datatype Field = Field(xx: real, yy: real, zz: real, x: real, y: real, z: real, c: real) {
    function Of(a: real, u: real, v: real): real {
      Along(xx, x, a) + Along(yy, y, u) + Along(zz, z, v) + c
    }
  }

  // Where the centre of the `i`-th cell is on its axis.
  function Middle(i: int, h: real): real {
    (i as real + 0.5) * h
  }

  /** The field at the centre of a cell. */
  function Centre(dom: VoxelDomain, f: Field, i: int, j: int, k: int): real {
    f.Of(Middle(i, dom.axialSpacing), Middle(j, dom.uSpacing), Middle(k, dom.vSpacing))
  }

  /** `x` holds the field at this cell, which is occupied. */
  predicate Carries(dom: VoxelDomain, x: Vec, f: Field, i: int, j: int, k: int) {
    Filled(dom, i, j, k) && PotentialAt(dom, x, i, j, k) == Centre(dom, f, i, j, k)
  }

  lemma SecondDifference(q: real, l: real, i: int, h: real, w: real)
    requires w * (h * h) == 1.0
    ensures var m := Along(q, l, Middle(i, h));
      w * (Along(q, l, Middle(i - 1, h)) - m) + w * (Along(q, l, Middle(i + 1, h)) - m) == 2.0 * q
  {
    var t := Middle(i, h);
    Neighbours(i, h);
    hide Middle;
    AlongShift(q, l, t, h);
    AlongShift(q, l, t, -h);
    var m, a, b := Along(q, l, t), Along(q, l, t - h), Along(q, l, t + h);
    hide Along;
    Combine(w, a - m, b - m, q, h * h);
  }

  lemma Neighbours(i: int, h: real)
    ensures Middle(i + 1, h) == Middle(i, h) + h && Middle(i - 1, h) == Middle(i, h) + -h
  {
  }

  lemma AlongShift(q: real, l: real, t: real, h: real)
    ensures Along(q, l, t + h) - Along(q, l, t) == q * (h * h) + (2.0 * (q * t) + l) * h
  {
  }

  lemma Combine(w: real, a: real, b: real, q: real, hh: real)
    requires a + b == 2.0 * (q * hh) && w * hh == 1.0
    ensures w * a + w * b == 2.0 * q
  {
    assert w * a + w * b == w * (a + b);
    assert w * (2.0 * (q * hh)) == 2.0 * (q * (w * hh));
  }

  // The other variables do not matter.
  lemma Apart(w: real, m: real, a: real, b: real, am: real, aa: real, ab: real, rest: real, q: real)
    requires m == am + rest && a == aa + rest && b == ab + rest && w * (aa - am) + w * (ab - am) == 2.0 * q
    ensures w * (a - m) - w * (m - b) == 2.0 * q
  {
    assert a - m == aa - am && b - m == ab - am;
    assert w * (m - b) == -(w * (b - m));
  }

  // The difference of the fluxes `lo` and `hi` through the two faces of a cell on one axis.
  lemma Difference(q: real, l: real, i: int, h: real, w: real, m: real, a: real, b: real, rest: real, lo: real,
                   hi: real)
    requires w * (h * h) == 1.0 && m == Along(q, l, Middle(i, h)) + rest
    requires a == Along(q, l, Middle(i - 1, h)) + rest && b == Along(q, l, Middle(i + 1, h)) + rest
    requires lo == w * (a - m) && hi == w * (m - b)
    ensures lo - hi == 2.0 * q
  {
    hide *;
    SecondDifference(q, l, i, h, w);
    Apart(w, m, a, b, Along(q, l, Middle(i, h)), Along(q, l, Middle(i - 1, h)), Along(q, l, Middle(i + 1, h)), rest, q);
  }

  // The weight of an axis against its spacing.
  lemma WeightOfAxis(dom: VoxelDomain)
    requires dom.Valid()
    ensures |dom.Weights()| == 6
    ensures dom.Weights()[0] * (dom.axialSpacing * dom.axialSpacing) == 1.0
    ensures dom.Weights()[2] * (dom.uSpacing * dom.uSpacing) == 1.0
    ensures dom.Weights()[4] * (dom.vSpacing * dom.vSpacing) == 1.0
  {
    dom.PositiveSpacing();
  }

  /** A cell and its six neighbours carry the field. */
  predicate CarriesAround(dom: VoxelDomain, x: Vec, f: Field, i: int, j: int, k: int) {
    && Carries(dom, x, f, i, j, k)
    && Carries(dom, x, f, i - 1, j, k) && Carries(dom, x, f, i + 1, j, k)
    && Carries(dom, x, f, i, j - 1, k) && Carries(dom, x, f, i, j + 1, k)
    && Carries(dom, x, f, i, j, k - 1) && Carries(dom, x, f, i, j, k + 1)
  }

  lemma Held(dom: VoxelDomain, x: Vec, f: Field, i: int, j: int, k: int)
    requires Carries(dom, x, f, i, j, k)
    ensures Filled(dom, i, j, k)
    ensures PotentialAt(dom, x, i, j, k)
      == Along(f.xx, f.x, Middle(i, dom.axialSpacing)) + Along(f.yy, f.y, Middle(j, dom.uSpacing))
        + Along(f.zz, f.z, Middle(k, dom.vSpacing)) + f.c
  {
  }

  lemma AllHeld(dom: VoxelDomain, x: Vec, f: Field, i: int, j: int, k: int)
    requires CarriesAround(dom, x, f, i, j, k)
    ensures Carries(dom, x, f, i, j, k) && Carries(dom, x, f, i - 1, j, k) && Carries(dom, x, f, i + 1, j, k)
    ensures Carries(dom, x, f, i, j - 1, k) && Carries(dom, x, f, i, j + 1, k)
    ensures Carries(dom, x, f, i, j, k - 1) && Carries(dom, x, f, i, j, k + 1)
  {
  }

  lemma InnerFluxes(dom: VoxelDomain, x: Vec, source: real, reference: real, i: int, j: int, k: int)
    requires dom.Valid() && Filled(dom, i, j, k)
    ensures 0 < i < dom.shape.n0 && Filled(dom, i - 1, j, k) ==>
      AxialFlux(dom, x, source, reference, i, j, k)
      == dom.Weights()[0] * (PotentialAt(dom, x, i - 1, j, k) - PotentialAt(dom, x, i, j, k))
    ensures Filled(dom, i, j - 1, k) ==>
      UFlux(dom, x, i, j, k) == dom.Weights()[2] * (PotentialAt(dom, x, i, j - 1, k) - PotentialAt(dom, x, i, j, k))
    ensures Filled(dom, i, j, k - 1) ==>
      VFlux(dom, x, i, j, k) == dom.Weights()[4] * (PotentialAt(dom, x, i, j, k - 1) - PotentialAt(dom, x, i, j, k))
  {
    hide Filled, PotentialAt, VoxelDomain.Weights;
  }

  lemma AxialDifference(dom: VoxelDomain, x: Vec, f: Field, source: real, reference: real, i: int, j: int, k: int)
    requires dom.Valid() && CarriesAround(dom, x, f, i, j, k) && 0 < i < dom.shape.n0 - 1
    ensures AxialFlux(dom, x, source, reference, i, j, k) - AxialFlux(dom, x, source, reference, i + 1, j, k)
      == 2.0 * f.xx
  {
    hide *;
    AllHeld(dom, x, f, i, j, k);
    Held(dom, x, f, i, j, k);
    Held(dom, x, f, i - 1, j, k);
    Held(dom, x, f, i + 1, j, k);
    WeightOfAxis(dom);
    InnerFluxes(dom, x, source, reference, i, j, k);
    InnerFluxes(dom, x, source, reference, i + 1, j, k);
    Difference(f.xx, f.x, i, dom.axialSpacing, dom.Weights()[0], PotentialAt(dom, x, i, j, k),
               PotentialAt(dom, x, i - 1, j, k), PotentialAt(dom, x, i + 1, j, k),
               Along(f.yy, f.y, Middle(j, dom.uSpacing)) + Along(f.zz, f.z, Middle(k, dom.vSpacing)) + f.c,
               AxialFlux(dom, x, source, reference, i, j, k), AxialFlux(dom, x, source, reference, i + 1, j, k));
  }

  lemma UDifference(dom: VoxelDomain, x: Vec, f: Field, i: int, j: int, k: int)
    requires dom.Valid() && CarriesAround(dom, x, f, i, j, k)
    ensures UFlux(dom, x, i, j, k) - UFlux(dom, x, i, j + 1, k) == 2.0 * f.yy
  {
    hide *;
    AllHeld(dom, x, f, i, j, k);
    Held(dom, x, f, i, j, k);
    Held(dom, x, f, i, j - 1, k);
    Held(dom, x, f, i, j + 1, k);
    WeightOfAxis(dom);
    InnerFluxes(dom, x, 0.0, 0.0, i, j, k);
    InnerFluxes(dom, x, 0.0, 0.0, i, j + 1, k);
    Difference(f.yy, f.y, j, dom.uSpacing, dom.Weights()[2], PotentialAt(dom, x, i, j, k),
               PotentialAt(dom, x, i, j - 1, k), PotentialAt(dom, x, i, j + 1, k),
               Along(f.xx, f.x, Middle(i, dom.axialSpacing)) + Along(f.zz, f.z, Middle(k, dom.vSpacing)) + f.c,
               UFlux(dom, x, i, j, k), UFlux(dom, x, i, j + 1, k));
  }

  lemma VDifference(dom: VoxelDomain, x: Vec, f: Field, i: int, j: int, k: int)
    requires dom.Valid() && CarriesAround(dom, x, f, i, j, k)
    ensures VFlux(dom, x, i, j, k) - VFlux(dom, x, i, j, k + 1) == 2.0 * f.zz
  {
    hide *;
    AllHeld(dom, x, f, i, j, k);
    Held(dom, x, f, i, j, k);
    Held(dom, x, f, i, j, k - 1);
    Held(dom, x, f, i, j, k + 1);
    WeightOfAxis(dom);
    InnerFluxes(dom, x, 0.0, 0.0, i, j, k);
    InnerFluxes(dom, x, 0.0, 0.0, i, j, k + 1);
    Difference(f.zz, f.z, k, dom.vSpacing, dom.Weights()[4], PotentialAt(dom, x, i, j, k),
               PotentialAt(dom, x, i, j, k - 1), PotentialAt(dom, x, i, j, k + 1),
               Along(f.xx, f.x, Middle(i, dom.axialSpacing)) + Along(f.yy, f.y, Middle(j, dom.uSpacing)) + f.c,
               VFlux(dom, x, i, j, k), VFlux(dom, x, i, j, k + 1));
  }

  /** On a quadratic field the residual of an inner cell is its exact Laplacian. */
  lemma QuadraticIsExact(dom: VoxelDomain, x: Vec, f: Field, source: real, reference: real, i: int, j: int, k: int)
    requires dom.Valid() && dom.NoIsolatedCell() && |x| == |dom.Cells()|
    requires CarriesAround(dom, x, f, i, j, k) && 0 < i < dom.shape.n0 - 1
    ensures ResidualAt(dom, source, reference, x, i, j, k) == 2.0 * (f.xx + f.yy + f.zz)
  {
    assert dom.shape.Contains(i, j, k);
    hide CarriesAround, Carries, AxialFlux, UFlux, VFlux, ResidualAt, VoxelDomain.DiagonalOf;
    AxialDifference(dom, x, f, source, reference, i, j, k);
    UDifference(dom, x, f, i, j, k);
    VDifference(dom, x, f, i, j, k);
    FluxBalance(dom, source, reference, x, i, j, k);
  }

  lemma FirstDifference(l: real, i: int, h: real, m: real, a: real, b: real, rest: real)
    requires h > 0.0 && m == Along(0.0, l, Middle(i, h)) + rest
    requires a == Along(0.0, l, Middle(i - 1, h)) + rest && b == Along(0.0, l, Middle(i + 1, h)) + rest
    ensures ((m - a) / h + (b - m) / h) / 2.0 == l
  {
    var t := Middle(i, h);
    Neighbours(i, h);
    hide Middle;
    AlongShift(0.0, l, t, h);
    AlongShift(0.0, l, t, -h);
    hide Along;
    assert b - m == l * h && m - a == l * h;
    Quotient(l, h, b - m);
    Quotient(l, h, m - a);
  }

  lemma Quotient(l: real, h: real, d: real)
    requires h > 0.0 && d == l * h
    ensures d / h == l
  {
  }

  /** On an affine field the computed gradient of an inner cell is exact on every axis. */
  lemma AffineGradientIsExact(dom: VoxelDomain, x: Vec, f: Field, source: real, reference: real, i: int, j: int,
                              k: int)
    requires dom.Valid() && CarriesAround(dom, x, f, i, j, k) && f.xx == f.yy == f.zz == 0.0
    ensures GradientOf(dom, x, source, reference, i, j, k, 0) == f.x
    ensures GradientOf(dom, x, source, reference, i, j, k, 1) == f.y
    ensures GradientOf(dom, x, source, reference, i, j, k, 2) == f.z
  {
    dom.PositiveSpacing();
    var m := PotentialAt(dom, x, i, j, k);
    hide PotentialAt, VoxelIndex, VoxelDomain.Valid, Along, Middle;
    var ax, au, av := Along(0.0, f.x, Middle(i, dom.axialSpacing)), Along(0.0, f.y, Middle(j, dom.uSpacing)),
                      Along(0.0, f.z, Middle(k, dom.vSpacing));
    FirstDifference(f.x, i, dom.axialSpacing, m, PotentialAt(dom, x, i - 1, j, k), PotentialAt(dom, x, i + 1, j, k),
                    au + av + f.c);
    FirstDifference(f.y, j, dom.uSpacing, m, PotentialAt(dom, x, i, j - 1, k), PotentialAt(dom, x, i, j + 1, k),
                    ax + av + f.c);
    FirstDifference(f.z, k, dom.vSpacing, m, PotentialAt(dom, x, i, j, k - 1), PotentialAt(dom, x, i, j, k + 1),
                    ax + au + f.c);
  }

  /** A volume source is added to the residual of each cell exactly once. */
  lemma VolumeSourceOnce(dom: VoxelDomain, source: real, reference: real, vol: Vec, x: Vec, a: nat)
    requires dom.Valid() && dom.NoIsolatedCell() && |x| == |dom.Cells()| && |vol| == |dom.occupancy| && a < |x|
    ensures var plain, loaded := dom.SystemOf(source, reference, None), dom.SystemOf(source, reference, Some(vol));
      && plain.Shaped() && loaded.Shaped() && plain.Size() == |x| == loaded.Size()
      && 0 <= dom.Cells()[a] < |vol|
      && loaded.Residual(x)[a] == plain.Residual(x)[a] + vol[dom.Cells()[a]]
  {
    Shaped(dom, source, reference, None);
    Shaped(dom, source, reference, Some(vol));
    CellAt(dom, a);
    hide VoxelDomain.DiagonalOf, VoxelDomain.SourceWeight, VoxelDomain.ReferenceWeight, ActiveBelow;
    var plain, loaded := dom.SystemOf(source, reference, None), dom.SystemOf(source, reference, Some(vol));
    assert plain.(rhs := loaded.rhs) == loaded;
    SameApply(plain, loaded, x);
    assert plain.Residual(x)[a] == plain.rhs[a] + -1.0 * plain.Apply(x)[a];
    assert loaded.Residual(x)[a] == loaded.rhs[a] + -1.0 * loaded.Apply(x)[a];
  }

  lemma SameApply(a: FiniteVolumeSystem, b: FiniteVolumeSystem, x: Vec)
    requires a.Shaped() && b.Shaped() && b == a.(rhs := b.rhs) && |x| == a.Size()
    ensures a.Apply(x) == b.Apply(x)
  {
    forall r | 0 <= r < |x| ensures a.Apply(x)[r] == b.Apply(x)[r] {
      SameRow(a, b, x, r);
    }
  }

  lemma SameRow(a: FiniteVolumeSystem, b: FiniteVolumeSystem, x: Vec, r: int)
    requires a.Shaped() && b.Shaped() && b == a.(rhs := b.rhs)
    ensures a.Row(x, r, a.Slots()) == b.Row(x, r, b.Slots())
  {
    forall s | 0 <= s < a.Slots() ensures a.Coupling(x, r, s) == b.Coupling(x, r, s) {
      SameCoupling(a, b, x, r, s);
    }
    hide FiniteVolumeSystem.Coupling, FiniteVolumeSystem.Shaped;
    SumExt(a.Slots(), s => a.Coupling(x, r, s), s => b.Coupling(x, r, s));
  }

  lemma SameCoupling(a: FiniteVolumeSystem, b: FiniteVolumeSystem, x: Vec, r: int, s: int)
    requires a.Shaped() && b.Shaped() && b == a.(rhs := b.rhs)
    ensures a.Coupling(x, r, s) == b.Coupling(x, r, s)
  {
  }
}
