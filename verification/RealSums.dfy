/** Finite sums of reals: the handful of laws the numerical proofs rest on. */
module RealSums {

  function Sum(n: nat, f: int -> real): real {
    if n == 0 then 0.0 else Sum(n - 1, f) + f(n - 1)
  }

  lemma {:induction false} SumExt(n: nat, f: int -> real, g: int -> real)
    requires forall i :: 0 <= i < n ==> f(i) == g(i)
    ensures Sum(n, f) == Sum(n, g)
  {
    if n > 0 {
      SumExt(n - 1, f, g);
    }
  }

  // A linear combination of two summands, stated once for every use.
  lemma {:induction false} SumLinear(n: nat, f: int -> real, a: real, g: int -> real, h: int -> real)
    requires forall i :: 0 <= i < n ==> h(i) == f(i) + a * g(i)
    ensures Sum(n, h) == Sum(n, f) + a * Sum(n, g)
  {
    if n > 0 {
      SumLinear(n - 1, f, a, g, h);
    }
  }

  lemma {:induction false} SumZero(n: nat, f: int -> real)
    requires forall i :: 0 <= i < n ==> f(i) == 0.0
    ensures Sum(n, f) == 0.0
  {
    if n > 0 {
      SumZero(n - 1, f);
    }
  }

  lemma {:induction false} SumConstant(n: nat, f: int -> real, c: real)
    requires forall i :: 0 <= i < n ==> f(i) == c
    ensures Sum(n, f) == n as real * c
  {
    if n > 0 {
      SumConstant(n - 1, f, c);
    }
  }

  lemma {:induction false} SumScale(n: nat, a: real, f: int -> real, h: int -> real)
    requires forall i :: 0 <= i < n ==> h(i) == a * f(i)
    ensures Sum(n, h) == a * Sum(n, f)
  {
    if n > 0 {
      SumScale(n - 1, a, f, h);
    }
  }

  lemma {:induction false} SumMonotone(n: nat, f: int -> real, g: int -> real)
    requires forall i :: 0 <= i < n ==> f(i) <= g(i)
    ensures Sum(n, f) <= Sum(n, g)
  {
    if n > 0 {
      SumMonotone(n - 1, f, g);
    }
  }

  lemma SumNonneg(n: nat, f: int -> real)
    requires forall i :: 0 <= i < n ==> f(i) >= 0.0
    ensures Sum(n, f) >= 0.0
  {
  }

  // Each term of a sum of non-negative terms is bounded by the sum.
  lemma {:induction false} SumBoundsTerm(n: nat, f: int -> real, k: nat)
    requires forall i :: 0 <= i < n ==> f(i) >= 0.0
    requires k < n
    ensures f(k) <= Sum(n, f)
  {
    SumNonneg(n - 1, f);
    if k < n - 1 {
      SumBoundsTerm(n - 1, f, k);
    }
  }

  // A sum with a single non-zero term.
  lemma {:induction false} SumDelta(n: nat, f: int -> real, k: nat)
    requires k < n
    requires forall i :: 0 <= i < n && i != k ==> f(i) == 0.0
    ensures Sum(n, f) == f(k)
  {
    if k == n - 1 {
      SumZero(n - 1, f);
    } else {
      SumDelta(n - 1, f, k);
    }
  }

  lemma {:induction false} SumSwap(n: nat, m: nat, f: (int, int) -> real)
    ensures Sum(n, i => Sum(m, j => f(i, j))) == Sum(m, j => Sum(n, i => f(i, j)))
  {
    if n == 0 {
      SumZero(m, j => Sum(n, i => f(i, j)));
    } else {
      SumSwap(n - 1, m, f);
      SumExt(n - 1, i => Sum(m, j => f(i, j)), i => Sum(m, j => f(i, j)));
      SumLinear(m, j => Sum(n - 1, i => f(i, j)), 1.0, j => f(n - 1, j), j => Sum(n, i => f(i, j)));
    }
  }

  // Summation by rows and by columns, with the row and column sums given by name.
  lemma SumRowsColumns(n: nat, m: nat, f: (int, int) -> real, rows: int -> real, columns: int -> real)
    requires forall i :: 0 <= i < n ==> rows(i) == Sum(m, j => f(i, j))
    requires forall j :: 0 <= j < m ==> columns(j) == Sum(n, i => f(i, j))
    ensures Sum(n, rows) == Sum(m, columns)
  {
    SumSwap(n, m, f);
    SumExt(n, rows, i => Sum(m, j => f(i, j)));
    SumExt(m, columns, j => Sum(n, i => f(i, j)));
  }

  // A balance in which one difference telescopes along the summation.
  lemma {:induction false} SumBalance(n: nat, r: int -> real, a: int -> real, b: int -> real, u: int -> real,
                                      v: int -> real, w: int -> real)
    requires forall j :: 0 <= j < n ==> r(j) == (a(j) - b(j)) + (u(j) - u(j + 1)) + (v(j) - w(j))
    ensures Sum(n, r) == (Sum(n, a) - Sum(n, b)) + (u(0) - u(n)) + (Sum(n, v) - Sum(n, w))
  {
    if n > 0 {
      SumBalance(n - 1, r, a, b, u, v, w);
    }
  }

  lemma {:induction false} SumPeelFirst(n: nat, f: int -> real)
    requires n > 0
    ensures Sum(n, f) == f(0) + Sum(n - 1, i => f(i + 1))
  {
    if n > 1 {
      SumPeelFirst(n - 1, f);
      SumExt(n - 2, i => f(i + 1), i => f(i + 1));
    }
  }

  lemma {:induction false} SumReverse(n: nat, f: int -> real)
    ensures Sum(n, i => f(n - 1 - i)) == Sum(n, f)
  {
    if n > 0 {
      var g := i => f(n - 1 - i);
      SumPeelFirst(n, g);
      SumReverse(n - 1, f);
      SumExt(n - 1, i => g(i + 1), i => f(n - 1 - 1 - i));
    }
  }
}
