/** Finite sums of reals, in the exact arithmetic the whole model uses. */
module Sums {

  /** f(0) + ... + f(n-1), accumulated left to right. */
  function Sum(f: int -> real, n: int): real
  {
    if n <= 0 then 0.0 else Sum(f, n - 1) + f(n - 1)
  }

  lemma {:induction false} SumExt(f: int -> real, g: int -> real, n: int)
    requires forall k | 0 <= k < n :: f(k) == g(k)
    ensures Sum(f, n) == Sum(g, n)
  {
    if n > 0 {
      SumExt(f, g, n - 1);
    }
  }

  lemma {:induction false} SumAdd(f: int -> real, g: int -> real, h: int -> real, n: int)
    requires forall k | 0 <= k < n :: h(k) == f(k) + g(k)
    ensures Sum(h, n) == Sum(f, n) + Sum(g, n)
  {
    if n > 0 {
      SumAdd(f, g, h, n - 1);
    }
  }

  lemma {:induction false} SumScale(c: real, f: int -> real, h: int -> real, n: int)
    requires forall k | 0 <= k < n :: h(k) == c * f(k)
    ensures Sum(h, n) == c * Sum(f, n)
  {
    if n > 0 {
      SumScale(c, f, h, n - 1);
      assert c * Sum(f, n) == c * Sum(f, n - 1) + c * f(n - 1);
    }
  }

  lemma {:induction false} SumNonNegative(f: int -> real, n: int)
    requires forall k | 0 <= k < n :: f(k) >= 0.0
    ensures Sum(f, n) >= 0.0
  {
    if n > 0 {
      SumNonNegative(f, n - 1);
    }
  }

  /** A sum of non-negative terms is at least each of them. */
  lemma {:induction false} SumTermBound(f: int -> real, p: int, n: int)
    requires 0 <= p < n
    requires forall k | 0 <= k < n :: f(k) >= 0.0
    ensures f(p) <= Sum(f, n)
  {
    if p < n - 1 {
      SumTermBound(f, p, n - 1);
    } else {
      SumNonNegative(f, n - 1);
    }
  }

  /** A sum of zeros is zero. */
  lemma {:induction false} SumZero(f: int -> real, n: int)
    requires forall k | 0 <= k < n :: f(k) == 0.0
    ensures Sum(f, n) == 0.0
  {
    if n > 0 {
      SumZero(f, n - 1);
    }
  }

  /** Trailing zeros do not change a sum. */
  lemma {:induction false} SumTail(f: int -> real, n: int, m: int)
    requires 0 <= n <= m
    requires forall k | n <= k < m :: f(k) == 0.0
    ensures Sum(f, m) == Sum(f, n)
  {
    if n < m {
      SumTail(f, n, m - 1);
    }
  }

  /** A sum with a single non-zero term. */
  lemma {:induction false} SumSingle(f: int -> real, p: int, n: int)
    requires 0 <= p < n
    requires forall k | 0 <= k < n && k != p :: f(k) == 0.0
    ensures Sum(f, n) == f(p)
  {
    if p == n - 1 {
      SumZero(f, n - 1);
    } else {
      SumSingle(f, p, n - 1);
    }
  }

  /** A sum with two non-zero terms. */
  lemma {:induction false} SumPair(f: int -> real, p: int, q: int, n: int)
    requires 0 <= p < q < n
    requires forall k | 0 <= k < n && k != p && k != q :: f(k) == 0.0
    ensures Sum(f, n) == f(p) + f(q)
  {
    if q == n - 1 {
      SumSingle(f, p, n - 1);
    } else {
      SumPair(f, p, q, n - 1);
    }
  }

  /** Summing by rows or by columns gives the same total. */
  lemma {:induction false} SumSwap(F: (int, int) -> real, r: int -> real, c: int -> real, n: int, m: int)
    requires forall i | 0 <= i < n :: r(i) == Sum(k => F(i, k), m)
    requires forall k | 0 <= k < m :: c(k) == Sum(i => F(i, k), n)
    ensures Sum(r, n) == Sum(c, m)
  {
    if n <= 0 {
      SumZero(c, m);
    } else {
      var c' := (k: int) => Sum(i => F(i, k), n - 1);
      SumSwap(F, r, c', n - 1, m);
      SumAdd(c', k => F(n - 1, k), c, m);
    }
  }
}
