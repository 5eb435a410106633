/** tools/calibration/c2k_stats.py: the binomial CDF, with exact masses in place of log-sum-exp. */
module Binomial {
  import opened Sums
  import opened Floats
  import opened Complexes
  import opened Conformal

  function Pow(x: real, n: int): real
  {
    if n <= 0 then 1.0 else x * Pow(x, n - 1)
  }

  function Factorial(n: int): nat
  {
    if n <= 0 then 1 else n * Factorial(n - 1)
  }

  function Choose(n: nat, k: int): nat
  {
    if k < 0 || k > n then 0 else if k == 0 then 1 else Choose(n - 1, k - 1) + Choose(n - 1, k)
  }

  function Weight(c: real, x: real, y: real): real { c * (x * y) }

  /** P[Binomial(n, p) = i]. */
  function Mass(n: nat, i: int, p: real): real
  {
    Weight(Choose(n, i) as real, Pow(p, i), Pow(1.0 - p, n - i))
  }

  function Masses(n: nat, p: real): int -> real { i => Mass(n, i, p) }

  /** The outcome a with probability p, b otherwise. */
  function Mixture(p: real, a: real, b: real): real { p * a + (1.0 - p) * b }

  /** P[Binomial(n, p) <= k], by conditioning on the last trial. */
  function Tail(n: nat, k: int, p: real): real
  {
    if n == 0 then (if k >= 0 then 1.0 else 0.0)
    else Mixture(p, Tail(n - 1, k - 1, p), Tail(n - 1, k, p))
  }

  // ----- the binomial coefficient is n! / (k! (n - k)!)

  lemma {:induction false} ChooseFactorial(n: nat, k: nat)
    requires k <= n
    ensures Choose(n, k) * (Factorial(k) * Factorial(n - k)) == Factorial(n)
    decreases n
  {
    if 0 < k < n {
      ChooseFactorial(n - 1, k - 1);
      ChooseFactorial(n - 1, k);
      var a, b := Choose(n - 1, k - 1), Choose(n - 1, k);
      var x, y := Factorial(k - 1), Factorial(n - k - 1);
      FactorialSplit(n, k, a, b, x, y, Factorial(n - 1));
    } else if k == n {
      ChooseDiagonal(n);
    }
  }

  lemma {:induction false} ChooseDiagonal(n: nat)
    ensures Choose(n, n) == 1
  {
    if n > 0 {
      ChooseDiagonal(n - 1);
    }
  }

  lemma FactorialSplit(n: int, k: int, a: int, b: int, x: int, y: int, f: int)
    requires a * (x * ((n - k) * y)) == f && b * ((k * x) * y) == f
    ensures (a + b) * ((k * x) * ((n - k) * y)) == n * f
  {}

  // ----- the sum of masses

  lemma MassOutside(n: nat, i: int, p: real)
    requires i < 0 || i > n
    ensures Mass(n, i, p) == 0.0
  {}

  lemma PascalMass(n: nat, i: int, p: real)
    requires n > 0 && i >= 0
    ensures Mass(n, i, p) == Mixture(p, Mass(n - 1, i - 1, p), Mass(n - 1, i, p))
  {}

  /** Consecutive tails differ by one mass. */
  lemma {:induction false} TailStep(n: nat, k: int, p: real)
    requires k >= 0
    ensures Tail(n, k, p) == Tail(n, k - 1, p) + Mass(n, k, p)
    decreases n
  {
    hide Mass;
    hide Mixture;
    if n == 0 {
      MassOfNothing(k, p);
    } else {
      PascalMass(n, k, p);
      TailStep(n - 1, k, p);
      if k == 0 {
        MassOutside(n - 1, -1, p);
        TailNegative(n - 1, -1, p);
        TailNegative(n - 1, -2, p);
      } else {
        TailStep(n - 1, k - 1, p);
      }
      MixtureAdd(p, Tail(n - 1, k - 2, p), Tail(n - 1, k - 1, p), Mass(n - 1, k - 1, p), Mass(n - 1, k, p));
    }
  }

  lemma MixtureAdd(p: real, a: real, b: real, x: real, y: real)
    ensures Mixture(p, a + x, b + y) == Mixture(p, a, b) + Mixture(p, x, y)
  {}

  /** The sum the code accumulates is the tail recursion. */
  lemma {:induction false} MassSum(n: nat, k: int, p: real)
    requires k >= -1
    ensures Sum(Masses(n, p), k + 1) == Tail(n, k, p)
    decreases k + 1
  {
    hide Mass;
    if k >= 0 {
      MassSum(n, k - 1, p);
      TailStep(n, k, p);
      assert Sum(Masses(n, p), k + 1) == Sum(Masses(n, p), k) + Mass(n, k, p);
    } else {
      TailNegative(n, k, p);
    }
  }

  lemma MassOfNothing(k: int, p: real)
    requires k >= 0
    ensures Mass(0, k, p) == if k == 0 then 1.0 else 0.0
  {}

  lemma {:induction false} TailNegative(n: nat, k: int, p: real)
    requires k < 0
    ensures Tail(n, k, p) == 0.0
  {
    hide Mixture;
    if n > 0 {
      TailNegative(n - 1, k - 1, p);
      TailNegative(n - 1, k, p);
      MixtureSame(p, 0.0);
    }
  }

  // ----- shape of the CDF

  lemma MixtureSame(p: real, a: real)
    ensures Mixture(p, a, a) == a
  {}

  lemma MixtureMono(p: real, a: real, b: real, a': real, b': real)
    requires 0.0 <= p <= 1.0 && a <= a' && b <= b'
    ensures Mixture(p, a, b) <= Mixture(p, a', b')
  {
    ProductNonNegative(p, a' - a, p * (a' - a));
    ProductNonNegative(1.0 - p, b' - b, (1.0 - p) * (b' - b));
  }

  lemma MixtureFalls(p: real, p': real, a: real, b: real)
    requires p <= p' && a <= b
    ensures Mixture(p, a, b) >= Mixture(p', a, b)
  {}

  lemma {:induction false} TailRange(n: nat, k: int, p: real)
    requires 0.0 <= p <= 1.0
    ensures 0.0 <= Tail(n, k, p) <= 1.0
  {
    hide Mixture;
    if n > 0 {
      TailRange(n - 1, k - 1, p);
      TailRange(n - 1, k, p);
      MixtureSame(p, 0.0);
      MixtureSame(p, 1.0);
      MixtureMono(p, 0.0, 0.0, Tail(n - 1, k - 1, p), Tail(n - 1, k, p));
      MixtureMono(p, Tail(n - 1, k - 1, p), Tail(n - 1, k, p), 1.0, 1.0);
    }
  }

  /** The masses of all outcomes sum to one. */
  lemma {:induction false} TailFull(n: nat, k: int, p: real)
    requires k >= n
    ensures Tail(n, k, p) == 1.0
    decreases n
  {
    hide Mixture;
    if n > 0 {
      TailFull(n - 1, k - 1, p);
      TailFull(n - 1, k, p);
      MixtureSame(p, 1.0);
    }
  }

  /** The CDF rises in k. */
  lemma {:induction false} TailRises(n: nat, k: int, p: real)
    requires 0.0 <= p <= 1.0
    ensures Tail(n, k - 1, p) <= Tail(n, k, p)
    decreases n
  {
    hide Mixture;
    if n > 0 {
      TailRises(n - 1, k - 1, p);
      TailRises(n - 1, k, p);
      MixtureMono(p, Tail(n - 1, k - 2, p), Tail(n - 1, k - 1, p), Tail(n - 1, k - 1, p), Tail(n - 1, k, p));
    }
  }

  /** The CDF falls in p. */
  lemma {:induction false} TailFalls(n: nat, k: int, p: real, p': real)
    requires 0.0 <= p <= p' <= 1.0
    ensures Tail(n, k, p) >= Tail(n, k, p')
    decreases n
  {
    hide Mixture;
    if n > 0 {
      TailFalls(n - 1, k - 1, p, p');
      TailFalls(n - 1, k, p, p');
      TailRises(n - 1, k, p');
      MixtureMono(p, Tail(n - 1, k - 1, p'), Tail(n - 1, k, p'), Tail(n - 1, k - 1, p), Tail(n - 1, k, p));
      MixtureFalls(p, p', Tail(n - 1, k - 1, p'), Tail(n - 1, k, p'));
    }
  }

  /** P[Binomial(n, p) <= n - 1] = 1 - p^n. */
  lemma {:induction false} TailLast(n: nat, p: real)
    ensures Tail(n, n - 1, p) == 1.0 - Pow(p, n)
  {
    hide Mixture;
    if n > 0 {
      TailLast(n - 1, p);
      TailFull(n - 1, n - 1, p);
      LastMixture(p, Pow(p, n - 1));
    }
  }

  lemma LastMixture(p: real, x: real)
    ensures Mixture(p, 1.0 - x, 1.0) == 1.0 - p * x
  {}

  // ----- the code

  /** Raises for an invalid p, n or k; otherwise the CDF. */
  method BinomialCdf(k: int, n: int, p: Float) returns (r: Result<real>)
    ensures r.Ok? <==> p.Finite? && 0.0 < p.r < 1.0 && n >= 0 && k >= -1
    ensures r.Ok? ==> r.value == Tail(n, k, p.r)
  {
    hide Mass;
    if !IsProbability(p) || n < 0 || k < -1 {
      return ValueError;
    }
    if k < 0 {
      TailNegative(n, k, p.r);
      return Ok(0.0);
    }
    if k >= n {
      TailFull(n, k, p.r);
      return Ok(1.0);
    }
    var total := 0.0;
    for i := 0 to k + 1
      invariant total == Sum(Masses(n, p.r), i)
    {
      total := total + Mass(n, i, p.r);
    }
    MassSum(n, k, p.r);
    TailRange(n, k, p.r);
    return Ok(if total < 1.0 then total else 1.0);
  }
}
