/**
 The region of feature vectors that the guard of pkg/planner/planner.go, validateOOD, admits.
 */
module OodRegion {
  import opened Floats
  import opened Sums
  import opened Complexes
  import opened Cholesky
  import opened OodForm
  import opened Semidefinite

  function Blend(t: real, u: RVec, v: RVec): RVec { i => t * u(i) + (1.0 - t) * v(i) }

  function Apart(u: RVec, v: RVec): RVec { i => u(i) - v(i) }

  /** How scores combine under a blend. */
  function Mix(t: real, f: real, g: real, h: real): real { t * f + (1.0 - t) * g - (t * (1.0 - t)) * h }

  lemma MixAdd(t: real, f: real, g: real, h: real, x: real, y: real, z: real)
    ensures Mix(t, f + x, g + y, h + z) == Mix(t, f, g, h) + Mix(t, x, y, z)
  {}

  lemma BlendPair(t: real, p: real, q: real, r: real, s: real)
    ensures (t * p + (1.0 - t) * r) * (t * q + (1.0 - t) * s)
         == t * (p * q) + (1.0 - t) * (r * s) - (t * (1.0 - t)) * ((p - r) * (q - s))
  {}

  lemma BlendTerm(t: real, b: real, p: real, q: real, r: real, s: real, w: real, z: real)
    requires w == t * p + (1.0 - t) * r && z == t * q + (1.0 - t) * s
    ensures Triple(w, b, z) == Mix(t, Triple(p, b, q), Triple(r, b, s), Triple(p - r, b, q - s))
  {
    BlendPair(t, p, q, r, s);
    var c := t * (1.0 - t);
    var m, l, k := p * q, r * s, (p - r) * (q - s);
    assert w * z == t * m + (1.0 - t) * l - c * k;
    assert w * b * z == b * (w * z);
    assert p * b * q == b * m && r * b * s == b * l && (p - r) * b * (q - s) == b * k;
    var u, v := t * m, (1.0 - t) * l;
    assert b * (u + v - c * k) == b * u + b * v - b * (c * k);
    assert b * u == t * (b * m) && b * v == (1.0 - t) * (b * l) && b * (c * k) == c * (b * k);
  }

  lemma {:induction false} BlendSum(t: real, f: RVec, g: RVec, h: RVec, w: RVec, n: int)
    requires forall k | 0 <= k < n :: w(k) == Mix(t, f(k), g(k), h(k))
    ensures Sum(w, n) == Mix(t, Sum(f, n), Sum(g, n), Sum(h, n))
  {
    if n <= 0 {
      assert Mix(t, 0.0, 0.0, 0.0) == 0.0;
    } else {
      hide Mix;
      BlendSum(t, f, g, h, w, n - 1);
      MixAdd(t, Sum(f, n - 1), Sum(g, n - 1), Sum(h, n - 1), f(n - 1), g(n - 1), h(n - 1));
    }
  }

  /** The score of a blend, for any matrix. */
  lemma ScoreBlend(a: RMat, t: real, u: RVec, v: RVec, n: int)
    ensures Score(a, Blend(t, u, v), n) == Mix(t, Score(a, u, n), Score(a, v, n), Score(a, Apart(u, v), n))
  {
    hide Mix;
    var w, d := Blend(t, u, v), Apart(u, v);
    forall i | 0 <= i < n
      ensures ScoreRows(a, w, n)(i) == Mix(t, ScoreRows(a, u, n)(i), ScoreRows(a, v, n)(i), ScoreRows(a, d, n)(i))
    {
      ScoreRowBlend(a, t, u, v, i, n);
    }
    BlendSum(t, ScoreRows(a, u, n), ScoreRows(a, v, n), ScoreRows(a, d, n), ScoreRows(a, w, n), n);
  }

  lemma ScoreRowBlend(a: RMat, t: real, u: RVec, v: RVec, i: int, n: int)
    ensures ScoreRows(a, Blend(t, u, v), n)(i)
         == Mix(t, ScoreRows(a, u, n)(i), ScoreRows(a, v, n)(i), ScoreRows(a, Apart(u, v), n)(i))
  {
    hide Mix;
    hide Triple;
    var w, d := Blend(t, u, v), Apart(u, v);
    forall j | 0 <= j < n
      ensures ScoreTerms(a, w, i)(j) == Mix(t, ScoreTerms(a, u, i)(j), ScoreTerms(a, v, i)(j), ScoreTerms(a, d, i)(j))
    {
      BlendTerm(t, a(i, j), u(i), u(j), v(i), v(j), w(i), w(j));
      assert ScoreTerms(a, u, i)(j) == Triple(u(i), a(i, j), u(j));
      assert ScoreTerms(a, v, i)(j) == Triple(v(i), a(i, j), v(j));
      assert ScoreTerms(a, d, i)(j) == Triple(u(i) - v(i), a(i, j), u(j) - v(j));
    }
    BlendSum(t, ScoreTerms(a, u, i), ScoreTerms(a, v, i), ScoreTerms(a, d, i), ScoreTerms(a, w, i), n);
  }

  lemma ConvexArithmetic(t: real, x: real, y: real, z: real, threshold: real)
    requires 0.0 <= t <= 1.0 && x <= threshold && y <= threshold && z >= 0.0
    ensures Mix(t, x, y, z) <= threshold
  {
    var r := 1.0 - t;
    var c := t * r;
    ProductNonNegative(t, r, c);
    ProductNonNegative(c, z, c * z);
    ProductNonNegative(t, threshold - x, t * (threshold - x));
    ProductNonNegative(r, threshold - y, r * (threshold - y));
    assert t * threshold + r * threshold == threshold;
  }

  /** The score of x measured from the mean. */
  function Distance(a: RMat, mean: RVec, x: RVec, n: int): real { Score(a, Apart(x, mean), n) }

  ghost predicate Admitted(a: RMat, mean: RVec, threshold: real, x: RVec, n: int)
  {
    0.0 <= Distance(a, mean, x, n) <= threshold
  }

  lemma BlendApart(t: real, x: real, y: real, m: real)
    ensures t * x + (1.0 - t) * y - m == t * (x - m) + (1.0 - t) * (y - m)
  {}

  ghost predicate RegionConvex(a: RMat, mean: RVec, threshold: real, n: int)
  {
    forall x: RVec, y: RVec, t | 0.0 <= t <= 1.0 ::
      Admitted(a, mean, threshold, x, n) && Admitted(a, mean, threshold, y, n) ==>
        Admitted(a, mean, threshold, Blend(t, x, y), n)
  }

  /** When no score is negative, every point between two admitted points is admitted. */
  lemma NonNegativeConvex(a: RMat, mean: RVec, threshold: real, x: RVec, y: RVec, t: real, n: int)
    requires NonNegativeScores(a, n)
    requires Admitted(a, mean, threshold, x, n) && Admitted(a, mean, threshold, y, n) && 0.0 <= t <= 1.0
    ensures Admitted(a, mean, threshold, Blend(t, x, y), n)
  {
    hide Score;
    var u, v := Apart(x, mean), Apart(y, mean);
    forall i | 0 <= i < n
      ensures Apart(Blend(t, x, y), mean)(i) == Blend(t, u, v)(i)
    {
      BlendApart(t, x(i), y(i), mean(i));
    }
    ScoreExt(a, Apart(Blend(t, x, y), mean), Blend(t, u, v), n);
    ScoreBlend(a, t, u, v, n);
    assert Score(a, Apart(u, v), n) >= 0.0 && Score(a, Blend(t, u, v), n) >= 0.0;
    ConvexArithmetic(t, Score(a, u, n), Score(a, v, n), Score(a, Apart(u, v), n), threshold);
  }

  /** With the symmetric part factoring in order, the admitted region is convex. */
  lemma AdmittedRegionConvex(a: RMat, sq: real -> real, mean: RVec, threshold: real, x: RVec, y: RVec, t: real, n: int)
    requires IsSqrt(sq) && n >= 0 && SemiDefinite(a, sq, n)
    requires Admitted(a, mean, threshold, x, n) && Admitted(a, mean, threshold, y, n) && 0.0 <= t <= 1.0
    ensures Admitted(a, mean, threshold, Blend(t, x, y), n)
  {
    hide Admitted;
    NonNegativeIffSemiDefinite(a, sq, n);
    NonNegativeConvex(a, mean, threshold, x, y, t, n);
  }

  // ----- a negative score breaks convexity

  function Along(u: RVec, s: real, v: RVec): RVec { i => u(i) + s * v(i) }

  function Nowhere(): RVec { i => 0.0 }

  lemma NegProduct(p: real, b: real, q: real)
    ensures Triple(-p, b, -q) == Triple(p, b, q)
  {}

  lemma ScoreNeg(a: RMat, u: RVec, v: RVec, n: int)
    requires forall i | 0 <= i < n :: u(i) == -v(i)
    ensures Score(a, u, n) == Score(a, v, n)
  {
    forall i | 0 <= i < n
      ensures ScoreRows(a, u, n)(i) == ScoreRows(a, v, n)(i)
    {
      forall j | 0 <= j < n
        ensures ScoreTerms(a, u, i)(j) == ScoreTerms(a, v, i)(j)
      {
        NegProduct(v(i), a(i, j), v(j));
      }
      SumExt(ScoreTerms(a, u, i), ScoreTerms(a, v, i), n);
    }
    SumExt(ScoreRows(a, u, n), ScoreRows(a, v, n), n);
  }

  function Parabola(p: real, b: real, c: real, s: real): real { p + s * b + (s * s) * c }

  lemma MixAlong(s: real, p: real, q: real, r: real)
    ensures Mix(1.0 - s, p, q, r) == Parabola(p, q - p - r, r, s)
  {
    var m, b := 1.0 - s, q - p - r;
    assert m * p == p - s * p && m * s == s - s * s;
    assert s * b == s * q - s * p - s * r;
    assert (m * s) * r == s * r - (s * s) * r;
    assert 1.0 - m == s;
  }

  /** Along a line the score is a quadratic. */
  lemma ScoreAlong(a: RMat, u: RVec, s: real, v: RVec, n: int)
    ensures Score(a, Along(u, s, v), n)
         == Parabola(Score(a, u, n), Score(a, Along(u, 1.0, v), n) - Score(a, u, n) - Score(a, v, n), Score(a, v, n), s)
  {
    hide Score;
    hide Mix;
    hide Parabola;
    var w := Along(u, 1.0, v);
    forall i ensures Along(u, s, v)(i) == Blend(1.0 - s, u, w)(i) {
      LinePoint(s, u(i), v(i));
    }
    ScoreExt(a, Along(u, s, v), Blend(1.0 - s, u, w), n);
    ScoreBlend(a, 1.0 - s, u, w, n);
    ScoreNeg(a, Apart(u, w), v, n);
    MixAlong(s, Score(a, u, n), Score(a, w, n), Score(a, v, n));
  }

  lemma LinePoint(s: real, x: real, y: real)
    ensures x + s * y == (1.0 - s) * x + (1.0 - (1.0 - s)) * (x + 1.0 * y)
  {}

  lemma ScoreScaled(a: RMat, h: real, v: RVec, n: int)
    ensures Score(a, Along(Nowhere(), h, v), n) == (h * h) * Score(a, v, n)
  {
    forall i | 0 <= i < n ensures ScoreRows(a, Nowhere(), n)(i) == 0.0 {
      forall j | 0 <= j < n ensures ScoreTerms(a, Nowhere(), i)(j) == 0.0 {
        TripleZero(0.0, a(i, j), 0.0);
      }
      SumZero(ScoreTerms(a, Nowhere(), i), n);
    }
    SumZero(ScoreRows(a, Nowhere(), n), n);
    hide Score;
    ScoreAlong(a, Nowhere(), h, v, n);
    ScoreExt(a, Along(Nowhere(), 1.0, v), v, n);
  }

  /** A downward parabola that is positive at zero has two roots. */
  lemma Roots(p: real, b: real, c: real, sq: real -> real) returns (s: real, t: real)
    requires IsSqrt(sq) && p > 0.0 && c < 0.0
    ensures s != t && Parabola(p, b, c, s) == 0.0 == Parabola(p, b, c, t)
  {
    var k := p * c;
    NegativeProduct(p, c, k);
    var disc := Square(b) - 4.0 * k;
    SquarePositive(b);
    var w := sq(disc);
    s := (w - b) / (2.0 * c);
    t := (-w - b) / (2.0 * c);
    Root(p, b, c, w, s);
    Root(p, b, c, -w, t);
    assert s * (2.0 * c) == w - b && t * (2.0 * c) == -w - b;
  }

  lemma NegativeProduct(p: real, c: real, k: real)
    requires p > 0.0 && c < 0.0 && k == p * c
    ensures k < 0.0
  {
    var m := -c;
    ProductPositive(p, m, p * m);
    assert p * m == -k;
  }

  lemma Root(p: real, b: real, c: real, w: real, s: real)
    requires c != 0.0 && w * w == Square(b) - 4.0 * (p * c) && s == (w - b) / (2.0 * c)
    ensures Parabola(p, b, c, s) == 0.0
  {
    var m := s * c;
    assert m + m == w - b;
    assert (m + m + b) * (m + m + b) == 4.0 * (m * m) + 4.0 * (m * b) + b * b;
    assert m * m + m * b + p * c == 0.0;
    var e := p + s * b + (s * s) * c;
    assert m * m == (s * s) * c * c && m * b == s * b * c;
    assert e * c == 0.0;
  }

  /**
   The exact condition: with a threshold of at least zero and some positive score, which every accepted
   matrix has, the admitted region is convex if and only if no score is negative.
   */
  lemma RegionConvexIff(a: RMat, sq: real -> real, mean: RVec, threshold: real, u: RVec, n: int)
    requires IsSqrt(sq) && threshold >= 0.0 && Score(a, u, n) > 0.0
    ensures RegionConvex(a, mean, threshold, n) <==> NonNegativeScores(a, n)
  {
    hide Score;
    if NonNegativeScores(a, n) {
      forall x: RVec, y: RVec, t | 0.0 <= t <= 1.0
            && Admitted(a, mean, threshold, x, n) && Admitted(a, mean, threshold, y, n)
        ensures Admitted(a, mean, threshold, Blend(t, x, y), n)
      {
        NonNegativeConvex(a, mean, threshold, x, y, t, n);
      }
    } else {
      var v: RVec :| Score(a, v, n) < 0.0;
      NotConvex(a, sq, mean, threshold, u, v, n);
    }
  }

  lemma NotConvex(a: RMat, sq: real -> real, mean: RVec, threshold: real, u: RVec, v: RVec, n: int)
    requires IsSqrt(sq) && threshold >= 0.0 && Score(a, u, n) > 0.0 > Score(a, v, n)
    ensures !RegionConvex(a, mean, threshold, n)
  {
    hide Score;
    hide Parabola;
    var p, c := Score(a, u, n), Score(a, v, n);
    var b := Score(a, Along(u, 1.0, v), n) - p - c;
    var s, t := Roots(p, b, c, sq);
    ScoreAlong(a, u, s, v, n);
    ScoreAlong(a, u, t, v, n);
    var x, y := Along(mean, 1.0, Along(u, s, v)), Along(mean, -1.0, Along(u, t, v));
    forall i ensures Apart(x, mean)(i) == Along(u, s, v)(i) && Apart(y, mean)(i) == -Along(u, t, v)(i) {}
    ScoreExt(a, Apart(x, mean), Along(u, s, v), n);
    ScoreNeg(a, Apart(y, mean), Along(u, t, v), n);
    assert Admitted(a, mean, threshold, x, n) && Admitted(a, mean, threshold, y, n);
    BadMidpoint(a, mean, threshold, u, s, t, v, n);
  }

  lemma BadMidpoint(a: RMat, mean: RVec, threshold: real, u: RVec, s: real, t: real, v: RVec, n: int)
    requires s != t && Score(a, v, n) < 0.0
    ensures var x, y := Along(mean, 1.0, Along(u, s, v)), Along(mean, -1.0, Along(u, t, v));
            !Admitted(a, mean, threshold, Blend(0.5, x, y), n)
  {
    hide Score;
    var x, y := Along(mean, 1.0, Along(u, s, v)), Along(mean, -1.0, Along(u, t, v));
    var h := (s - t) / 2.0;
    forall i ensures Apart(Blend(0.5, x, y), mean)(i) == Along(Nowhere(), h, v)(i) {
      Midpoint(mean(i), u(i), v(i), s, t);
    }
    ScoreExt(a, Apart(Blend(0.5, x, y), mean), Along(Nowhere(), h, v), n);
    ScoreScaled(a, h, v, n);
    SquarePositive(h);
    NegativeProduct(h * h, Score(a, v, n), (h * h) * Score(a, v, n));
  }

  lemma Midpoint(m: real, u: real, v: real, s: real, t: real)
    ensures 0.5 * (m + 1.0 * (u + s * v)) + (1.0 - 0.5) * (m + -1.0 * (u + t * v)) - m == 0.0 + ((s - t) / 2.0) * v
  {
    assert (s - t) / 2.0 * v == 0.5 * (s * v) - 0.5 * (t * v);
  }

  // ----- symmetry

  function Mirror(mean: RVec, x: RVec): RVec { i => mean(i) + mean(i) - x(i) }

  /** The admitted region is symmetric about the mean. */
  lemma AdmittedRegionSymmetric(a: RMat, mean: RVec, threshold: real, x: RVec, n: int)
    ensures Admitted(a, mean, threshold, Mirror(mean, x), n) <==> Admitted(a, mean, threshold, x, n)
  {
    hide Score;
    ScoreNeg(a, Apart(Mirror(mean, x), mean), Apart(x, mean), n);
  }
}
