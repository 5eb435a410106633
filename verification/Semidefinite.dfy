/**
 When the score of pkg/planner/planner.go, validateOOD, is never negative: an exact condition on the
 factorisation of the symmetric part, zero pivots included.
 */
module Semidefinite {
  import opened Floats
  import opened Sums
  import opened Complexes
  import opened Cholesky
  import opened OodGate
  import opened OodForm

  ghost predicate NonNegativeScores(a: RMat, n: int) { forall d: RVec :: Score(a, d, n) >= 0.0 }

  /** Pivot m is not negative, and when it is zero nothing is left below it. */
  ghost predicate ColumnOk(s: RMat, sq: real -> real, m: int, n: int)
  {
    && Pivot(LiftM(s), sq, m, m) >= 0.0
    && (Pivot(LiftM(s), sq, m, m) == 0.0 ==> forall i | m < i < n :: Reduced(LiftM(s), sq, i, m, m) == ZERO)
  }

  /** The factorisation of the symmetric part meets no negative pivot, and no zero pivot with a remainder. */
  ghost predicate SemiDefinite(a: RMat, sq: real -> real, n: int)
  {
    forall m | 0 <= m < n :: ColumnOk(Symm(a), sq, m, n)
  }

  // ----- what remains after m columns

  function Rem(s: RMat, sq: real -> real, m: int): RMat { (i, j) => Reduced(LiftM(s), sq, i, j, m).re }

  /** Rows and columns below m are cleared. */
  ghost predicate Cleared(r: RMat, m: int, n: int)
  {
    forall i, j | 0 <= i < n && 0 <= j < n && (i < m || j < m) :: r(i, j) == 0.0
  }

  function Prod(x: real, y: real): real { x * y }

  lemma ProdFacts(x: real, y: real)
    ensures Prod(x, y) == Prod(y, x)
    ensures x == 0.0 ==> Prod(x, y) == 0.0
  {}

  lemma RemStep(s: RMat, sq: real -> real, m: int, i: int, j: int)
    requires m >= 0
    ensures Rem(s, sq, m + 1)(i, j) == Rem(s, sq, m)(i, j) - Prod(Lr(s, sq, i, m), Lr(s, sq, j, m))
  {
    hide Reduced;
    hide Lr;
    ReducedStep(s, sq, i, j, m);
  }

  lemma {:induction false} RemFlip(s: RMat, sq: real -> real, m: int, i: int, j: int)
    requires m >= 0 && s(i, j) == s(j, i)
    ensures Rem(s, sq, m)(i, j) == Rem(s, sq, m)(j, i)
  {
    hide Lr;
    hide Prod;
    if m > 0 {
      RemFlip(s, sq, m - 1, i, j);
      hide Rem;
      RemStep(s, sq, m - 1, i, j);
      RemStep(s, sq, m - 1, j, i);
      ProdFacts(Lr(s, sq, i, m - 1), Lr(s, sq, j, m - 1));
    }
  }

  /** Column m times its diagonal entry is column m of what remains. */
  lemma ColumnFits(s: RMat, sq: real -> real, m: int, n: int, i: int)
    requires IsSqrt(sq) && 0 <= m <= i < n && ColumnOk(s, sq, m, n)
    ensures Rem(s, sq, m)(i, m) == Prod(Lr(s, sq, i, m), Lr(s, sq, m, m))
    ensures Pivot(LiftM(s), sq, m, m) > 0.0 ==> Lr(s, sq, m, m) > 0.0
    ensures Pivot(LiftM(s), sq, m, m) == 0.0 ==> Lr(s, sq, i, m) == 0.0
  {
    PivotIsReduced(s, sq, m, m);
    if Pivot(LiftM(s), sq, m, m) > 0.0 {
      PositiveColumn(s, sq, m, i);
    } else {
      ZeroColumn(s, sq, m, i);
      ProdFacts(Lr(s, sq, i, m), Lr(s, sq, m, m));
      hide Prod;
      hide Pivot;
      hide Lr;
      hide Reduced;
      assert i > m ==> Reduced(LiftM(s), sq, i, m, m) == ZERO;
    }
  }

  lemma ZeroColumn(s: RMat, sq: real -> real, m: int, i: int)
    requires Pivot(LiftM(s), sq, m, m) <= 0.0
    ensures Lr(s, sq, i, m) == 0.0
  {
    hide Pivot;
    hide Reduced;
  }

  lemma PositiveColumn(s: RMat, sq: real -> real, m: int, i: int)
    requires IsSqrt(sq) && 0 <= m <= i && Pivot(LiftM(s), sq, m, m) > 0.0
    ensures Lr(s, sq, m, m) > 0.0 && Rem(s, sq, m)(i, m) == Prod(Lr(s, sq, i, m), Lr(s, sq, m, m))
  {
    hide Pivot;
    hide Reduced;
    hide Lr;
    DiagonalEntry(s, sq, m);
    PivotIsReduced(s, sq, m, m);
    if m < i {
      EntryBelow(s, sq, i, m);
      Quotient(Rem(s, sq, m)(i, m), Lr(s, sq, m, m));
    }
  }

  lemma Quotient(a: real, b: real)
    requires b > 0.0
    ensures Prod(a / b, b) == a
  {}

  lemma ClearedStep(s: RMat, sq: real -> real, m: int, n: int)
    requires IsSqrt(sq) && 0 <= m < n && Symmetric(s, n) && ColumnOk(s, sq, m, n) && Cleared(Rem(s, sq, m), m, n)
    ensures Cleared(Rem(s, sq, m + 1), m + 1, n)
  {
    hide ColumnOk;
    hide Prod;
    hide Lr;
    hide Rem;
    var next := Rem(s, sq, m + 1);
    forall i, j | 0 <= i < n && 0 <= j < n && (i < m + 1 || j < m + 1) ensures next(i, j) == 0.0 {
      RemStep(s, sq, m, i, j);
      RemFlip(s, sq, m, i, j);
      ProdFacts(Lr(s, sq, i, m), Lr(s, sq, j, m));
      ProdFacts(Lr(s, sq, j, m), Lr(s, sq, i, m));
      if i < m {
        AboveZero(s, sq, i, m);
      } else if j < m {
        AboveZero(s, sq, j, m);
      } else if j == m {
        ColumnFits(s, sq, m, n, i);
      } else {
        ColumnFits(s, sq, m, n, j);
      }
    }
  }

  lemma AboveZero(s: RMat, sq: real -> real, i: int, m: int)
    requires i < m
    ensures Lr(s, sq, i, m) == 0.0
  {
    UpperZero(LiftM(s), sq, i, m);
  }

  // ----- one column is one square

  function Linear(l: RVec, d: RVec): RVec { i => Prod(l(i), d(i)) }

  lemma RankOneRow(f: RMat, e: RMat, l: RVec, d: RVec, i: int, n: int)
    requires forall j | 0 <= j < n :: f(i, j) == e(i, j) + Prod(l(i), l(j))
    ensures ScoreRows(f, d, n)(i) == ScoreRows(e, d, n)(i) + Prod(Linear(l, d)(i), Sum(Linear(l, d), n))
  {
    hide Triple;
    hide Prod;
    var c := Linear(l, d)(i);
    var t := (j: int) => Prod(c, Linear(l, d)(j));
    forall j | 0 <= j < n
      ensures ScoreTerms(f, d, i)(j) == ScoreTerms(e, d, i)(j) + t(j)
    {
      TripleRankOne(d(i), e(i, j), l(i), l(j), d(j));
      assert ScoreTerms(f, d, i)(j) == Triple(d(i), f(i, j), d(j));
      assert ScoreTerms(e, d, i)(j) == Triple(d(i), e(i, j), d(j));
    }
    SumAdd(ScoreTerms(e, d, i), t, ScoreTerms(f, d, i), n);
    SumProd(c, Linear(l, d), t, n);
  }

  lemma SumProd(c: real, f: RVec, t: RVec, n: int)
    requires forall j | 0 <= j < n :: t(j) == Prod(c, f(j))
    ensures Sum(t, n) == Prod(c, Sum(f, n))
  {
    SumScale(c, f, t, n);
  }

  lemma TripleRankOne(x: real, b: real, p: real, q: real, y: real)
    ensures Triple(x, b + Prod(p, q), y) == Triple(x, b, y) + Prod(Prod(p, x), Prod(q, y))
  {
    assert x * (b + p * q) * y == x * b * y + (p * x) * (q * y);
  }

  lemma ScoreRankOne(f: RMat, e: RMat, l: RVec, d: RVec, n: int)
    requires forall i, j | 0 <= i < n && 0 <= j < n :: f(i, j) == e(i, j) + Prod(l(i), l(j))
    ensures Score(f, d, n) == Score(e, d, n) + Square(Sum(Linear(l, d), n))
  {
    hide Prod;
    var s := Sum(Linear(l, d), n);
    var t := (i: int) => Prod(Linear(l, d)(i), s);
    forall i | 0 <= i < n
      ensures ScoreRows(f, d, n)(i) == ScoreRows(e, d, n)(i) + t(i)
    {
      RankOneRow(f, e, l, d, i, n);
    }
    SumAdd(ScoreRows(e, d, n), t, ScoreRows(f, d, n), n);
    LinearScaled(l, d, t, s, n);
  }

  lemma LinearScaled(l: RVec, d: RVec, t: RVec, s: real, n: int)
    requires s == Sum(Linear(l, d), n) && forall i :: t(i) == Prod(Linear(l, d)(i), s)
    ensures Sum(t, n) == Square(s)
  {
    SumScale(s, Linear(l, d), t, n);
  }

  /** Column m of the factor. */
  function Col(s: RMat, sq: real -> real, m: int): RVec { i => Lr(s, sq, i, m) }

  lemma RemScore(s: RMat, sq: real -> real, m: int, d: RVec, n: int)
    requires m >= 0
    ensures Score(Rem(s, sq, m), d, n)
         == Score(Rem(s, sq, m + 1), d, n) + Square(Sum(Linear(Col(s, sq, m), d), n))
  {
    hide Score;
    hide Rem;
    hide Lr;
    hide Prod;
    forall i, j | 0 <= i < n && 0 <= j < n
      ensures Rem(s, sq, m)(i, j) == Rem(s, sq, m + 1)(i, j) + Prod(Col(s, sq, m)(i), Col(s, sq, m)(j))
    {
      RemStep(s, sq, m, i, j);
    }
    ScoreRankOne(Rem(s, sq, m), Rem(s, sq, m + 1), Col(s, sq, m), d, n);
  }

  // ----- enough: the score is a sum of squares

  lemma {:induction false} ClearedTo(s: RMat, sq: real -> real, m: int, n: int)
    requires IsSqrt(sq) && 0 <= m <= n && Symmetric(s, n) && forall k | 0 <= k < m :: ColumnOk(s, sq, k, n)
    ensures Cleared(Rem(s, sq, m), m, n)
  {
    hide ColumnOk;
    if m > 0 {
      hide Cleared;
      ClearedTo(s, sq, m - 1, n);
      ClearedStep(s, sq, m - 1, n);
    }
  }

  lemma {:induction false} ScoreAbove(s: RMat, sq: real -> real, m: int, d: RVec, n: int)
    requires m >= 0
    ensures Score(Rem(s, sq, 0), d, n) >= Score(Rem(s, sq, m), d, n)
  {
    hide Score;
    hide Rem;
    if m > 0 {
      ScoreAbove(s, sq, m - 1, d, n);
      RemScore(s, sq, m - 1, d, n);
      SquarePositive(Sum(Linear(Col(s, sq, m - 1), d), n));
    }
  }

  lemma ZeroScore(r: RMat, d: RVec, n: int)
    requires Cleared(r, n, n)
    ensures Score(r, d, n) == 0.0
  {
    forall i | 0 <= i < n
      ensures ScoreRows(r, d, n)(i) == 0.0
    {
      forall j | 0 <= j < n
        ensures ScoreTerms(r, d, i)(j) == 0.0
      {
        assert r(i, j) == 0.0;
      }
      SumZero(ScoreTerms(r, d, i), n);
    }
    SumZero(ScoreRows(r, d, n), n);
  }

  /** On a symmetric matrix whose columns are all in order no score is negative. */
  lemma ColumnsGiveScores(s: RMat, sq: real -> real, d: RVec, n: int)
    requires IsSqrt(sq) && n >= 0 && Symmetric(s, n) && forall m | 0 <= m < n :: ColumnOk(s, sq, m, n)
    ensures Score(s, d, n) >= 0.0
  {
    hide Score;
    hide ColumnOk;
    hide Cleared;
    ScoreMatrixExt(s, Rem(s, sq, 0), d, n);
    hide Rem;
    ScoreAbove(s, sq, n, d, n);
    ClearedTo(s, sq, n, n);
    ZeroScore(Rem(s, sq, n), d, n);
  }

  // ----- necessary: a bad column has a deviation with a negative score

  /** x at p, y at q, zero elsewhere. */
  function Two(p: int, x: real, q: int, y: real): RVec { i => if i == p then x else if i == q then y else 0.0 }

  lemma TwoScore(r: RMat, p: int, x: real, q: int, y: real, n: int)
    requires 0 <= p < q < n
    ensures Score(r, Two(p, x, q, y), n)
         == Triple(x, r(p, p), x) + Triple(x, r(p, q), y) + (Triple(y, r(q, p), x) + Triple(y, r(q, q), y))
  {
    hide Triple;
    var d := Two(p, x, q, y);
    forall i | 0 <= i < n
      ensures ScoreRows(r, d, n)(i) == Triple(d(i), r(i, p), x) + Triple(d(i), r(i, q), y)
      ensures i != p && i != q ==> ScoreRows(r, d, n)(i) == 0.0
    {
      forall j | 0 <= j < n && ((j != p && j != q) || (i != p && i != q))
        ensures ScoreTerms(r, d, i)(j) == 0.0
      {
        TripleZero(d(i), r(i, j), d(j));
      }
      SumPair(ScoreTerms(r, d, i), p, q, n);
    }
    SumPair(ScoreRows(r, d, n), p, q, n);
  }

  lemma OneScore(r: RMat, p: int, n: int)
    requires 0 <= p < n
    ensures Score(r, Two(p, 1.0, p, 1.0), n) == r(p, p)
  {
    var d := Two(p, 1.0, p, 1.0);
    forall i | 0 <= i < n
      ensures ScoreRows(r, d, n)(i) == Triple(d(i), r(i, p), 1.0)
    {
      hide Triple;
      forall j | 0 <= j < n && j != p
        ensures ScoreTerms(r, d, i)(j) == 0.0
      {
        TripleZero(d(i), r(i, j), d(j));
      }
      SumSingle(ScoreTerms(r, d, i), p, n);
    }
    SumSingle(ScoreRows(r, d, n), p, n);
  }

  /** With no negative scores a zero on the diagonal has a zero column below it. */
  lemma ZeroBelowZero(r: RMat, p: int, q: int, n: int)
    requires NonNegativeScores(r, n) && 0 <= p < q < n && r(p, p) == 0.0 && r(p, q) == r(q, p)
    ensures r(q, p) == 0.0
  {
    hide Score;
    hide Triple;
    var b, c := r(q, p), r(q, q);
    OneScore(r, q, n);
    assert Score(r, Two(q, 1.0, q, 1.0), n) >= 0.0;
    var t := -b / (1.0 + c);
    TwoScore(r, p, 1.0, q, t, n);
    assert Score(r, Two(p, 1.0, q, t), n) >= 0.0;
    SmallStep(b, c, t);
  }

  lemma SmallStep(b: real, c: real, t: real)
    requires c >= 0.0 && t == -b / (1.0 + c)
    requires Triple(1.0, 0.0, 1.0) + Triple(1.0, b, t) + (Triple(t, b, 1.0) + Triple(t, c, t)) >= 0.0
    ensures b == 0.0
  {
    assert b == -(t + t * c);
    var u := t * t;
    assert t * b == -(u + u * c) && t * c * t == u * c;
    assert -(2.0 * u + u * c) >= 0.0;
    SquarePositive(t);
    ProductNonNegative(u, c, u * c);
  }

  lemma ColumnOkOf(s: RMat, sq: real -> real, m: int, n: int)
    requires 0 <= m < n && Symmetric(s, n) && NonNegativeScores(Rem(s, sq, m), n)
    ensures ColumnOk(s, sq, m, n)
  {
    hide Score;
    hide Pivot;
    hide Reduced;
    var r := Rem(s, sq, m);
    PivotIsReduced(s, sq, m, m);
    OneScore(r, m, n);
    assert Score(r, Two(m, 1.0, m, 1.0), n) >= 0.0;
    if Pivot(LiftM(s), sq, m, m) == 0.0 {
      forall i | m < i < n ensures Reduced(LiftM(s), sq, i, m, m) == ZERO {
        RemFlip(s, sq, m, m, i);
        ZeroBelowZero(r, m, i, n);
        RealReduced(s, sq, i, m, m);
      }
    }
  }

  /** d with component m set to c. */
  function With(d: RVec, m: int, c: real): RVec { i => if i == m then c else d(i) }

  lemma ScoreIgnores(r: RMat, d: RVec, m: int, c: real, n: int)
    requires forall i | 0 <= i < n :: r(i, m) == 0.0 && r(m, i) == 0.0
    ensures Score(r, With(d, m, c), n) == Score(r, d, n)
  {
    var e := With(d, m, c);
    forall i | 0 <= i < n
      ensures ScoreRows(r, e, n)(i) == ScoreRows(r, d, n)(i)
    {
      forall j | 0 <= j < n
        ensures ScoreTerms(r, e, i)(j) == ScoreTerms(r, d, i)(j)
      {
        if i == m || j == m {
          assert r(i, j) == 0.0;
        }
      }
      SumExt(ScoreTerms(r, e, i), ScoreTerms(r, d, i), n);
    }
    SumExt(ScoreRows(r, e, n), ScoreRows(r, d, n), n);
  }

  /** The value of component m that makes the column's square vanish. */
  lemma Cancel(l: RVec, d: RVec, m: int, n: int) returns (c: real)
    requires 0 <= m < n && l(m) != 0.0
    ensures Sum(Linear(l, With(d, m, c)), n) == 0.0
  {
    hide Prod;
    var rest := Linear(l, With(d, m, 0.0));
    ProdFacts(0.0, l(m));
    c := -Sum(rest, n) / l(m);
    var e := Linear(l, With(d, m, c));
    var single := (i: int) => if i == m then Prod(l(m), c) else 0.0;
    forall i | 0 <= i < n ensures e(i) == rest(i) + single(i) {}
    SumAdd(rest, single, e, n);
    SumSingle(single, m, n);
    DivideBack(Sum(rest, n), l(m), c);
  }

  lemma DivideBack(a: real, b: real, c: real)
    requires b != 0.0 && c == -a / b
    ensures a + Prod(b, c) == 0.0
  {}

  lemma NextNonNegative(s: RMat, sq: real -> real, m: int, n: int)
    requires IsSqrt(sq) && 0 <= m < n && Symmetric(s, n) && Cleared(Rem(s, sq, m), m, n)
    requires ColumnOk(s, sq, m, n) && NonNegativeScores(Rem(s, sq, m), n)
    ensures NonNegativeScores(Rem(s, sq, m + 1), n)
  {
    ClearedStep(s, sq, m, n);
    ColumnFits(s, sq, m, n, m);
    hide ColumnOk;
    hide Score;
    hide Rem;
    hide Lr;
    hide Prod;
    hide Pivot;
    var r, next, l := Rem(s, sq, m), Rem(s, sq, m + 1), Col(s, sq, m);
    forall d: RVec ensures Score(next, d, n) >= 0.0 {
      if Pivot(LiftM(s), sq, m, m) > 0.0 {
        var c := Cancel(l, d, m, n);
        RemScore(s, sq, m, With(d, m, c), n);
        assert Score(r, With(d, m, c), n) >= 0.0;
        ScoreIgnores(next, d, m, c, n);
      } else {
        RemScore(s, sq, m, d, n);
        forall i | 0 <= i < n ensures Linear(l, d)(i) == 0.0 {
          ZeroColumn(s, sq, m, i);
          ProdFacts(l(i), d(i));
        }
        SumZero(Linear(l, d), n);
        assert Score(r, d, n) >= 0.0;
      }
    }
  }

  lemma {:induction false} ScoresGiveColumns(s: RMat, sq: real -> real, m: int, n: int)
    requires IsSqrt(sq) && 0 <= m <= n && Symmetric(s, n) && NonNegativeScores(s, n)
    ensures NonNegativeScores(Rem(s, sq, m), n) && Cleared(Rem(s, sq, m), m, n)
    ensures forall k | 0 <= k < m :: ColumnOk(s, sq, k, n)
  {
    hide ColumnOk;
    hide Score;
    if m == 0 {
      forall d: RVec ensures Score(Rem(s, sq, 0), d, n) >= 0.0 {
        ScoreMatrixExt(Rem(s, sq, 0), s, d, n);
      }
    } else {
      ScoresGiveColumns(s, sq, m - 1, n);
      hide Rem;
      hide Cleared;
      hide NonNegativeScores;
      ColumnOkOf(s, sq, m - 1, n);
      ClearedStep(s, sq, m - 1, n);
      NextNonNegative(s, sq, m - 1, n);
    }
  }

  // ----- the exact condition

  /** For every matrix: no score is negative exactly when the symmetric part factors in order. */
  lemma NonNegativeIffSemiDefinite(a: RMat, sq: real -> real, n: int)
    requires IsSqrt(sq) && n >= 0
    ensures NonNegativeScores(a, n) <==> SemiDefinite(a, sq, n)
  {
    hide Score;
    hide ColumnOk;
    var s := Symm(a);
    assert Symmetric(s, n);
    forall d: RVec ensures Score(s, d, n) == Score(a, d, n) {
      ScoreSymm(a, d, n);
    }
    if SemiDefinite(a, sq, n) {
      forall d: RVec ensures Score(a, d, n) >= 0.0 {
        ColumnsGiveScores(s, sq, d, n);
      }
    }
    if NonNegativeScores(a, n) {
      ScoresGiveColumns(s, sq, n, n);
    }
  }

  /** Positive pivots are in particular in order. */
  lemma DefiniteIsSemiDefinite(a: RMat, sq: real -> real, n: int)
    requires Definite(a, sq, n)
    ensures SemiDefinite(a, sq, n)
  {
    hide Pivot;
  }
}
