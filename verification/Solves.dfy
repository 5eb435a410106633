/** Forward and backward substitution solve the systems they are written for. */
module Solves {
  import opened Complexes
  import opened Cholesky

  lemma {:induction false} ForwardSum(M: Mat, b: Vec, i: int, m: int)
    requires 0 <= m <= i
    ensures b(i) == Plus(CSum(RowTerms(M, i, ForwardVec(M, b)), m), ForwardAcc(M, b, i, m))
    decreases m
  {
    hide Times;
    hide Forward;
    if m > 0 {
      var terms := RowTerms(M, i, ForwardVec(M, b));
      ForwardSum(M, b, i, m - 1);
      CSumStep(terms, m - 1);
      assert terms(m - 1) == Times(M(i, m - 1), Forward(M, b, m - 1));
      MinusPlus(CSum(terms, m - 1), ForwardAcc(M, b, i, m - 1), terms(m - 1));
    }
  }

  /** M y = b for the forward substitution vector y. */
  lemma ForwardSolves(M: Mat, b: Vec, i: int, n: int)
    requires LowerTriangular(M, n) && 0 <= i < n
    ensures Row(M, i, ForwardVec(M, b), n) == b(i)
  {
    hide Times;
    var y := ForwardVec(M, b);
    var terms := RowTerms(M, i, y);
    ForwardSum(M, b, i, i);
    CSumStep(terms, i);
    OverTimes(ForwardAcc(M, b, i, i), M(i, i).re);
    assert terms(i) == Times(M(i, i), y(i)) == ForwardAcc(M, b, i, i);
    forall k | i < k < n
      ensures terms(k) == ZERO
    {
      TimesZero(y(k));
      assert terms(k) == Times(M(i, k), y(k));
    }
    CSumTail(terms, i + 1, n);
  }

  lemma {:induction false} BackwardSum(M: Mat, y: Vec, n: int, i: int, m: int)
    requires LowerTriangular(M, n) && 0 <= i < m <= n
    ensures Plus(CSum(DotTerms(ColOf(M, i), BackwardVec(M, y, n)), m), BackwardAcc(M, y, n, i, m))
         == Plus(BackwardAcc(M, y, n, i, n), y(i))
    decreases m
  {
    hide Times;
    hide CSum;
    var x := BackwardVec(M, y, n);
    var terms := DotTerms(ColOf(M, i), x);
    if m == i + 1 {
      DiagonalTerm(M, y, n, i);
    } else {
      BackwardSum(M, y, n, i, m - 1);
      BackwardStep(M, y, n, i, m);
      CSumStep(terms, m - 1);
      MinusPlus(CSum(terms, m - 1), BackwardAcc(M, y, n, i, m - 1), terms(m - 1));
    }
  }

  lemma BackwardStep(M: Mat, y: Vec, n: int, i: int, m: int)
    requires 0 <= i && i + 1 < m <= n
    ensures BackwardAcc(M, y, n, i, m)
         == Minus(BackwardAcc(M, y, n, i, m - 1), DotTerms(ColOf(M, i), BackwardVec(M, y, n))(m - 1))
  {}

  lemma DiagonalTerm(M: Mat, y: Vec, n: int, i: int)
    requires LowerTriangular(M, n) && 0 <= i < n
    ensures CSum(DotTerms(ColOf(M, i), BackwardVec(M, y, n)), i + 1) == BackwardAcc(M, y, n, i, n)
  {
    hide Times;
    hide CSum;
    hide BackwardAcc;
    hide Conj;
    var x := BackwardVec(M, y, n);
    var terms := DotTerms(ColOf(M, i), x);
    forall k | 0 <= k < i
      ensures terms(k) == ZERO
    {
      TimesZero(x(k));
      assert terms(k) == Times(Conj(M(k, i)), x(k));
      ConjZero();
    }
    CSumSingle(terms, i, i + 1);
    OverTimes(BackwardAcc(M, y, n, i, n), M(i, i).re);
    ConjReal(M(i, i));
    assert terms(i) == Times(Conj(M(i, i)), x(i));
  }

  /** M^H x = y for the backward substitution vector x. */
  lemma BackwardSolves(M: Mat, y: Vec, n: int, i: int)
    requires LowerTriangular(M, n) && 0 <= i < n
    ensures Dot(ColOf(M, i), BackwardVec(M, y, n), n) == y(i)
  {
    hide Times;
    hide CSum;
    BackwardSum(M, y, n, i, n);
    PlusCancel(CSum(DotTerms(ColOf(M, i), BackwardVec(M, y, n)), n), BackwardAcc(M, y, n, i, n), y(i));
  }

  lemma PlusCancel(a: Complex, b: Complex, c: Complex)
    requires Plus(a, b) == Plus(b, c)
    ensures a == c
  {}

  function NoRemainder(): Mat { (i, j) => ZERO }

  lemma ZeroRow(i: int, x: Vec, n: int)
    ensures Row(NoRemainder(), i, x, n) == ZERO
  {
    hide Times;
    forall j: int
      ensures RowTerms(NoRemainder(), i, x)(j) == ZERO
    {
      TimesZero(x(j));
      assert RowTerms(NoRemainder(), i, x)(j) == Times(NoRemainder()(i, j), x(j));
    }
    CSumZero(RowTerms(NoRemainder(), i, x), n);
  }

  lemma ExactGram(A: Mat, M: Mat, n: int)
    requires forall i, j | 0 <= i < n && 0 <= j < n :: A(i, j) == CSum(GramTerms(M, i, j), n)
    ensures IsGramPlus(A, M, NoRemainder(), n, n)
  {}

  /** Forward then backward substitution solves (M M^H) x = b. */
  lemma SolveCorrect(A: Mat, M: Mat, b: Vec, i: int, n: int)
    requires LowerTriangular(M, n) && 0 <= i < n
    requires forall i, j | 0 <= i < n && 0 <= j < n :: A(i, j) == CSum(GramTerms(M, i, j), n)
    ensures Row(A, i, Solve(M, b, n), n) == b(i)
  {
    hide CSum;
    hide Times;
    var y := ForwardVec(M, b);
    var x := Solve(M, b, n);
    ExactGram(A, M, n);
    GramRow(A, M, NoRemainder(), x, i, n, n);
    ZeroRow(i, x, n);
    PlusZero(Row(M, i, Adjoint(M, x, n), n));
    forall k | 0 <= k < n
      ensures RowTerms(M, i, Adjoint(M, x, n))(k) == RowTerms(M, i, y)(k)
    {
      BackwardSolves(M, y, n, k);
      assert Adjoint(M, x, n)(k) == y(k);
    }
    CSumExt(RowTerms(M, i, Adjoint(M, x, n)), RowTerms(M, i, y), n);
    ForwardSolves(M, b, i, n);
  }
}
