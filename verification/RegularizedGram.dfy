/** The regularised Gram matrix H H^H + alpha I and why its factorisation never fails. */
module RegularizedGram {
  import opened Complexes
  import opened Cholesky
  import opened Solves
  import opened PivotForms

  /** Entry (i, j) of H H^H. */
  function GramEntry(H: Mat, i: int, j: int, N: int): Complex { CSum(GramTerms(H, i, j), N) }

  /** Entry (i, j) of H H^H + alpha I; the diagonal keeps only its real part. */
  function RegGram(H: Mat, N: int, alpha: real): Mat
  {
    (i, j) =>
      var g := GramEntry(H, i, j, N);
      if i == j then C(g.re + alpha, 0.0) else g
  }

  function ScaledIdentity(alpha: real): Mat { (i, j) => if i == j then C(alpha, 0.0) else ZERO }

  lemma GramDiagonalReal(H: Mat, i: int, N: int)
    ensures CSum(GramTerms(H, i, i), N).im == 0.0
  {
    hide CSum;
    GramFlip(H, i, i, N);
  }

  /** The diagonal is real and the matrix is its own Hermitian part. */
  lemma RegGramHermitian(H: Mat, N: int, alpha: real, i: int, j: int)
    ensures Hermitian(RegGram(H, N, alpha))(i, j) == RegGram(H, N, alpha)(i, j)
    ensures RegGram(H, N, alpha)(i, j) == Plus(CSum(GramTerms(H, i, j), N), ScaledIdentity(alpha)(i, j))
  {
    hide CSum;
    GramFlip(H, i, j, N);
    GramDiagonalReal(H, i, N);
    PlusZero(CSum(GramTerms(H, i, j), N));
  }

  lemma ScaledIdentityForm(alpha: real, x: Vec, n: int)
    ensures Form(ScaledIdentity(alpha), x, n) == C(alpha * Norm2(x, n), 0.0)
  {
    hide CSum;
    hide Times;
    var E := ScaledIdentity(alpha);
    forall i | 0 <= i < n
      ensures Apply(E, x, n)(i) == Times(C(alpha, 0.0), x(i))
    {
      forall l | 0 <= l < n && l != i
        ensures RowTerms(E, i, x)(l) == ZERO
      {
        TimesZero(x(l));
        assert RowTerms(E, i, x)(l) == Times(E(i, l), x(l));
      }
      CSumSingle(RowTerms(E, i, x), i, n);
      assert RowTerms(E, i, x)(i) == Times(E(i, i), x(i));
    }
    DotScale(x, x, Apply(E, x, n), C(alpha, 0.0), n);
    DotSelf(x, n);
    RealTimes(alpha, Norm2(x, n));
  }

  /** x^H A x = |H^H x|^2 + alpha |x|^2. */
  lemma RegGramForm(H: Mat, N: int, alpha: real, x: Vec, n: int)
    requires N >= 0
    ensures Form(Hermitian(RegGram(H, N, alpha)), x, n)
         == C(Norm2(Adjoint(H, x, n), N) + alpha * Norm2(x, n), 0.0)
  {
    hide CSum;
    hide Times;
    hide Abs2;
    var A := RegGram(H, N, alpha);
    forall i, j | 0 <= i < n && 0 <= j < n
      ensures Hermitian(A)(i, j) == Plus(CSum(GramTerms(H, i, j), N), ScaledIdentity(alpha)(i, j))
    {
      RegGramHermitian(H, N, alpha, i, j);
    }
    GramForm(Hermitian(A), H, ScaledIdentity(alpha), x, n, N);
    ScaledIdentityForm(alpha, x, n);
  }

  lemma ProductMono(a: real, b: real, p: real)
    requires p == a * b && a >= 0.0 && b >= 1.0
    ensures p >= a
  {}

  /** Every pivot of H H^H + alpha I is at least alpha, whatever the rank or shape of H. */
  lemma {:induction false} PivotAtLeastAlpha(H: Mat, N: int, alpha: real, sq: real -> real, j: int)
    requires IsSqrt(sq) && N >= 0 && alpha > 0.0 && j >= 0
    ensures Pivot(RegGram(H, N, alpha), sq, j, j) >= alpha
    decreases j
  {
    hide Pivot;
    var A := RegGram(H, N, alpha);
    forall i | 0 <= i < j
      ensures Pivot(A, sq, i, i) > 0.0
    {
      PivotAtLeastAlpha(H, N, alpha, sq, i);
    }
    PivotWitness(A, sq, j);
    RegGramUnitForm(H, N, alpha, Witness(A, sq, j), j);
  }

  lemma RegGramUnitForm(H: Mat, N: int, alpha: real, x: Vec, j: int)
    requires N >= 0 && alpha > 0.0 && j >= 0 && x(j) == ONE
    ensures Form(Hermitian(RegGram(H, N, alpha)), x, j + 1).re >= alpha
  {
    hide Form;
    hide Norm2;
    hide Abs2;
    RegGramForm(H, N, alpha, x, j + 1);
    Norm2Bound(Adjoint(H, x, j + 1), N);
    Norm2Bound(x, j + 1);
    Abs2One();
    ProductMono(alpha, Norm2(x, j + 1), alpha * Norm2(x, j + 1));
  }

  lemma Abs2One()
    ensures Abs2(ONE) == 1.0
  {}

  lemma RegGramPositivePivots(H: Mat, N: int, alpha: real, sq: real -> real, n: int)
    requires IsSqrt(sq) && N >= 0 && alpha > 0.0
    ensures PositivePivots(RegGram(H, N, alpha), sq, n)
  {
    forall j | 0 <= j < n
      ensures Pivot(RegGram(H, N, alpha), sq, j, j) > 0.0
    {
      PivotAtLeastAlpha(H, N, alpha, sq, j);
    }
  }

  /** Column c of the matrix the solver is given. */
  function Column(H: Mat, c: int): Vec { i => H(i, c) }

  function Solution(H: Mat, U: int, N: int, alpha: real, sq: real -> real, b: Vec): Vec
  {
    Solve(Factor(RegGram(H, N, alpha), sq), b, U)
  }

  /** The substitutions solve (H H^H + alpha I) x = b. */
  lemma SolutionSolves(H: Mat, U: int, N: int, alpha: real, sq: real -> real, b: Vec, i: int)
    requires IsSqrt(sq) && N >= 0 && alpha > 0.0 && 0 <= i < U
    ensures Row(RegGram(H, N, alpha), i, Solution(H, U, N, alpha, sq, b), U) == b(i)
  {
    hide CSum;
    hide Times;
    var A := RegGram(H, N, alpha);
    RegGramPositivePivots(H, N, alpha, sq, U);
    FactorReproduces(A, sq, U);
    forall i, j | 0 <= i < U && 0 <= j < U
      ensures A(i, j) == CSum(GramTerms(Factor(A, sq), i, j), U)
    {
      RegGramHermitian(H, N, alpha, i, j);
    }
    SolveCorrect(A, Factor(A, sq), b, i, U);
  }

  function Difference(x: Vec, y: Vec): Vec { i => Minus(x(i), y(i)) }

  lemma RowDifference(A: Mat, i: int, x: Vec, y: Vec, n: int)
    ensures Plus(Row(A, i, Difference(x, y), n), Row(A, i, y, n)) == Row(A, i, x, n)
  {
    hide CSum;
    hide Times;
    var d := Difference(x, y);
    forall j | 0 <= j < n
      ensures RowTerms(A, i, x)(j) == Plus(RowTerms(A, i, d)(j), RowTerms(A, i, y)(j))
    {
      TimesPlus(A(i, j), d(j), y(j));
      assert Plus(d(j), y(j)) == x(j);
      assert RowTerms(A, i, x)(j) == Times(A(i, j), x(j));
      assert RowTerms(A, i, d)(j) == Times(A(i, j), d(j));
      assert RowTerms(A, i, y)(j) == Times(A(i, j), y(j));
    }
    CSumAdd(RowTerms(A, i, d), RowTerms(A, i, y), RowTerms(A, i, x), n);
  }

  /** The regularised system has at most one solution. */
  lemma SolutionUnique(H: Mat, U: int, N: int, alpha: real, x: Vec, y: Vec)
    requires N >= 0 && alpha > 0.0
    requires forall i | 0 <= i < U :: Row(RegGram(H, N, alpha), i, x, U) == Row(RegGram(H, N, alpha), i, y, U)
    ensures forall i | 0 <= i < U :: x(i) == y(i)
  {
    hide CSum;
    hide Times;
    hide Abs2;
    var A := RegGram(H, N, alpha);
    var d := Difference(x, y);
    var terms := DotTerms(d, Apply(A, d, U));
    forall i | 0 <= i < U
      ensures terms(i) == ZERO
    {
      RowDifference(A, i, x, y, U);
      TimesZero(Conj(d(i)));
      assert terms(i) == Times(Conj(d(i)), Row(A, i, d, U));
    }
    CSumZero(terms, U);
    forall i, j | 0 <= i < U && 0 <= j < U
      ensures Hermitian(A)(i, j) == A(i, j)
    {
      RegGramHermitian(H, N, alpha, i, j);
    }
    FormExt(Hermitian(A), A, d, U);
    RegGramForm(H, N, alpha, d, U);
    Norm2Bound(Adjoint(H, d, U), N);
    Norm2Bound(d, U);
    if Norm2(d, U) > 0.0 {
      ProductPositive(alpha, Norm2(d, U), alpha * Norm2(d, U));
      assert false;
    }
    forall i | 0 <= i < U
      ensures x(i) == y(i)
    {
      Abs2NonNegative(d(i));
      assert Minus(x(i), y(i)) == ZERO;
    }
  }
}
