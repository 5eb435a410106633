/** What each Cholesky pivot says about the Hermitian form x^H A x. */
module PivotForms {
  import opened Sums
  import opened Complexes
  import opened Cholesky
  import opened Solves

  lemma ZeroForm(x: Vec, n: int)
    ensures Form(NoRemainder(), x, n) == ZERO
  {
    hide Times;
    hide CSum;
    forall i | 0 <= i < n
      ensures DotTerms(x, Apply(NoRemainder(), x, n))(i) == ZERO
    {
      ZeroRow(i, x, n);
      TimesZero(Conj(x(i)));
      assert DotTerms(x, Apply(NoRemainder(), x, n))(i) == Times(Conj(x(i)), Row(NoRemainder(), i, x, n));
    }
    CSumZero(DotTerms(x, Apply(NoRemainder(), x, n)), n);
  }

  /** With positive pivots the form is |L^H x|^2. */
  lemma FormIsNorm(A: Mat, sq: real -> real, x: Vec, n: int)
    requires IsSqrt(sq) && n >= 0 && PositivePivots(A, sq, n)
    ensures Form(Hermitian(A), x, n) == C(Norm2(Adjoint(Factor(A, sq), x, n), n), 0.0)
  {
    hide CSum;
    hide Times;
    FactorReproduces(A, sq, n);
    ExactGram(Hermitian(A), Factor(A, sq), n);
    GramForm(Hermitian(A), Factor(A, sq), NoRemainder(), x, n, n);
    ZeroForm(x, n);
    PlusZero(C(Norm2(Adjoint(Factor(A, sq), x, n), n), 0.0));
  }

  /** With positive pivots the form vanishes only at the zero vector. */
  lemma FormDefinite(A: Mat, sq: real -> real, x: Vec, n: int, p: int)
    requires IsSqrt(sq) && PositivePivots(A, sq, n)
    requires 0 <= p < n && x(p) != ZERO
    ensures Form(Hermitian(A), x, n).re > 0.0
  {
    hide Form;
    hide L;
    hide Abs2;
    hide Norm2;
    var M := Factor(A, sq);
    FormIsNorm(A, sq, x, n);
    FactorReproduces(A, sq, n);
    var k := AdjointNonZero(M, x, n, p);
    Norm2Bound(Adjoint(M, x, n), n);
    Abs2NonNegative(Adjoint(M, x, n)(k));
  }

  /** L^H is injective: look at the last non-zero component. */
  lemma AdjointNonZero(M: Mat, x: Vec, n: int, p: int) returns (k: int)
    requires LowerTriangular(M, n)
    requires 0 <= p < n && x(p) != ZERO
    ensures 0 <= k < n && Adjoint(M, x, n)(k) != ZERO
  {
    hide Conj;
    hide CSum;
    hide Times;
    k := LastNonZero(x, n, p);
    var terms := DotTerms(ColOf(M, k), x);
    forall i | 0 <= i < n && i != k
      ensures terms(i) == ZERO
    {
      TimesZero(Conj(M(i, k)));
      TimesZero(x(i));
      ConjZero();
      assert terms(i) == Times(Conj(M(i, k)), x(i));
    }
    CSumSingle(terms, k, n);
    assert terms(k) == Times(Conj(M(k, k)), x(k));
    ConjReal(M(k, k));
    RealTimesNonZero(M(k, k).re, x(k));
  }

  lemma RealTimesNonZero(s: real, a: Complex)
    requires s != 0.0 && a != ZERO
    ensures Times(C(s, 0.0), a) != ZERO
  {}

  lemma {:induction false} LastNonZero(x: Vec, n: int, p: int) returns (k: int)
    requires 0 <= p < n && x(p) != ZERO
    ensures 0 <= k < n && x(k) != ZERO && forall i | k < i < n :: x(i) == ZERO
  {
    if x(n - 1) != ZERO {
      k := n - 1;
    } else {
      k := LastNonZero(x, n - 1, p);
    }
  }

  lemma DotSingle(x: Vec, y: Vec, j: int, n: int)
    requires 0 <= j < n
    requires forall i | 0 <= i < n && i != j :: y(i) == ZERO
    ensures Dot(x, y, n) == Times(Conj(x(j)), y(j))
  {
    hide Times;
    hide CSum;
    var terms := DotTerms(x, y);
    forall i | 0 <= i < n && i != j
      ensures terms(i) == ZERO
    {
      TimesZero(Conj(x(i)));
      assert terms(i) == Times(Conj(x(i)), y(i));
    }
    CSumSingle(terms, j, n);
  }

  lemma PivotAtForm(p: real, j: int, x: Vec, n: int)
    requires 0 <= j < n && x(j) == ONE
    ensures Form(PivotAt(p, j), x, n) == C(p, 0.0)
  {
    hide Times;
    hide Conj;
    hide Dot;
    hide Row;
    var y := Apply(PivotAt(p, j), x, n);
    forall i | 0 <= i < n
      ensures y(i) == if i == j then C(p, 0.0) else ZERO
    {
      PivotAtRow(p, j, x, i, n);
    }
    DotSingle(x, y, j, n);
    ConjReal(ONE);
    TimesOne(y(j));
  }

  lemma PivotAtRow(p: real, j: int, x: Vec, i: int, n: int)
    requires 0 <= j < n && 0 <= i < n && x(j) == ONE
    ensures Row(PivotAt(p, j), i, x, n) == if i == j then C(p, 0.0) else ZERO
  {
    hide Times;
    hide CSum;
    var terms := RowTerms(PivotAt(p, j), i, x);
    forall l | 0 <= l < n && (l != j || i != j)
      ensures terms(l) == ZERO
    {
      TimesZero(x(l));
      assert terms(l) == Times(PivotAt(p, j)(i, l), x(l));
    }
    if i == j {
      CSumSingle(terms, j, n);
      assert terms(j) == Times(C(p, 0.0), x(j));
      TimesOne(C(p, 0.0));
    } else {
      CSumZero(terms, n);
    }
  }

  lemma TimesOne(a: Complex)
    ensures Times(ONE, a) == a == Times(a, ONE)
  {}

  /** On vectors with x_j = 1 the form over indices 0..j is |..|^2 plus pivot j, so never below the pivot ... */
  lemma UnitForm(A: Mat, sq: real -> real, j: int, x: Vec)
    requires IsSqrt(sq) && j >= 0 && PositivePivots(A, sq, j) && x(j) == ONE
    ensures Form(Hermitian(A), x, j + 1)
         == C(Norm2(Adjoint(Factor(A, sq), x, j + 1), j) + Pivot(A, sq, j, j), 0.0)
    ensures Form(Hermitian(A), x, j + 1).re >= Pivot(A, sq, j, j)
  {
    hide IsGramPlus;
    hide Pivot;
    hide Norm2;
    hide Form;
    var p := Pivot(A, sq, j, j);
    PartialFactor(A, sq, j);
    GramForm(Hermitian(A), Factor(A, sq), PivotAt(p, j), x, j + 1, j);
    PivotAtForm(p, j, x, j + 1);
    Norm2Bound(Adjoint(Factor(A, sq), x, j + 1), j);
  }

  function NegConjRow(M: Mat, j: int): Vec { k => Minus(ZERO, Conj(M(j, k))) }

  function WithUnit(x: Vec, j: int): Vec { i => if i == j then ONE else x(i) }

  /** The vector backward substitution finds: x_j = 1 and L^H x = 0 on the earlier columns. */
  function Witness(A: Mat, sq: real -> real, j: int): Vec
  {
    WithUnit(BackwardVec(Factor(A, sq), NegConjRow(Factor(A, sq), j), j), j)
  }

  /** ... and the witness attains it. */
  lemma PivotWitness(A: Mat, sq: real -> real, j: int)
    requires IsSqrt(sq) && j >= 0 && PositivePivots(A, sq, j)
    ensures Form(Hermitian(A), Witness(A, sq, j), j + 1) == C(Pivot(A, sq, j, j), 0.0)
  {
    hide Form;
    hide Dot;
    hide L;
    hide Abs2;
    var M := Factor(A, sq);
    var x := Witness(A, sq, j);
    FactorReproduces(A, sq, j);
    var projected := Adjoint(M, x, j + 1);
    forall k | 0 <= k < j
      ensures Abs2Terms(projected)(k) == 0.0
    {
      WitnessOrthogonal(M, j, k);
      assert projected(k) == ZERO;
      Abs2Zero();
    }
    SumZero(Abs2Terms(projected), j);
    UnitForm(A, sq, j, x);
  }

  /** The completed vector is orthogonal to the first j columns. */
  lemma WitnessOrthogonal(M: Mat, j: int, k: int)
    requires LowerTriangular(M, j) && 0 <= k < j
    ensures Dot(ColOf(M, k), WithUnit(BackwardVec(M, NegConjRow(M, j), j), j), j + 1) == ZERO
  {
    hide CSum;
    hide Times;
    hide Conj;
    hide Plus;
    hide Minus;
    var z := BackwardVec(M, NegConjRow(M, j), j);
    var x := WithUnit(z, j);
    var terms := DotTerms(ColOf(M, k), x);
    BackwardSolves(M, NegConjRow(M, j), j, k);
    forall i | 0 <= i < j
      ensures terms(i) == DotTerms(ColOf(M, k), z)(i)
    {
      assert terms(i) == Times(Conj(M(i, k)), x(i));
      assert DotTerms(ColOf(M, k), z)(i) == Times(Conj(M(i, k)), z(i));
    }
    CSumExt(terms, DotTerms(ColOf(M, k), z), j);
    CSumStep(terms, j);
    TimesOne(Conj(M(j, k)));
    assert terms(j) == Times(Conj(M(j, k)), x(j));
    assert NegConjRow(M, j)(k) == Minus(ZERO, Conj(M(j, k)));
    NegCancel(Conj(M(j, k)));
  }

  lemma NegCancel(a: Complex)
    ensures Plus(Minus(ZERO, a), a) == ZERO
  {}

  lemma Abs2Zero()
    ensures Abs2(ZERO) == 0.0
  {}
}
