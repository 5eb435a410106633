/**
 The mathematics behind every RZF implementation in the repository: Hermitian
 Cholesky factorisation, the two triangular solves, and why neither can fail on
 a regularised Gram matrix. The recursions below subtract in the same order as
 the loops they specify; nothing here mutates state.
 */
module Cholesky {
  import opened Complexes

  /** All that is assumed of the square root. */
  ghost predicate IsSqrt(sq: real -> real)
  {
    && sq(0.0) == 0.0
    && forall x | x > 0.0 :: sq(x) > 0.0 && sq(x) * sq(x) == x
  }

  // ----- the factorisation

  /** Entry (i, j) of the lower factor; zero above the diagonal and after a failed pivot. */
  function L(A: Mat, sq: real -> real, i: int, j: int): Complex
    decreases j, 1
  {
    if j < 0 || i < j then ZERO else
    var p := Pivot(A, sq, j, j);
    if p <= 0.0 || sq(p) == 0.0 then ZERO
    else if i == j then C(sq(p), 0.0)
    else Over(Reduced(A, sq, i, j, j), sq(p))
  }

  /** Diagonal entry j of A after subtracting the first m columns of the factor. */
  function Pivot(A: Mat, sq: real -> real, j: int, m: int): real
    decreases m, 0
  {
    if m <= 0 then A(j, j).re else Pivot(A, sq, j, m - 1) - Abs2(L(A, sq, j, m - 1))
  }

  /** Entry (i, j) of A after subtracting the first m columns of the factor. */
  function Reduced(A: Mat, sq: real -> real, i: int, j: int, m: int): Complex
    decreases m, 0
  {
    if m <= 0 then A(i, j)
    else Minus(Reduced(A, sq, i, j, m - 1), Times(L(A, sq, i, m - 1), Conj(L(A, sq, j, m - 1))))
  }

  function Factor(A: Mat, sq: real -> real): Mat { (i, j) => L(A, sq, i, j) }

  ghost predicate PositivePivots(A: Mat, sq: real -> real, n: int)
  {
    forall j | 0 <= j < n :: Pivot(A, sq, j, j) > 0.0
  }

  /** The Hermitian matrix that the factorisation actually reads: real diagonal, lower triangle. */
  function Hermitian(A: Mat): Mat
  {
    (i, j) => if i == j then C(A(i, i).re, 0.0) else if j < i then A(i, j) else Conj(A(j, i))
  }

  // ----- the triangular solves

  function ForwardAcc(M: Mat, b: Vec, i: int, m: int): Complex
    requires 0 <= m <= i
    decreases i, 0, m
  {
    if m == 0 then b(i) else Minus(ForwardAcc(M, b, i, m - 1), Times(M(i, m - 1), Forward(M, b, m - 1)))
  }

  function Forward(M: Mat, b: Vec, i: int): Complex
    decreases i, 1
  {
    if i < 0 || M(i, i).re == 0.0 then ZERO else Over(ForwardAcc(M, b, i, i), M(i, i).re)
  }

  function BackwardAcc(M: Mat, y: Vec, n: int, i: int, m: int): Complex
    requires 0 <= i < m <= n
    decreases n - i, 0, m
  {
    if m == i + 1 then y(i)
    else Minus(BackwardAcc(M, y, n, i, m - 1), Times(Conj(M(m - 1, i)), Backward(M, y, n, m - 1)))
  }

  function Backward(M: Mat, y: Vec, n: int, i: int): Complex
    decreases n - i, 1
  {
    if i < 0 || i >= n || M(i, i).re == 0.0 then ZERO else Over(BackwardAcc(M, y, n, i, n), M(i, i).re)
  }

  function ForwardVec(M: Mat, b: Vec): Vec { i => Forward(M, b, i) }

  function BackwardVec(M: Mat, y: Vec, n: int): Vec { i => Backward(M, y, n, i) }

  /** The solution of (M M^H) x = b by forward then backward substitution. */
  function Solve(M: Mat, b: Vec, n: int): Vec { BackwardVec(M, ForwardVec(M, b), n) }

  ghost predicate LowerTriangular(M: Mat, n: int)
  {
    && (forall i | 0 <= i < n :: M(i, i).re != 0.0 && M(i, i).im == 0.0)
    && forall i, j | 0 <= i < j < n :: M(i, j) == ZERO
  }

  // ----- products P P^H

  function GramTerms(P: Mat, i: int, j: int): Vec { k => Times(P(i, k), Conj(P(j, k))) }

  /** P^H x. */
  function Adjoint(P: Mat, x: Vec, n: int): Vec { k => Dot(ColOf(P, k), x, n) }

  ghost predicate IsGramPlus(F: Mat, P: Mat, E: Mat, n: int, m: int)
  {
    forall i, j | 0 <= i < n && 0 <= j < n :: F(i, j) == Plus(CSum(GramTerms(P, i, j), m), E(i, j))
  }

  function PlusOuter(P: Mat, k: int, E: Mat): Mat
  {
    (i, j) => Plus(Times(P(i, k), Conj(P(j, k))), E(i, j))
  }

  lemma PlusAssoc(a: Complex, b: Complex, c: Complex)
    ensures Plus(Plus(a, b), c) == Plus(a, Plus(b, c))
  {}

  /** Moving the last column of P into the remainder. */
  lemma GramPeel(F: Mat, P: Mat, E: Mat, n: int, m: int)
    requires m > 0 && IsGramPlus(F, P, E, n, m)
    ensures IsGramPlus(F, P, PlusOuter(P, m - 1, E), n, m - 1)
  {}

  lemma FormExt(F: Mat, G: Mat, x: Vec, n: int)
    requires forall i, j | 0 <= i < n && 0 <= j < n :: F(i, j) == G(i, j)
    ensures Form(F, x, n) == Form(G, x, n)
  {
    hide Times;
    forall i | 0 <= i < n
      ensures Apply(F, x, n)(i) == Apply(G, x, n)(i)
    {
      forall j | 0 <= j < n
        ensures RowTerms(F, i, x)(j) == RowTerms(G, i, x)(j)
      {}
      CSumExt(RowTerms(F, i, x), RowTerms(G, i, x), n);
    }
    forall i | 0 <= i < n
      ensures DotTerms(x, Apply(F, x, n))(i) == DotTerms(x, Apply(G, x, n))(i)
    {}
    CSumExt(DotTerms(x, Apply(F, x, n)), DotTerms(x, Apply(G, x, n)), n);
  }

  /** Completing squares: x^H (P P^H + E) x = |P^H x|^2 + x^H E x. */
  lemma {:induction false} GramForm(F: Mat, P: Mat, E: Mat, x: Vec, n: int, m: int)
    requires m >= 0 && IsGramPlus(F, P, E, n, m)
    ensures Form(F, x, n) == Plus(C(Norm2(Adjoint(P, x, n), m), 0.0), Form(E, x, n))
    decreases m
  {
    hide Times;
    hide Abs2;
    if m == 0 {
      FormExt(F, E, x, n);
    } else {
      var E' := PlusOuter(P, m - 1, E);
      GramPeel(F, P, E, n, m);
      GramForm(F, P, E', x, n, m - 1);
      RankOne(ColOf(P, m - 1), E, E', x, n);
      assert Abs2Terms(Adjoint(P, x, n))(m - 1) == Abs2(Dot(ColOf(P, m - 1), x, n));
    }
  }

  /** (P P^H + E) x, row by row, is P (P^H x) + E x. */
  lemma {:induction false} GramRow(F: Mat, P: Mat, E: Mat, x: Vec, i: int, n: int, m: int)
    requires m >= 0 && 0 <= i < n && IsGramPlus(F, P, E, n, m)
    ensures Row(F, i, x, n) == Plus(Row(P, i, Adjoint(P, x, n), m), Row(E, i, x, n))
    decreases m
  {
    hide Times;
    if m == 0 {
      forall j | 0 <= j < n
        ensures RowTerms(F, i, x)(j) == RowTerms(E, i, x)(j)
      {}
      CSumExt(RowTerms(F, i, x), RowTerms(E, i, x), n);
    } else {
      var E' := PlusOuter(P, m - 1, E);
      GramPeel(F, P, E, n, m);
      GramRow(F, P, E', x, i, n, m - 1);
      RowRankOne(ColOf(P, m - 1), E, E', x, i, n);
      var terms := RowTerms(P, i, Adjoint(P, x, n));
      CSumStep(terms, m - 1);
      assert terms(m - 1) == Times(P(i, m - 1), Dot(ColOf(P, m - 1), x, n));
      PlusAssoc(CSum(terms, m - 1), terms(m - 1), Row(E, i, x, n));
    }
  }

  // ----- the factor reproduces the matrix

  lemma MinusPlus(a: Complex, b: Complex, c: Complex)
    ensures Plus(Plus(a, c), Minus(b, c)) == Plus(a, b)
  {}

  lemma {:induction false} ReducedSum(A: Mat, sq: real -> real, i: int, j: int, m: int)
    requires m >= 0
    ensures A(i, j) == Plus(CSum(GramTerms(Factor(A, sq), i, j), m), Reduced(A, sq, i, j, m))
    decreases m
  {
    hide Times;
    hide L;
    if m > 0 {
      var terms := GramTerms(Factor(A, sq), i, j);
      ReducedSum(A, sq, i, j, m - 1);
      CSumStep(terms, m - 1);
      assert terms(m - 1) == Times(L(A, sq, i, m - 1), Conj(L(A, sq, j, m - 1)));
      MinusPlus(CSum(terms, m - 1), Reduced(A, sq, i, j, m - 1), terms(m - 1));
    }
  }

  lemma {:induction false} PivotSum(A: Mat, sq: real -> real, j: int, m: int)
    requires m >= 0
    ensures C(A(j, j).re, 0.0) == Plus(CSum(GramTerms(Factor(A, sq), j, j), m), C(Pivot(A, sq, j, m), 0.0))
    decreases m
  {
    hide Times;
    hide Abs2;
    hide L;
    if m > 0 {
      var terms := GramTerms(Factor(A, sq), j, j);
      PivotSum(A, sq, j, m - 1);
      CSumStep(terms, m - 1);
      TimesConjSelf(L(A, sq, j, m - 1));
      assert terms(m - 1) == C(Abs2(L(A, sq, j, m - 1)), 0.0);
      MinusPlus(CSum(terms, m - 1), C(Pivot(A, sq, j, m - 1), 0.0), terms(m - 1));
    }
  }

  lemma OverTimes(a: Complex, s: real)
    requires s != 0.0
    ensures Times(Over(a, s), C(s, 0.0)) == a == Times(C(s, 0.0), Over(a, s))
  {}

  lemma Diagonal(A: Mat, sq: real -> real, j: int)
    requires IsSqrt(sq) && j >= 0 && Pivot(A, sq, j, j) > 0.0
    ensures L(A, sq, j, j).re > 0.0
    ensures L(A, sq, j, j) == Conj(L(A, sq, j, j)) == C(sq(Pivot(A, sq, j, j)), 0.0)
  {}

  /** Column j finishes the entries of rows i >= j. */
  lemma ColumnExact(A: Mat, sq: real -> real, i: int, j: int)
    requires IsSqrt(sq) && 0 <= j <= i && Pivot(A, sq, j, j) > 0.0
    ensures (if i == j then C(Pivot(A, sq, j, j), 0.0) else Reduced(A, sq, i, j, j))
         == Times(L(A, sq, i, j), Conj(L(A, sq, j, j)))
  {
    hide Times;
    hide Pivot;
    hide Reduced;
    var p := Pivot(A, sq, j, j);
    Diagonal(A, sq, j);
    if i == j {
      RealTimes(sq(p), sq(p));
    } else {
      OverTimes(Reduced(A, sq, i, j, j), sq(p));
    }
  }

  lemma RealTimes(a: real, b: real)
    ensures Times(C(a, 0.0), C(b, 0.0)) == C(a * b, 0.0)
  {}

  /** Columns above the diagonal contribute nothing. */
  lemma TrailingTerms(A: Mat, sq: real -> real, i: int, j: int, m: int)
    requires 0 <= j < m
    ensures CSum(GramTerms(Factor(A, sq), i, j), m) == CSum(GramTerms(Factor(A, sq), i, j), j + 1)
  {
    hide Times;
    hide L;
    var terms := GramTerms(Factor(A, sq), i, j);
    forall k | j < k < m
      ensures terms(k) == ZERO
    {
      UpperZero(A, sq, j, k);
      TimesZero(L(A, sq, i, k));
      assert terms(k) == Times(L(A, sq, i, k), Conj(L(A, sq, j, k)));
    }
    CSumTail(terms, j + 1, m);
  }

  lemma UpperZero(A: Mat, sq: real -> real, i: int, j: int)
    requires i < j
    ensures L(A, sq, i, j) == Conj(L(A, sq, i, j)) == ZERO
  {
    hide Pivot;
    hide Reduced;
    hide Over;
    hide Conj;
    ConjZero();
  }

  lemma LowerEntry(A: Mat, sq: real -> real, i: int, j: int, m: int)
    requires IsSqrt(sq) && 0 <= j <= i && j < m && Pivot(A, sq, j, j) > 0.0
    ensures Hermitian(A)(i, j) == CSum(GramTerms(Factor(A, sq), i, j), m)
  {
    hide Times;
    hide L;
    var terms := GramTerms(Factor(A, sq), i, j);
    if i == j {
      PivotSum(A, sq, j, j);
    } else {
      ReducedSum(A, sq, i, j, j);
    }
    ColumnExact(A, sq, i, j);
    CSumStep(terms, j);
    assert terms(j) == Times(L(A, sq, i, j), Conj(L(A, sq, j, j)));
    TrailingTerms(A, sq, i, j, m);
  }

  lemma GramFlip(P: Mat, i: int, j: int, m: int)
    ensures CSum(GramTerms(P, i, j), m) == Conj(CSum(GramTerms(P, j, i), m))
  {
    hide Times;
    forall k: int
      ensures GramTerms(P, i, j)(k) == Conj(GramTerms(P, j, i)(k))
    {
      ConjTimes(P(j, k), Conj(P(i, k)));
      TimesComm(P(i, k), Conj(P(j, k)));
      assert Conj(Conj(P(i, k))) == P(i, k);
    }
    CSumConj(GramTerms(P, j, i), GramTerms(P, i, j), m);
  }

  /** What is left after j columns, restricted to indices up to j: only the pivot. */
  function PivotAt(p: real, j: int): Mat { (i, l) => if i == j && l == j then C(p, 0.0) else ZERO }

  lemma PlusZero(a: Complex)
    ensures Plus(a, ZERO) == a
  {}

  lemma PartialFactor(A: Mat, sq: real -> real, j: int)
    requires IsSqrt(sq) && j >= 0 && PositivePivots(A, sq, j)
    ensures IsGramPlus(Hermitian(A), Factor(A, sq), PivotAt(Pivot(A, sq, j, j), j), j + 1, j)
  {
    hide L;
    hide Times;
    forall i, l | 0 <= i < j + 1 && 0 <= l < j + 1
      ensures Hermitian(A)(i, l)
           == Plus(CSum(GramTerms(Factor(A, sq), i, l), j), PivotAt(Pivot(A, sq, j, j), j)(i, l))
    {
      PlusZero(CSum(GramTerms(Factor(A, sq), i, l), j));
      if i == j && l == j {
        PivotSum(A, sq, j, j);
      } else if l <= i {
        LowerEntry(A, sq, i, l, j);
      } else {
        LowerEntry(A, sq, l, i, j);
        GramFlip(Factor(A, sq), i, l, j);
      }
    }
  }

  /** With positive pivots the factor satisfies L L^H = A on the whole matrix. */
  lemma FactorReproduces(A: Mat, sq: real -> real, n: int)
    requires IsSqrt(sq) && PositivePivots(A, sq, n)
    ensures forall i, l | 0 <= i < n && 0 <= l < n ::
              Hermitian(A)(i, l) == CSum(GramTerms(Factor(A, sq), i, l), n)
    ensures LowerTriangular(Factor(A, sq), n)
  {
    hide Times;
    forall i, l | 0 <= i < n && 0 <= l < n
      ensures Hermitian(A)(i, l) == CSum(GramTerms(Factor(A, sq), i, l), n)
    {
      if l <= i {
        LowerEntry(A, sq, i, l, n);
      } else {
        LowerEntry(A, sq, l, i, n);
        GramFlip(Factor(A, sq), i, l, n);
      }
    }
    forall i | 0 <= i < n
      ensures L(A, sq, i, i).re != 0.0 && L(A, sq, i, i).im == 0.0
    {
      Diagonal(A, sq, i);
    }
  }
}
