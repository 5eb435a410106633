/** The normal equations of fit_ridge are never singular, so a solver never has a reason to raise. */
module RidgeSolver {
  import opened Sums
  import opened Floats
  import opened Complexes
  import opened Conformal
  import opened Cholesky
  import opened Solves
  import opened OodGate
  import opened OodForm
  import opened Ridge

  ghost predicate Solved(M: RMat, v: RVec, b: RVec, d: int)
  {
    forall j | 0 <= j < d :: Inner(RowVec(M, j), b, d) == v(j)
  }

  /** What is asked of the solver on one system: when it is symmetric positive definite, it solves it. */
  ghost predicate MeetsLaw(solve: (RMat, RVec) -> Result<RVec>, M: RMat, v: RVec, d: int)
  {
    Symmetric(M, d) && PositiveScores(M, d) ==> solve(M, v).Ok? && Solved(M, v, solve(M, v).value, d)
  }

  // ----- the normal matrix is positive definite

  lemma RowScore(M: RMat, b: RVec, j: int, d: int)
    ensures ScoreRows(M, b, d)(j) == Prod(b(j), Inner(RowVec(M, j), b, d))
  {
    hide Prod;
    forall k | 0 <= k < d
      ensures ScoreTerms(M, b, j)(k) == Prod(b(j), Products(RowVec(M, j), b)(k))
    {
      TripleProd(b(j), M(j, k), b(k));
    }
    InnerScale(RowVec(M, j), b, ScoreTerms(M, b, j), b(j), d);
  }

  lemma TripleProd(x: real, m: real, y: real)
    ensures Triple(x, m, y) == Prod(x, Prod(m, y))
  {}

  lemma InnerSelf(f: RVec, n: int)
    ensures Inner(f, f, n) == SqSum(f, n)
  {
    forall k ensures Products(f, f)(k) == SquareTerms(f)(k) {
      assert Prod(f(k), f(k)) == Square(f(k));
    }
    SumExt(Products(f, f), SquareTerms(f), n);
  }

  lemma ProdPull(a: real, c: real)
    ensures Prod(a, Prod(c, a)) == Prod(c, Prod(a, a))
  {}

  function Scaled(c: real, f: RVec): RVec { k => Prod(c, f(k)) }

  lemma InnerScaled(f: RVec, c: real, n: int)
    ensures Inner(f, Scaled(c, f), n) == Prod(c, SqSum(f, n))
  {
    hide Prod;
    forall k | 0 <= k < n
      ensures Products(f, Scaled(c, f))(k) == Prod(c, Products(f, f)(k))
    {
      ProdPull(f(k), c);
    }
    InnerScale(f, f, Products(f, Scaled(c, f)), c, n);
    InnerSelf(f, n);
  }

  /** The form of the normal matrix is |X b|^2 + penalty |b|^2. */
  lemma NormalScore(X: RMat, penalty: real, b: RVec, n: int, d: int)
    ensures Score(NormalMatrix(X, penalty, n), b, d) == SqSum(Fit(X, b, d), n) + Prod(penalty, SqSum(b, d))
  {
    hide Prod;
    hide Inner;
    hide Back;
    hide Fit;
    hide SqSum;
    var M, g, h := NormalMatrix(X, penalty, n), Back(X, Fit(X, b, d), n), Scaled(penalty, b);
    var k := (j: int) => g(j) + h(j);
    forall j | 0 <= j < d
      ensures ScoreRows(M, b, d)(j) == Products(b, k)(j)
    {
      RowScore(M, b, j, d);
      NormalRow(X, penalty, b, j, n, d);
    }
    SumExt(ScoreRows(M, b, d), Products(b, k), d);
    SumIsInner(b, k, d);
    InnerAdd(b, g, h, k, d);
    AdjointInner(X, Fit(X, b, d), b, n, d);
    InnerSelf(Fit(X, b, d), n);
    InnerScaled(b, penalty, d);
  }

  lemma SumIsInner(f: RVec, g: RVec, n: int)
    ensures Sum(Products(f, g), n) == Inner(f, g, n)
  {}

  lemma NormalDefinite(X: RMat, penalty: real, n: int, d: int)
    requires penalty > 0.0
    ensures Symmetric(NormalMatrix(X, penalty, n), d) && PositiveScores(NormalMatrix(X, penalty, n), d)
  {
    hide Score;
    hide Inner;
    hide SqSum;
    var M := NormalMatrix(X, penalty, n);
    forall j, k | 0 <= j < d && 0 <= k < d ensures M(j, k) == M(k, j) {
      InnerComm(ColVec(X, j), ColVec(X, k), n);
    }
    forall b: RVec, p | 0 <= p < d && b(p) != 0.0 ensures Score(M, b, d) > 0.0 {
      NormalScore(X, penalty, b, n, d);
      SqSumPositive(Fit(X, b, d), n);
      SqSumPositive(b, d);
      ProductPositive(penalty, SqSum(b, d), penalty * SqSum(b, d));
    }
  }

  // ----- the law is met by a Cholesky solver

  function RealPartOf(x: Vec): RVec { i => x(i).re }

  function CholeskySolver(sq: real -> real, d: int): (RMat, RVec) -> Result<RVec>
  {
    (M: RMat, v: RVec) => Ok(RealPartOf(Solve(Factor(LiftM(M), sq), Lift(v), d)))
  }

  lemma RealTimesRe(m: real, z: Complex)
    ensures Times(C(m, 0.0), z).re == Prod(m, z.re)
  {}

  lemma RealRow(M: RMat, x: Vec, j: int, d: int)
    ensures Row(LiftM(M), j, x, d).re == Inner(RowVec(M, j), RealPartOf(x), d)
  {
    var terms := RowTerms(LiftM(M), j, x);
    forall k | 0 <= k < d
      ensures Re(terms)(k) == Products(RowVec(M, j), RealPartOf(x))(k)
    {
      assert terms(k) == Times(C(M(j, k), 0.0), x(k));
      RealTimesRe(M(j, k), x(k));
    }
    SumExt(Re(terms), Products(RowVec(M, j), RealPartOf(x)), d);
  }

  lemma RowMatrixExt(A: Mat, B: Mat, i: int, x: Vec, n: int)
    requires forall j | 0 <= j < n :: A(i, j) == B(i, j)
    ensures Row(A, i, x, n) == Row(B, i, x, n)
  {
    hide Times;
    CSumExt(RowTerms(A, i, x), RowTerms(B, i, x), n);
  }

  lemma CholeskySolved(sq: real -> real, M: RMat, v: RVec, d: int)
    requires IsSqrt(sq) && Symmetric(M, d) && PositiveScores(M, d)
    ensures Solved(M, v, CholeskySolver(sq, d)(M, v).value, d)
  {
    hide Score;
    hide Solve;
    hide Row;
    hide Inner;
    hide CSum;
    hide L;
    hide Pivot;
    var A, F := LiftM(M), Factor(LiftM(M), sq);
    PositiveIffDefinite(M, sq, d);
    SymmetricDefiniteIff(M, sq, d);
    FactorReproduces(A, sq, d);
    var x := Solve(F, Lift(v), d);
    forall j | 0 <= j < d
      ensures Inner(RowVec(M, j), RealPartOf(x), d) == v(j)
    {
      SolveCorrect(Hermitian(A), F, Lift(v), j, d);
      forall k | 0 <= k < d ensures Hermitian(A)(j, k) == A(j, k) {
        ConjReal(A(k, j));
        assert M(j, k) == M(k, j);
      }
      RowMatrixExt(Hermitian(A), A, j, x, d);
      RealRow(M, x, j, d);
    }
  }

  /** It meets the law on every system. */
  lemma CholeskySolverLaw(sq: real -> real, M: RMat, v: RVec, d: int)
    requires IsSqrt(sq)
    ensures MeetsLaw(CholeskySolver(sq, d), M, v, d)
  {
    hide Solved;
    hide Symmetric;
    hide PositiveScores;
    if Symmetric(M, d) && PositiveScores(M, d) {
      CholeskySolved(sq, M, v, d);
    }
  }

  // ----- fit_ridge with a lawful solver

  /** The solver meets the law on the system that fit_ridge passes to it. */
  ghost predicate Lawful(
    x: seq<seq<Float>>, y: seq<Float>, d: nat, penalty: Float, sq: real -> real, solve: (RMat, RVec) -> Result<RVec>)
  {
    ValidInputs(x, y, penalty) ==>
      var Z, yc := Standardised(CellValue(x), |x|, sq), Centred(EntryValue(y), |x|);
      MeetsLaw(solve, NormalMatrix(Z, penalty.r, |x|), Back(Z, yc, |x|), d)
  }

  /** A Cholesky solver is lawful for every input. */
  lemma CholeskyIsLawful(x: seq<seq<Float>>, y: seq<Float>, d: nat, penalty: Float, sq: real -> real)
    requires IsSqrt(sq)
    ensures Lawful(x, y, d, penalty, sq, CholeskySolver(sq, d))
  {
    hide MeetsLaw;
    hide Standardised;
    hide Centred;
    if ValidInputs(x, y, penalty) {
      var Z, yc := Standardised(CellValue(x), |x|, sq), Centred(EntryValue(y), |x|);
      CholeskySolverLaw(sq, NormalMatrix(Z, penalty.r, |x|), Back(Z, yc, |x|), d);
    }
  }

  /** That system has a solution, so a lawful solver returns one. */
  lemma SolverSolves(
    x: seq<seq<Float>>, y: seq<Float>, d: nat, penalty: Float, sq: real -> real, solve: (RMat, RVec) -> Result<RVec>)
    requires ValidInputs(x, y, penalty) && Lawful(x, y, d, penalty, sq, solve)
    ensures var Z, yc := Standardised(CellValue(x), |x|, sq), Centred(EntryValue(y), |x|);
            var r := solve(NormalMatrix(Z, penalty.r, |x|), Back(Z, yc, |x|));
            r.Ok? && SolvesNormal(Z, yc, penalty.r, r.value, |x|, d)
  {
    hide Inner;
    hide Back;
    hide PositiveScores;
    hide Symmetric;
    hide Standardised;
    var Z := Standardised(CellValue(x), |x|, sq);
    NormalDefinite(Z, penalty.r, |x|, d);
  }

  lemma ValidInputsIff(x: seq<seq<Float>>, y: seq<Float>, penalty: Float)
    ensures ValidInputs(x, y, penalty)
       <==> && |x| == |y| >= 2 && penalty.Finite? && penalty.r > 0.0
            && forall i | 0 <= i < |x| :: y[i].Finite? && forall j | 0 <= j < |x[i]| :: x[i][j].Finite?
  {
    if |x| == |y| && forall i | 0 <= i < |x| :: forall j | 0 <= j < |x[i]| :: x[i][j].Finite? {
      forall row | row in x ensures AllFinite(row) {
        var i :| 0 <= i < |x| && x[i] == row;
      }
    }
    if forall row | row in x :: AllFinite(row) {
      forall i | 0 <= i < |x| ensures AllFinite(x[i]) {
        assert x[i] in x;
      }
    }
  }

  /** fit_ridge succeeds exactly on valid inputs: the solver never has to raise. */
  lemma FitRidgeSucceedsIff(
    x: seq<seq<Float>>, y: seq<Float>, d: nat, penalty: Float, sq: real -> real, solve: (RMat, RVec) -> Result<RVec>)
    requires (forall row | row in x :: |row| == d) && Lawful(x, y, d, penalty, sq, solve)
    ensures FitRidge(x, y, d, penalty, sq, solve).Ok?
       <==> && |x| == |y| >= 2 && penalty.Finite? && penalty.r > 0.0
            && forall i | 0 <= i < |x| :: y[i].Finite? && forall j | 0 <= j < |x[i]| :: x[i][j].Finite?
  {
    hide Lawful;
    hide SolvesNormal;
    hide BuildModel;
    ValidInputsIff(x, y, penalty);
    hide ValidInputs;
    if ValidInputs(x, y, penalty) {
      SolverSolves(x, y, d, penalty, sq, solve);
    }
  }

  /**
   fit_ridge from inputs to predictions: its coefficients minimise the standardised loss uniquely,
   and at every point it predicts the mean response plus the standardised coefficients' contribution.
   */
  lemma FitRidgeIsOptimal(
    x: seq<seq<Float>>, y: seq<Float>, d: nat, penalty: Float, sq: real -> real, solve: (RMat, RVec) -> Result<RVec>,
    b: RVec, point: RVec)
    requires (forall row | row in x :: |row| == d) && Lawful(x, y, d, penalty, sq, solve)
    requires FitRidge(x, y, d, penalty, sq, solve).Ok?
    ensures var n, m := |x|, FitRidge(x, y, d, penalty, sq, solve).value;
            var X, Z, yc := CellValue(x), Standardised(CellValue(x), n, sq), Centred(EntryValue(y), n);
            && Loss(Z, yc, penalty.r, Rescaled(m), n, d) <= Loss(Z, yc, penalty.r, b, n, d)
            && (Loss(Z, yc, penalty.r, Rescaled(m), n, d) == Loss(Z, yc, penalty.r, b, n, d)
                <==> forall j | 0 <= j < d :: b(j) == Rescaled(m)(j))
            && Predict(m, point, d) == MeanOf(EntryValue(y), n) + Inner(StandardPoint(X, point, n, sq), Rescaled(m), d)
  {
    hide Loss;
    hide SolvesNormal;
    hide Lawful;
    hide Standardised;
    hide Centred;
    hide MeanOf;
    hide ScaleOf;
    hide Prod;
    var n, X, Y := |x|, CellValue(x), EntryValue(y);
    var Z, yc := Standardised(X, n, sq), Centred(Y, n);
    SolverSolves(x, y, d, penalty, sq, solve);
    var betaZ := solve(NormalMatrix(Z, penalty.r, n), Back(Z, yc, n)).value;
    var m := FitRidge(x, y, d, penalty, sq, solve).value;
    FitMinimises(X, Y, penalty.r, betaZ, n, d, sq, b);
    PredictionsAgree(X, Y, betaZ, n, d, sq, point);
    var z := StandardPoint(X, point, n, sq);
    forall j | 0 <= j < d
      ensures Products(z, betaZ)(j) == Products(z, Rescaled(m))(j)
    {
      RescaledBack(X, Y, betaZ, n, d, sq, j);
      assert Products(z, betaZ)(j) == Prod(z(j), betaZ(j));
      assert Products(z, Rescaled(m))(j) == Prod(z(j), Rescaled(m)(j));
    }
    SumExt(Products(z, betaZ), Products(z, Rescaled(m)), d);
  }
}
