/** tools/calibration/c2k_stats.py, fit_ridge: the standardised ridge regression. */
module Ridge {
  import opened Sums
  import opened Floats
  import opened Complexes
  import opened Conformal

  function Prod(a: real, b: real): real { a * b }

  function Products(f: RVec, g: RVec): RVec { k => Prod(f(k), g(k)) }

  function Inner(f: RVec, g: RVec, n: int): real { Sum(Products(f, g), n) }

  function SqSum(f: RVec, n: int): real { Sum(SquareTerms(f), n) }

  function RowVec(X: RMat, i: int): RVec { j => X(i, j) }

  function ColVec(X: RMat, j: int): RVec { i => X(i, j) }

  /** X b. */
  function Fit(X: RMat, b: RVec, d: int): RVec { i => Inner(RowVec(X, i), b, d) }

  /** X^T r. */
  function Back(X: RMat, r: RVec, n: int): RVec { j => Inner(ColVec(X, j), r, n) }

  function Residual(X: RMat, y: RVec, b: RVec, d: int): RVec { i => y(i) - Fit(X, b, d)(i) }

  /** |y - X b|^2 + penalty |b|^2. */
  function Loss(X: RMat, y: RVec, penalty: real, b: RVec, n: int, d: int): real
  {
    SqSum(Residual(X, y, b, d), n) + penalty * SqSum(b, d)
  }

  /** X^T X + penalty I. */
  function NormalMatrix(X: RMat, penalty: real, n: int): RMat
  {
    (j, k) => Inner(ColVec(X, j), ColVec(X, k), n) + if j == k then penalty else 0.0
  }

  /** What np.linalg.solve promises about its result. */
  ghost predicate SolvesNormal(X: RMat, y: RVec, penalty: real, b: RVec, n: int, d: int)
  {
    forall j | 0 <= j < d :: Inner(RowVec(NormalMatrix(X, penalty, n), j), b, d) == Back(X, y, n)(j)
  }

  // ----- algebra of inner products

  lemma SquareSumTerm(a: real, b: real)
    ensures Square(a + b) == Square(a) + Prod(a, b) + Prod(a, b) + Square(b)
  {}

  /** |r + s|^2 = |r|^2 + 2 <r, s> + |s|^2. */
  lemma {:induction false} SquareCombine(r: RVec, s: RVec, h: RVec, n: int)
    requires forall k | 0 <= k < n :: h(k) == r(k) + s(k)
    ensures SqSum(h, n) == SqSum(r, n) + Inner(r, s, n) + Inner(r, s, n) + SqSum(s, n)
  {
    hide Prod;
    hide Square;
    if n > 0 {
      SquareCombine(r, s, h, n - 1);
      SquareSumTerm(r(n - 1), s(n - 1));
      assert SquareTerms(h)(n - 1) == Square(r(n - 1) + s(n - 1));
      assert SquareTerms(r)(n - 1) == Square(r(n - 1));
      assert SquareTerms(s)(n - 1) == Square(s(n - 1));
      assert Products(r, s)(n - 1) == Prod(r(n - 1), s(n - 1));
    }
  }

  lemma ProdSwap(a: real, b: real, c: real)
    ensures Prod(a, Prod(b, c)) == Prod(c, Prod(b, a))
  {}

  lemma InnerScale(f: RVec, g: RVec, h: RVec, c: real, n: int)
    requires forall k | 0 <= k < n :: h(k) == Prod(c, Products(f, g)(k))
    ensures Sum(h, n) == Prod(c, Inner(f, g, n))
  {}

  /** <r, X e> = <e, X^T r>. */
  lemma AdjointInner(X: RMat, r: RVec, e: RVec, n: int, d: int)
    ensures Inner(r, Fit(X, e, d), n) == Inner(e, Back(X, r, n), d)
  {
    hide Prod;
    var F := (i: int, j: int) => Prod(r(i), Prod(X(i, j), e(j)));
    forall i | 0 <= i < n
      ensures Products(r, Fit(X, e, d))(i) == Sum(j => F(i, j), d)
    {
      InnerScale(RowVec(X, i), e, j => F(i, j), r(i), d);
    }
    forall j | 0 <= j < d
      ensures Products(e, Back(X, r, n))(j) == Sum(i => F(i, j), n)
    {
      forall i | 0 <= i < n
        ensures F(i, j) == Prod(e(j), Products(ColVec(X, j), r)(i))
      {
        ProdSwap(r(i), X(i, j), e(j));
      }
      InnerScale(ColVec(X, j), r, i => F(i, j), e(j), n);
    }
    SumSwap(F, Products(r, Fit(X, e, d)), Products(e, Back(X, r, n)), n, d);
  }

  lemma InnerAdd(f: RVec, g: RVec, h: RVec, k: RVec, n: int)
    requires forall i | 0 <= i < n :: k(i) == g(i) + h(i)
    ensures Inner(f, k, n) == Inner(f, g, n) + Inner(f, h, n)
  {
    forall i | 0 <= i < n
      ensures Products(f, k)(i) == Products(f, g)(i) + Products(f, h)(i)
    {
      assert Prod(f(i), g(i) + h(i)) == Prod(f(i), g(i)) + Prod(f(i), h(i));
    }
    SumAdd(Products(f, g), Products(f, h), Products(f, k), n);
  }

  lemma ProdComm(a: real, b: real)
    ensures Prod(a, b) == Prod(b, a)
  {}

  lemma InnerComm(f: RVec, g: RVec, n: int)
    ensures Inner(f, g, n) == Inner(g, f, n)
  {
    hide Prod;
    forall i: int
      ensures Products(f, g)(i) == Products(g, f)(i)
    {
      ProdComm(f(i), g(i));
    }
    SumExt(Products(f, g), Products(g, f), n);
  }

  // ----- the normal equations

  function Regulariser(penalty: real, j: int): RVec { k => if j == k then penalty else 0.0 }

  /** (X^T X + penalty I) b, row by row, is X^T (X b) + penalty b. */
  lemma NormalRow(X: RMat, penalty: real, b: RVec, j: int, n: int, d: int)
    requires 0 <= j < d
    ensures Inner(RowVec(NormalMatrix(X, penalty, n), j), b, d) == Back(X, Fit(X, b, d), n)(j) + Prod(penalty, b(j))
  {
    hide Prod;
    var gram := (k: int) => Inner(ColVec(X, j), ColVec(X, k), n);
    InnerComm(RowVec(NormalMatrix(X, penalty, n), j), b, d);
    InnerAdd(b, gram, Regulariser(penalty, j), RowVec(NormalMatrix(X, penalty, n), j), d);
    RegulariserInner(b, penalty, j, d);
    AdjointInner(X, ColVec(X, j), b, n, d);
    forall k | 0 <= k < d
      ensures gram(k) == Back(X, ColVec(X, j), n)(k)
    {
      InnerComm(ColVec(X, j), ColVec(X, k), n);
    }
    InnerExt(b, gram, Back(X, ColVec(X, j), n), d);
  }

  lemma InnerExt(f: RVec, g: RVec, h: RVec, n: int)
    requires forall i | 0 <= i < n :: g(i) == h(i)
    ensures Inner(f, g, n) == Inner(f, h, n)
  {
    hide Prod;
    forall i | 0 <= i < n
      ensures Products(f, g)(i) == Products(f, h)(i)
    {
      assert Products(f, g)(i) == Prod(f(i), g(i));
      assert Products(f, h)(i) == Prod(f(i), h(i));
    }
    SumExt(Products(f, g), Products(f, h), n);
  }

  lemma RegulariserInner(b: RVec, penalty: real, j: int, d: int)
    requires 0 <= j < d
    ensures Inner(b, Regulariser(penalty, j), d) == Prod(penalty, b(j))
  {
    var terms := Products(b, Regulariser(penalty, j));
    forall k | 0 <= k < d && k != j
      ensures terms(k) == 0.0
    {
      assert terms(k) == b(k) * 0.0;
    }
    SumSingle(terms, j, d);
    ProdComm(b(j), penalty);
  }

  /** At a solution the gradient vanishes: X^T (y - X b) = penalty b. */
  lemma NormalEquation(X: RMat, y: RVec, penalty: real, b: RVec, n: int, d: int, j: int)
    requires SolvesNormal(X, y, penalty, b, n, d) && 0 <= j < d
    ensures Back(X, Residual(X, y, b, d), n)(j) == Prod(penalty, b(j))
  {
    hide Prod;
    NormalRow(X, penalty, b, j, n, d);
    InnerAdd(ColVec(X, j), Residual(X, y, b, d), Fit(X, b, d), y, n);
  }

  function Diff(a: RVec, b: RVec): RVec { k => a(k) - b(k) }

  function Neg(f: RVec): RVec { k => -f(k) }

  lemma NegInner(f: RVec, g: RVec, n: int)
    ensures Inner(f, Neg(g), n) == -Inner(f, g, n)
    ensures SqSum(Neg(g), n) == SqSum(g, n)
  {
    forall k: int
      ensures Products(f, Neg(g))(k) == -1.0 * Products(f, g)(k)
      ensures SquareTerms(Neg(g))(k) == SquareTerms(g)(k)
    {
      NegProducts(f(k), g(k));
    }
    SumScale(-1.0, Products(f, g), Products(f, Neg(g)), n);
    SumExt(SquareTerms(Neg(g)), SquareTerms(g), n);
  }

  lemma NegProducts(a: real, b: real)
    ensures Prod(a, -b) == -1.0 * Prod(a, b)
    ensures Square(-b) == Square(b)
  {}

  /** Loss(b) = Loss(beta) + |X e|^2 + penalty |e|^2 with e = b - beta. */
  lemma LossGap(X: RMat, y: RVec, penalty: real, beta: RVec, b: RVec, n: int, d: int)
    requires SolvesNormal(X, y, penalty, beta, n, d)
    ensures var e := Diff(b, beta);
            Loss(X, y, penalty, b, n, d)
            == Loss(X, y, penalty, beta, n, d) + SqSum(Fit(X, e, d), n) + Prod(penalty, SqSum(e, d))
  {
    hide Prod;
    hide Fit;
    hide Inner;
    hide SqSum;
    var e, r := Diff(b, beta), Residual(X, y, beta, d);
    var s := Fit(X, e, d);
    forall i | 0 <= i < n
      ensures Residual(X, y, b, d)(i) == r(i) + Neg(s)(i)
    {
      FitDifference(X, b, beta, d, i);
    }
    SquareCombine(r, Neg(s), Residual(X, y, b, d), n);
    NegInner(r, s, n);
    AdjointInner(X, r, e, n, d);
    GradientInner(X, y, penalty, beta, e, n, d);
    SquareCombine(beta, e, b, d);
    GapArithmetic(penalty, SqSum(b, d), SqSum(beta, d), Inner(beta, e, d), SqSum(e, d));
  }

  lemma FitDifference(X: RMat, b: RVec, beta: RVec, d: int, i: int)
    ensures Fit(X, b, d)(i) == Fit(X, beta, d)(i) + Fit(X, Diff(b, beta), d)(i)
  {
    hide Prod;
    InnerAdd(RowVec(X, i), beta, Diff(b, beta), b, d);
  }

  lemma GradientInner(X: RMat, y: RVec, penalty: real, beta: RVec, e: RVec, n: int, d: int)
    requires SolvesNormal(X, y, penalty, beta, n, d)
    ensures Inner(e, Back(X, Residual(X, y, beta, d), n), d) == Prod(penalty, Inner(beta, e, d))
  {
    hide Prod;
    var g := Back(X, Residual(X, y, beta, d), n);
    forall j | 0 <= j < d
      ensures Products(e, g)(j) == Prod(penalty, Products(beta, e)(j))
    {
      NormalEquation(X, y, penalty, beta, n, d, j);
      ProdSwap(e(j), penalty, beta(j));
      ProdComm(penalty, e(j));
      ProdSwap(beta(j), e(j), penalty);
      ProdComm(e(j), beta(j));
      assert Products(e, g)(j) == Prod(e(j), Prod(penalty, beta(j)));
      assert Products(beta, e)(j) == Prod(beta(j), e(j));
    }
    InnerScale(beta, e, Products(e, g), penalty, d);
  }

  lemma GapArithmetic(penalty: real, full: real, base: real, cross: real, gap: real)
    requires full == base + cross + cross + gap
    ensures penalty * full == penalty * base + Prod(penalty, cross) + Prod(penalty, cross) + Prod(penalty, gap)
  {}

  lemma SqSumPositive(f: RVec, n: int)
    ensures SqSum(f, n) >= 0.0
    ensures (exists k :: 0 <= k < n && f(k) != 0.0) ==> SqSum(f, n) > 0.0
  {
    forall k: int
      ensures SquareTerms(f)(k) >= 0.0
    {
      SquarePositive(f(k));
    }
    SumNonNegative(SquareTerms(f), n);
    if k :| 0 <= k < n && f(k) != 0.0 {
      SquarePositive(f(k));
      SumTermBound(SquareTerms(f), k, n);
    }
  }

  /** The solution of the normal equations is the unique global minimiser of the ridge loss. */
  lemma UniqueMinimiser(X: RMat, y: RVec, penalty: real, beta: RVec, b: RVec, n: int, d: int)
    requires penalty > 0.0 && SolvesNormal(X, y, penalty, beta, n, d)
    ensures Loss(X, y, penalty, beta, n, d) <= Loss(X, y, penalty, b, n, d)
    ensures Loss(X, y, penalty, beta, n, d) == Loss(X, y, penalty, b, n, d)
       <==> forall j | 0 <= j < d :: b(j) == beta(j)
  {
    hide SqSum;
    hide Loss;
    var e := Diff(b, beta);
    LossGap(X, y, penalty, beta, b, n, d);
    SqSumPositive(Fit(X, e, d), n);
    SqSumPositive(e, d);
    ProductNonNegative(penalty, SqSum(e, d), Prod(penalty, SqSum(e, d)));
    if forall j | 0 <= j < d :: b(j) == beta(j) {
      SameLoss(X, y, penalty, beta, b, n, d);
    } else {
      var j :| 0 <= j < d && b(j) != beta(j);
      assert e(j) != 0.0;
      ProductPositive(penalty, SqSum(e, d), Prod(penalty, SqSum(e, d)));
    }
  }

  lemma SameLoss(X: RMat, y: RVec, penalty: real, beta: RVec, b: RVec, n: int, d: int)
    requires forall j | 0 <= j < d :: b(j) == beta(j)
    ensures Loss(X, y, penalty, beta, n, d) == Loss(X, y, penalty, b, n, d)
  {
    hide Prod;
    hide Square;
    forall i | 0 <= i < n
      ensures SquareTerms(Residual(X, y, beta, d))(i) == SquareTerms(Residual(X, y, b, d))(i)
    {
      InnerExt(RowVec(X, i), beta, b, d);
      assert SquareTerms(Residual(X, y, beta, d))(i) == Square(y(i) - Fit(X, beta, d)(i));
      assert SquareTerms(Residual(X, y, b, d))(i) == Square(y(i) - Fit(X, b, d)(i));
    }
    SumExt(SquareTerms(Residual(X, y, beta, d)), SquareTerms(Residual(X, y, b, d)), n);
    forall j | 0 <= j < d
      ensures SquareTerms(beta)(j) == SquareTerms(b)(j)
    {}
    SumExt(SquareTerms(beta), SquareTerms(b), d);
  }

  // ----- the fitted model

  datatype RidgeModel = RidgeModel(intercept: real, coefficients: RVec, featureMean: RVec, featureScale: RVec)

  function Predict(m: RidgeModel, x: RVec, d: int): real { m.intercept + Inner(x, m.coefficients, d) }

  function MeanOf(f: RVec, n: int): real
    requires n > 0
  {
    Sum(f, n) / n as real
  }

  function Centred(f: RVec, n: int): RVec
    requires n > 0
  {
    k => f(k) - MeanOf(f, n)
  }

  /** The sample standard deviation, or 1 for a (nearly) constant column. */
  function ScaleOf(f: RVec, n: int, sq: real -> real): (s: real)
    requires n > 1
    ensures s > 0.0
  {
    var std := sq(SqSum(Centred(f, n), n) / (n - 1) as real);
    if std > 0.000000000001 then std else 1.0
  }

  function Standardised(X: RMat, n: int, sq: real -> real): RMat
    requires n > 1
  {
    (i, j) => (X(i, j) - MeanOf(ColVec(X, j), n)) / ScaleOf(ColVec(X, j), n, sq)
  }

  /** The model built from the solved standardised coefficients betaZ. */
  function BuildModel(X: RMat, y: RVec, betaZ: RVec, n: int, d: int, sq: real -> real): RidgeModel
    requires n > 1
  {
    var mean := (j: int) => MeanOf(ColVec(X, j), n);
    var scale := (j: int) => ScaleOf(ColVec(X, j), n, sq);
    var beta := (j: int) => betaZ(j) / ScaleOf(ColVec(X, j), n, sq);
    RidgeModel(MeanOf(y, n) - Inner(mean, beta, d), beta, mean, scale)
  }

  function CellValue(x: seq<seq<Float>>): RMat
  {
    (i, j) => if 0 <= i < |x| && 0 <= j < |x[i]| && x[i][j].Finite? then x[i][j].r else 0.0
  }

  function EntryValue(y: seq<Float>): RVec { i => if 0 <= i < |y| && y[i].Finite? then y[i].r else 0.0 }

  /** Finite inputs of matching size at least 2, and a finite positive penalty. */
  predicate ValidInputs(x: seq<seq<Float>>, y: seq<Float>, penalty: Float)
  {
    && |x| == |y| >= 2 && (forall row | row in x :: AllFinite(row)) && AllFinite(y)
    && penalty.Finite? && penalty.r > 0.0
  }

  /** solve stands for np.linalg.solve on the d x d normal equations; it may raise. */
  function FitRidge(x: seq<seq<Float>>, y: seq<Float>, d: nat, penalty: Float, sq: real -> real,
                    solve: (RMat, RVec) -> Result<RVec>): (r: Result<RidgeModel>)
    requires forall row | row in x :: |row| == d
    ensures r.Ok? ==> ValidInputs(x, y, penalty)
  {
    if |x| != |y| || |x| < 2 then ValueError
    else if !(forall row | row in x :: AllFinite(row)) || !AllFinite(y) then ValueError
    else if penalty.NonFinite? || penalty.r <= 0.0 then ValueError
    else
      var n := |x|;
      var Z := Standardised(CellValue(x), n, sq);
      var yc := Centred(EntryValue(y), n);
      match solve(NormalMatrix(Z, penalty.r, n), Back(Z, yc, n))
      case ValueError => ValueError
      case Ok(betaZ) => Ok(BuildModel(CellValue(x), EntryValue(y), betaZ, n, d, sq))
  }

  lemma ScaledProduct(x: real, m: real, s: real, b: real)
    requires s != 0.0
    ensures Prod((x - m) / s, b) == Prod(x, b / s) - Prod(m, b / s)
  {}

  /** A point in standardised units. */
  function StandardPoint(X: RMat, point: RVec, n: int, sq: real -> real): RVec
    requires n > 1
  {
    j => (point(j) - MeanOf(ColVec(X, j), n)) / ScaleOf(ColVec(X, j), n, sq)
  }

  /** In original units the model predicts what the standardised regression predicts. */
  lemma PredictionsAgree(X: RMat, y: RVec, betaZ: RVec, n: int, d: int, sq: real -> real, x: RVec)
    requires n > 1
    ensures var m := BuildModel(X, y, betaZ, n, d, sq);
            Predict(m, x, d) == MeanOf(y, n) + Inner(StandardPoint(X, x, n, sq), betaZ, d)
  {
    hide Prod;
    hide MeanOf;
    hide ScaleOf;
    var m := BuildModel(X, y, betaZ, n, d, sq);
    var z := StandardPoint(X, x, n, sq);
    forall j | 0 <= j < d
      ensures Products(x, m.coefficients)(j) == Products(z, betaZ)(j) + Products(m.featureMean, m.coefficients)(j)
    {
      ScaledProduct(x(j), m.featureMean(j), ScaleOf(ColVec(X, j), n, sq), betaZ(j));
    }
    SumAdd(Products(z, betaZ), Products(m.featureMean, m.coefficients), Products(x, m.coefficients), d);
  }

  /** The model's coefficients back in standardised units. */
  function Rescaled(m: RidgeModel): RVec { j => m.coefficients(j) * m.featureScale(j) }

  lemma RescaledBack(X: RMat, y: RVec, betaZ: RVec, n: int, d: int, sq: real -> real, j: int)
    requires n > 1
    ensures Rescaled(BuildModel(X, y, betaZ, n, d, sq))(j) == betaZ(j)
  {
    hide ScaleOf;
    hide MeanOf;
    DivideTimes(betaZ(j), ScaleOf(ColVec(X, j), n, sq));
  }

  /**
   The fitted coefficients are the unique minimiser of the standardised loss,
   given only that the linear solve solved its system.
   */
  lemma FitMinimises(X: RMat, y: RVec, penalty: real, betaZ: RVec, n: int, d: int, sq: real -> real, b: RVec)
    requires n > 1 && penalty > 0.0
    requires SolvesNormal(Standardised(X, n, sq), Centred(y, n), penalty, betaZ, n, d)
    ensures var Z, yc := Standardised(X, n, sq), Centred(y, n);
            var fitted := Rescaled(BuildModel(X, y, betaZ, n, d, sq));
            && Loss(Z, yc, penalty, fitted, n, d) <= Loss(Z, yc, penalty, b, n, d)
            && (Loss(Z, yc, penalty, fitted, n, d) == Loss(Z, yc, penalty, b, n, d)
                <==> forall j | 0 <= j < d :: b(j) == fitted(j))
  {
    hide Loss;
    hide SolvesNormal;
    hide Standardised;
    hide Centred;
    hide MeanOf;
    hide ScaleOf;
    hide Inner;
    var Z, yc := Standardised(X, n, sq), Centred(y, n);
    var model := BuildModel(X, y, betaZ, n, d, sq);
    forall j ensures Rescaled(model)(j) == betaZ(j) {
      RescaledBack(X, y, betaZ, n, d, sq, j);
    }
    SameLoss(Z, yc, penalty, betaZ, Rescaled(model), n, d);
    UniqueMinimiser(Z, yc, penalty, betaZ, b, n, d);
  }

  lemma DivideTimes(a: real, s: real)
    requires s != 0.0
    ensures a / s * s == a
  {}
}
