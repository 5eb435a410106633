/** What the standardisation of fit_ridge does, and what it makes optimal in the original units. */
module RidgeOriginal {
  import opened Sums
  import opened Floats
  import opened Complexes
  import opened Conformal
  import opened Ridge
  import opened RidgeSolver
  import opened Cholesky

  // ----- centring and scaling

  lemma {:induction false} SumShift(f: RVec, m: real, h: RVec, n: nat)
    requires forall k | 0 <= k < n :: h(k) == f(k) - m
    ensures Sum(h, n) == Sum(f, n) - n as real * m
  {
    if n > 0 {
      SumShift(f, m, h, n - 1);
      OneMore(n, m);
    }
  }

  lemma OneMore(n: int, m: real)
    ensures n as real * m == (n - 1) as real * m + m
  {}

  lemma DivideBack(a: real, n: real)
    requires n != 0.0
    ensures n * (a / n) == a
  {}

  /** Centred values sum to zero. */
  lemma CentredSum(f: RVec, n: nat)
    requires n > 0
    ensures Sum(Centred(f, n), n) == 0.0
  {
    SumShift(f, MeanOf(f, n), Centred(f, n), n);
    DivideBack(Sum(f, n), n as real);
  }

  lemma ScaleSquares(f: RVec, h: RVec, q: real, q2: real, n: nat)
    requires q2 == q * q && forall k | 0 <= k < n :: h(k) == q * f(k)
    ensures SqSum(h, n) == q2 * SqSum(f, n)
  {
    hide Square;
    forall k | 0 <= k < n
      ensures SquareTerms(h)(k) == q2 * SquareTerms(f)(k)
    {
      ScaledSquare(q, q2, f(k), h(k));
      assert SquareTerms(h)(k) == Square(h(k)) && SquareTerms(f)(k) == Square(f(k));
    }
    SumScale(q2, SquareTerms(f), SquareTerms(h), n);
  }

  lemma ScaledSquare(q: real, q2: real, a: real, b: real)
    requires q2 == q * q && b == q * a
    ensures Square(b) == q2 * Square(a)
  {}

  lemma ScaleIs(f: RVec, n: nat, sq: real -> real, std: real)
    requires n > 1 && std == sq(SqSum(Centred(f, n), n) / (n - 1) as real)
    ensures ScaleOf(f, n, sq) == if std > 0.000000000001 then std else 1.0
  {}

  lemma DivideIsTimes(a: real, s: real)
    requires s > 0.0
    ensures a / s == (1.0 / s) * a
  {}

  lemma QuotientNonNegative(a: real, n: real)
    requires a >= 0.0 && n > 0.0
    ensures a / n >= 0.0
  {}

  lemma UnitVariance(v: real, std: real, total: real, n: real)
    requires n > 0.0 && v == total / n && std > 0.0 && std * std == v
    ensures (1.0 / std) * (1.0 / std) * total == n
  {
    assert total == n * v;
    assert (1.0 / std) * std == 1.0;
  }

  /**
   A standardised column sums to zero. Its squares sum to n - 1 when its sample standard deviation exceeds
   1e-12; otherwise it is the column less its mean.
   */
  lemma StandardisedColumn(X: RMat, j: int, n: nat, sq: real -> real, std: real)
    requires n > 1 && IsSqrt(sq)
    requires std == sq(SqSum(k => X(k, j) - Sum(i => X(i, j), n) / n as real, n) / (n - 1) as real)
    ensures Sum(i => Standardised(X, n, sq)(i, j), n) == 0.0
    ensures std > 0.000000000001 ==> SqSum(i => Standardised(X, n, sq)(i, j), n) == (n - 1) as real
    ensures std <= 0.000000000001 ==>
      forall i :: Standardised(X, n, sq)(i, j) == X(i, j) - Sum(i => X(i, j), n) / n as real
  {
    hide SqSum;
    hide MeanOf;
    hide Centred;
    MeanExt(X, j, n);
    VarianceExt(X, j, n);
    StandardisedSums(X, j, n, sq, std);
  }

  lemma StandardisedAt(X: RMat, i: int, j: int, n: nat, sq: real -> real)
    requires n > 1
    ensures Standardised(X, n, sq)(i, j) == (1.0 / ScaleOf(ColVec(X, j), n, sq)) * Centred(ColVec(X, j), n)(i)
  {
    hide ScaleOf;
    hide MeanOf;
    DivideIsTimes(X(i, j) - MeanOf(ColVec(X, j), n), ScaleOf(ColVec(X, j), n, sq));
  }

  lemma StandardisedSums(X: RMat, j: int, n: nat, sq: real -> real, std: real)
    requires n > 1 && IsSqrt(sq) && std == sq(SqSum(Centred(ColVec(X, j), n), n) / (n - 1) as real)
    ensures Sum(i => Standardised(X, n, sq)(i, j), n) == 0.0
    ensures std > 0.000000000001 ==> SqSum(i => Standardised(X, n, sq)(i, j), n) == (n - 1) as real
    ensures std <= 0.000000000001 ==>
      forall i :: Standardised(X, n, sq)(i, j) == X(i, j) - MeanOf(ColVec(X, j), n)
  {
    hide SqSum;
    hide MeanOf;
    hide ScaleOf;
    var col, s := ColVec(X, j), ScaleOf(ColVec(X, j), n, sq);
    var h, q := i => Standardised(X, n, sq)(i, j), 1.0 / s;
    ScaleIs(col, n, sq, std);
    forall i: int ensures h(i) == q * Centred(col, n)(i) {
      StandardisedAt(X, i, j, n, sq);
    }
    hide Standardised;
    ScaledColumn(col, h, q, n);
    SqSumPositive(Centred(col, n), n);
    if std > 0.000000000001 {
      UnitSquares(sq, SqSum(Centred(col, n), n), (n - 1) as real, s, q * q);
    }
  }

  lemma ScaledColumn(col: RVec, h: RVec, q: real, n: nat)
    requires n > 0 && forall i: int :: h(i) == q * Centred(col, n)(i)
    ensures Sum(h, n) == 0.0 && SqSum(h, n) == (q * q) * SqSum(Centred(col, n), n)
  {
    hide SqSum;
    hide Centred;
    SumScale(q, Centred(col, n), h, n);
    CentredSum(col, n);
    ScaleSquares(Centred(col, n), h, q, q * q, n);
  }

  lemma UnitSquares(sq: real -> real, total: real, n: real, std: real, q2: real)
    requires IsSqrt(sq) && total >= 0.0 && n > 0.0 && std == sq(total / n) > 0.0 && q2 == (1.0 / std) * (1.0 / std)
    ensures q2 * total == n
  {
    QuotientNonNegative(total, n);
    RootSquares(sq, total / n);
    UnitVariance(total / n, std, total, n);
  }

  lemma RootSquares(sq: real -> real, v: real)
    requires IsSqrt(sq) && sq(v) > 0.0 && v >= 0.0
    ensures sq(v) * sq(v) == v
  {}

  lemma MeanExt(X: RMat, j: int, n: nat)
    requires n > 0
    ensures MeanOf(ColVec(X, j), n) == Sum(i => X(i, j), n) / n as real
  {
    SumExt(ColVec(X, j), i => X(i, j), n);
  }

  lemma VarianceExt(X: RMat, j: int, n: nat)
    requires n > 0
    ensures SqSum(Centred(ColVec(X, j), n), n) == SqSum(k => X(k, j) - Sum(i => X(i, j), n) / n as real, n)
  {
    MeanExt(X, j, n);
    var f, g := Centred(ColVec(X, j), n), k => X(k, j) - Sum(i => X(i, j), n) / n as real;
    forall k | 0 <= k < n ensures SquareTerms(f)(k) == SquareTerms(g)(k) {
      assert f(k) == g(k);
    }
    SumExt(SquareTerms(f), SquareTerms(g), n);
  }

  // ----- the fit in the original units

  /** The residual of intercept c and coefficients b at sample i. */
  function RawResidual(X: RMat, Y: RVec, c: real, b: RVec, d: int): RVec
  {
    i => Y(i) - c - Inner(RowVec(X, i), b, d)
  }

  /** The squared errors of c and b plus the penalty on the coefficients, each times its scale; c is free. */
  function RawLoss(X: RMat, Y: RVec, penalty: real, s: RVec, c: real, b: RVec, n: int, d: int): real
  {
    Sum(i => Square(RawResidual(X, Y, c, b, d)(i)), n) + penalty * Sum(j => Square(Prod(s(j), b(j))), d)
  }

  /** Coefficients in standardised units. */
  function ToStandard(s: RVec, b: RVec): RVec { j => Prod(s(j), b(j)) }

  /** How far an intercept is from the one that fits the means. */
  function Offset(X: RMat, Y: RVec, c: real, b: RVec, n: int, d: int): real
    requires n > 0
  {
    MeanOf(Y, n) - c - Inner(j => MeanOf(ColVec(X, j), n), b, d)
  }

  lemma StandardProduct(z: real, x: real, m: real, s: real, b: real)
    requires s > 0.0 && z == (1.0 / s) * (x - m)
    ensures Prod(z, Prod(s, b)) == Prod(x, b) - Prod(m, b)
  {
    assert (1.0 / s) * s == 1.0;
    assert z * s == x - m;
  }

  lemma ShiftAt(X: RMat, s: RVec, b: RVec, n: nat, sq: real -> real, i: int, j: int)
    requires n > 1 && s(j) == ScaleOf(ColVec(X, j), n, sq)
    ensures Prod(X(i, j), b(j))
         == Prod(Standardised(X, n, sq)(i, j), Prod(s(j), b(j))) + Prod(MeanOf(ColVec(X, j), n), b(j))
  {
    hide MeanOf;
    hide ScaleOf;
    StandardisedAt(X, i, j, n, sq);
    hide Standardised;
    hide Prod;
    StandardProduct(Standardised(X, n, sq)(i, j), X(i, j), MeanOf(ColVec(X, j), n), s(j), b(j));
  }

  /** A raw residual is the standardised one plus the offset. */
  lemma ResidualShift(X: RMat, Y: RVec, s: RVec, c: real, b: RVec, n: nat, d: nat, sq: real -> real, i: int)
    requires n > 1 && forall j | 0 <= j < d :: s(j) == ScaleOf(ColVec(X, j), n, sq)
    ensures RawResidual(X, Y, c, b, d)(i)
         == Residual(Standardised(X, n, sq), Centred(Y, n), ToStandard(s, b), d)(i) + Offset(X, Y, c, b, n, d)
  {
    hide Prod;
    hide MeanOf;
    hide ScaleOf;
    hide Standardised;
    FitShift(X, s, b, n, d, sq, i);
    hide Inner;
    hide Sum;
    var Z, yc := Standardised(X, n, sq), Centred(Y, n);
    assert Residual(Z, yc, ToStandard(s, b), d)(i) == yc(i) - Fit(Z, ToStandard(s, b), d)(i);
    assert yc(i) == Y(i) - MeanOf(Y, n);
  }

  lemma FitShift(X: RMat, s: RVec, b: RVec, n: nat, d: nat, sq: real -> real, i: int)
    requires n > 1 && forall j | 0 <= j < d :: s(j) == ScaleOf(ColVec(X, j), n, sq)
    ensures Inner(RowVec(X, i), b, d)
         == Fit(Standardised(X, n, sq), ToStandard(s, b), d)(i) + Inner(j => MeanOf(ColVec(X, j), n), b, d)
  {
    hide Prod;
    hide MeanOf;
    hide ScaleOf;
    hide Standardised;
    var z, mean := RowVec(Standardised(X, n, sq), i), (j: int) => MeanOf(ColVec(X, j), n);
    forall j | 0 <= j < d
      ensures Products(RowVec(X, i), b)(j) == Products(z, ToStandard(s, b))(j) + Products(mean, b)(j)
    {
      ShiftAt(X, s, b, n, sq, i, j);
      assert Products(z, ToStandard(s, b))(j) == Prod(z(j), Prod(s(j), b(j)));
    }
    SumAdd(Products(z, ToStandard(s, b)), Products(mean, b), Products(RowVec(X, i), b), d);
  }

  /** Adding a constant to residuals that sum to zero adds its square n times. */
  lemma {:induction false} SquaresShift(r: RVec, g: real, h: RVec, n: nat)
    requires forall k | 0 <= k < n :: h(k) == r(k) + g
    ensures SqSum(h, n) == SqSum(r, n) + Prod(g, Sum(r, n)) + Prod(g, Sum(r, n)) + Prod(n as real, Square(g))
  {
    hide Prod;
    hide Square;
    if n == 0 {
      ShiftNone(g);
    } else {
      SquaresShift(r, g, h, n - 1);
      SquareSumTerm(r(n - 1), g);
      ShiftOne(g, Sum(r, n - 1), r(n - 1), n, Square(g));
      assert SquareTerms(h)(n - 1) == Square(r(n - 1) + g) && SquareTerms(r)(n - 1) == Square(r(n - 1));
    }
  }

  lemma ShiftNone(g: real)
    ensures Prod(g, 0.0) == 0.0 && Prod(0 as real, Square(g)) == 0.0
  {}

  lemma ShiftOne(g: real, total: real, last: real, n: int, q: real)
    ensures Prod(g, total + last) == Prod(g, total) + Prod(last, g)
    ensures Prod(n as real, q) == Prod((n - 1) as real, q) + q
  {}

  /** Standardised residuals sum to zero, whatever the coefficients. */
  lemma ResidualsSum(X: RMat, Y: RVec, bz: RVec, n: nat, d: nat, sq: real -> real)
    requires n > 1 && IsSqrt(sq)
    ensures Sum(Residual(Standardised(X, n, sq), Centred(Y, n), bz, d), n) == 0.0
  {
    hide MeanOf;
    hide ScaleOf;
    hide Prod;
    hide Standardised;
    hide Centred;
    var Z, yc := Standardised(X, n, sq), Centred(Y, n);
    CentredSum(Y, n);
    var one: RVec := i => 1.0;
    AdjointInner(Z, one, bz, n, d);
    forall j | 0 <= j < d ensures Products(bz, Back(Z, one, n))(j) == 0.0 {
      ColumnSum(X, j, n, sq);
      ProdZero(bz(j));
    }
    SumZero(Products(bz, Back(Z, one, n)), d);
    OnesInner(Fit(Z, bz, d), n);
    forall i ensures yc(i) == Residual(Z, yc, bz, d)(i) + Fit(Z, bz, d)(i) {}
    SumAdd(Residual(Z, yc, bz, d), Fit(Z, bz, d), yc, n);
  }

  lemma ProdZero(a: real)
    ensures Prod(a, 0.0) == 0.0
  {}

  lemma OnesInner(f: RVec, n: nat)
    ensures Inner(i => 1.0, f, n) == Sum(f, n) && Inner(f, i => 1.0, n) == Sum(f, n)
  {
    var one: RVec := i => 1.0;
    SumExt(Products(one, f), f, n);
    SumExt(Products(f, one), f, n);
  }

  lemma ColumnSum(X: RMat, j: int, n: nat, sq: real -> real)
    requires n > 1
    ensures Back(Standardised(X, n, sq), i => 1.0, n)(j) == 0.0
  {
    hide MeanOf;
    hide ScaleOf;
    var Z, col := Standardised(X, n, sq), ColVec(X, j);
    OnesInner(ColVec(Z, j), n);
    forall i: int ensures ColVec(Z, j)(i) == (1.0 / ScaleOf(col, n, sq)) * Centred(col, n)(i) {
      StandardisedAt(X, i, j, n, sq);
    }
    SumScale(1.0 / ScaleOf(col, n, sq), Centred(col, n), ColVec(Z, j), n);
    CentredSum(col, n);
  }

  /** The raw loss is the standardised loss plus n times the squared offset. */
  lemma RawLossSplit(X: RMat, Y: RVec, penalty: real, s: RVec, c: real, b: RVec, n: nat, d: nat, sq: real -> real)
    requires n > 1 && IsSqrt(sq) && forall j | 0 <= j < d :: s(j) == ScaleOf(ColVec(X, j), n, sq)
    ensures RawLoss(X, Y, penalty, s, c, b, n, d)
         == Loss(Standardised(X, n, sq), Centred(Y, n), penalty, ToStandard(s, b), n, d)
            + Prod(n as real, Square(Offset(X, Y, c, b, n, d)))
  {
    hide Prod;
    hide Square;
    hide Standardised;
    hide Centred;
    hide Offset;
    hide ScaleOf;
    var Z, yc, bz, g := Standardised(X, n, sq), Centred(Y, n), ToStandard(s, b), Offset(X, Y, c, b, n, d);
    var raw, r := RawResidual(X, Y, c, b, d), Residual(Standardised(X, n, sq), Centred(Y, n), ToStandard(s, b), d);
    forall i | 0 <= i < n ensures raw(i) == r(i) + g {
      ResidualShift(X, Y, s, c, b, n, d, sq, i);
    }
    hide RawResidual;
    hide Residual;
    SquaresShift(r, g, raw, n);
    ResidualsSum(X, Y, bz, n, d, sq);
    ProdZero(g);
    SquaresOf(raw, n);
    PenaltyOf(s, b, d);
  }

  lemma SquaresOf(f: RVec, n: int)
    ensures Sum(i => Square(f(i)), n) == SqSum(f, n)
  {
    SumExt(SquareTerms(f), i => Square(f(i)), n);
  }

  lemma PenaltyOf(s: RVec, b: RVec, d: int)
    ensures Sum(j => Square(Prod(s(j), b(j))), d) == SqSum(ToStandard(s, b), d)
  {
    hide Square;
    hide Prod;
    var bz := ToStandard(s, b);
    forall j: int ensures SquareTerms(bz)(j) == Square(Prod(s(j), b(j))) {
      assert bz(j) == Prod(s(j), b(j));
    }
    SumExt(SquareTerms(bz), j => Square(Prod(s(j), b(j))), d);
  }

  lemma FittedOffset(X: RMat, Y: RVec, betaZ: RVec, n: nat, d: nat, sq: real -> real, c: real, b: RVec)
    requires n > 1
    ensures var m := BuildModel(X, Y, betaZ, n, d, sq);
            && Offset(X, Y, m.intercept, m.coefficients, n, d) == 0.0
            && ((forall j | 0 <= j < d :: b(j) == m.coefficients(j)) ==>
                  Offset(X, Y, c, b, n, d) == m.intercept - c)
  {
    hide MeanOf;
    hide ScaleOf;
    hide Prod;
    var m := BuildModel(X, Y, betaZ, n, d, sq);
    var mean := (j: int) => MeanOf(ColVec(X, j), n);
    InnerExt(mean, m.coefficients, m.coefficients, d);
    SumExt(Products(m.featureMean, m.coefficients), Products(mean, m.coefficients), d);
    if forall j | 0 <= j < d :: b(j) == m.coefficients(j) {
      InnerExt(mean, b, m.coefficients, d);
    }
  }

  lemma FittedStandard(X: RMat, Y: RVec, betaZ: RVec, n: nat, d: nat, sq: real -> real, s: RVec, b: RVec)
    requires n > 1 && forall j | 0 <= j < d :: s(j) == ScaleOf(ColVec(X, j), n, sq)
    ensures var m := BuildModel(X, Y, betaZ, n, d, sq);
            && (forall j | 0 <= j < d :: ToStandard(s, m.coefficients)(j) == betaZ(j))
            && ((forall j | 0 <= j < d :: ToStandard(s, b)(j) == betaZ(j))
                <==> forall j | 0 <= j < d :: b(j) == m.coefficients(j))
  {
    hide MeanOf;
    hide ScaleOf;
    var m := BuildModel(X, Y, betaZ, n, d, sq);
    forall j | 0 <= j < d
      ensures ToStandard(s, m.coefficients)(j) == betaZ(j)
      ensures ToStandard(s, b)(j) == betaZ(j) <==> b(j) == m.coefficients(j)
    {
      Unscale(betaZ(j), s(j), b(j));
      assert m.coefficients(j) == betaZ(j) / s(j);
    }
  }

  lemma Unscale(a: real, s: real, b: real)
    requires s > 0.0
    ensures Prod(s, a / s) == a
    ensures Prod(s, b) == a <==> b == a / s
  {}

  lemma SquareZero(n: nat, g: real)
    requires n > 0
    ensures Prod(n as real, Square(g)) >= 0.0
    ensures Prod(n as real, Square(g)) == 0.0 <==> g == 0.0
  {
    SquarePositive(g);
    if g != 0.0 {
      ProductPositive(n as real, Square(g), Prod(n as real, Square(g)));
    }
  }

  /** In the original units the model is the unique minimiser, over every intercept and all coefficients. */
  lemma RawOptimal(
    X: RMat, Y: RVec, penalty: real, betaZ: RVec, n: nat, d: nat, sq: real -> real, s: RVec, c: real, b: RVec)
    requires n > 1 && IsSqrt(sq) && penalty > 0.0
    requires SolvesNormal(Standardised(X, n, sq), Centred(Y, n), penalty, betaZ, n, d)
    requires forall j | 0 <= j < d :: s(j) == ScaleOf(ColVec(X, j), n, sq)
    ensures var m := BuildModel(X, Y, betaZ, n, d, sq);
            var best, other := RawLoss(X, Y, penalty, s, m.intercept, m.coefficients, n, d),
                               RawLoss(X, Y, penalty, s, c, b, n, d);
            && best <= other
            && (best == other <==> c == m.intercept && forall j | 0 <= j < d :: b(j) == m.coefficients(j))
  {
    hide Loss;
    hide RawLoss;
    hide SolvesNormal;
    hide Standardised;
    hide Centred;
    hide ScaleOf;
    hide Offset;
    hide Prod;
    hide Square;
    hide ToStandard;
    hide BuildModel;
    var m, Z, yc := BuildModel(X, Y, betaZ, n, d, sq), Standardised(X, n, sq), Centred(Y, n);
    RawLossSplit(X, Y, penalty, s, m.intercept, m.coefficients, n, d, sq);
    RawLossSplit(X, Y, penalty, s, c, b, n, d, sq);
    FittedOffset(X, Y, betaZ, n, d, sq, c, b);
    FittedStandard(X, Y, betaZ, n, d, sq, s, b);
    SquareZero(n, 0.0);
    SquareZero(n, Offset(X, Y, c, b, n, d));
    SameLoss(Z, yc, penalty, betaZ, ToStandard(s, m.coefficients), n, d);
    UniqueMinimiser(Z, yc, penalty, betaZ, ToStandard(s, b), n, d);
  }

  /** The sample standard deviation of each column, or 1 where it is at most 1e-12. */
  ghost predicate AreScales(X: RMat, s: RVec, n: int, d: int, sq: real -> real)
  {
    n > 1 && forall j | 0 <= j < d ::
      var mean := Sum(i => X(i, j), n) / n as real;
      var std := sq(SqSum(k => X(k, j) - mean, n) / (n - 1) as real);
      s(j) == if std > 0.000000000001 then std else 1.0
  }

  /**
   fit_ridge in the original units: its intercept and coefficients are the unique minimiser of the squared
   errors plus the penalty on each coefficient times its column's scale, the sample standard deviation or 1.
   */
  lemma FitRidgeOriginal(
    x: seq<seq<Float>>, y: seq<Float>, d: nat, penalty: Float, sq: real -> real, solve: (RMat, RVec) -> Result<RVec>,
    X: RMat, Y: RVec, s: RVec, c: real, b: RVec)
    requires IsSqrt(sq) && (forall row | row in x :: |row| == d) && Lawful(x, y, d, penalty, sq, solve)
    requires FitRidge(x, y, d, penalty, sq, solve).Ok?
    requires forall i | 0 <= i < |x| :: y[i] == Finite(Y(i)) && forall j | 0 <= j < d :: x[i][j] == Finite(X(i, j))
    requires AreScales(X, s, |x|, d, sq)
    ensures var n, m := |x|, FitRidge(x, y, d, penalty, sq, solve).value;
            var best, other := RawLoss(X, Y, penalty.r, s, m.intercept, m.coefficients, n, d),
                               RawLoss(X, Y, penalty.r, s, c, b, n, d);
            && best <= other
            && (best == other <==> c == m.intercept && forall j | 0 <= j < d :: b(j) == m.coefficients(j))
  {
    hide Standardised;
    hide Centred;
    hide Lawful;
    hide SolvesNormal;
    hide ScaleOf;
    hide RawLoss;
    hide BuildModel;
    hide FitRidge;
    hide Prod;
    hide AreScales;
    var n, X', Y' := |x|, CellValue(x), EntryValue(y);
    var betaZ := FitIs(x, y, d, penalty, sq, solve);
    forall i | 0 <= i < n ensures Y'(i) == Y(i) && forall j | 0 <= j < d :: X'(i, j) == X(i, j) {
      assert x[i] in x;
    }
    ScalesExt(X', X, s, n, d, sq);
    hide CellValue;
    hide EntryValue;
    var m := BuildModel(X', Y', betaZ, n, d, sq);
    RawOptimal(X', Y', penalty.r, betaZ, n, d, sq, s, c, b);
    RawExt(X', Y', X, Y, penalty.r, s, c, b, n, d);
    RawExt(X', Y', X, Y, penalty.r, s, m.intercept, m.coefficients, n, d);
  }

  /** A fit is built from a solution of the normal equations. */
  lemma FitIs(
    x: seq<seq<Float>>, y: seq<Float>, d: nat, penalty: Float, sq: real -> real, solve: (RMat, RVec) -> Result<RVec>)
    returns (betaZ: RVec)
    requires (forall row | row in x :: |row| == d) && Lawful(x, y, d, penalty, sq, solve)
    requires FitRidge(x, y, d, penalty, sq, solve).Ok?
    ensures |x| == |y| >= 2 && penalty.Finite? && penalty.r > 0.0
    ensures SolvesNormal(Standardised(CellValue(x), |x|, sq), Centred(EntryValue(y), |x|), penalty.r, betaZ, |x|, d)
    ensures FitRidge(x, y, d, penalty, sq, solve)
         == Ok(BuildModel(CellValue(x), EntryValue(y), betaZ, |x|, d, sq))
  {
    hide Standardised;
    hide Centred;
    hide Lawful;
    hide SolvesNormal;
    hide BuildModel;
    hide NormalMatrix;
    hide Back;
    SolverSolves(x, y, d, penalty, sq, solve);
    var n, X', Y' := |x|, CellValue(x), EntryValue(y);
    betaZ := solve(NormalMatrix(Standardised(X', n, sq), penalty.r, n),
                   Back(Standardised(X', n, sq), Centred(Y', n), n)).value;
  }

  lemma ScalesExt(X': RMat, X: RMat, s: RVec, n: nat, d: nat, sq: real -> real)
    requires AreScales(X, s, n, d, sq) && forall i, j | 0 <= i < n && 0 <= j < d :: X'(i, j) == X(i, j)
    ensures forall j | 0 <= j < d :: s(j) == ScaleOf(ColVec(X', j), n, sq)
  {
    forall j | 0 <= j < d ensures s(j) == ScaleOf(ColVec(X', j), n, sq) {
      ScaleExt(X', X, j, n, sq);
    }
  }

  lemma ScaleExt(X': RMat, X: RMat, j: int, n: nat, sq: real -> real)
    requires n > 1 && forall i | 0 <= i < n :: X'(i, j) == X(i, j)
    ensures var mean := Sum(i => X(i, j), n) / n as real;
            var std := sq(SqSum(k => X(k, j) - mean, n) / (n - 1) as real);
            ScaleOf(ColVec(X', j), n, sq) == if std > 0.000000000001 then std else 1.0
  {
    var mean := Sum(i => X(i, j), n) / n as real;
    var f, g := Centred(ColVec(X', j), n), k => X(k, j) - mean;
    SumExt(ColVec(X', j), i => X(i, j), n);
    forall k | 0 <= k < n ensures SquareTerms(f)(k) == SquareTerms(g)(k) {
      assert f(k) == g(k);
    }
    SumExt(SquareTerms(f), SquareTerms(g), n);
  }

  lemma RawExt(
    X': RMat, Y': RVec, X: RMat, Y: RVec, penalty: real, s: RVec, c: real, b: RVec, n: nat, d: nat)
    requires forall i | 0 <= i < n :: Y'(i) == Y(i) && forall j | 0 <= j < d :: X'(i, j) == X(i, j)
    ensures RawLoss(X', Y', penalty, s, c, b, n, d) == RawLoss(X, Y, penalty, s, c, b, n, d)
  {
    hide Square;
    forall i | 0 <= i < n
      ensures RawResidual(X', Y', c, b, d)(i) == RawResidual(X, Y, c, b, d)(i)
    {
      assert Y'(i) == Y(i);
      InnerComm(RowVec(X', i), b, d);
      InnerComm(RowVec(X, i), b, d);
      InnerExt(b, RowVec(X', i), RowVec(X, i), d);
    }
    hide RawResidual;
    SumExt(i => Square(RawResidual(X', Y', c, b, d)(i)), i => Square(RawResidual(X, Y, c, b, d)(i)), n);
  }
}
