/**
 What an accepted inverse covariance guarantees about the Mahalanobis score of
 pkg/planner/planner.go, validateOOD.
 */
module OodForm {
  import opened Floats
  import opened Sums
  import opened Complexes
  import opened Cholesky
  import opened PivotForms
  import opened OodGate

  function Triple(x: real, b: real, y: real): real { x * b * y }

  function ScoreTerms(a: RMat, d: RVec, i: int): RVec { j => Triple(d(i), a(i, j), d(j)) }

  function ScoreRows(a: RMat, d: RVec, n: int): RVec { i => Sum(ScoreTerms(a, d, i), n) }

  /** sum_i sum_j d_i a_ij d_j. */
  function Score(a: RMat, d: RVec, n: int): real { Sum(ScoreRows(a, d, n), n) }

  function Lift(d: RVec): Vec { i => C(d(i), 0.0) }

  ghost predicate Symmetric(a: RMat, n: int)
  {
    forall i, j | 0 <= i < n && 0 <= j < n :: a(i, j) == a(j, i)
  }

  function Weighted(a: RMat, d: RVec, i: int): RVec { j => a(i, j) * d(j) }

  lemma ProductAssoc(x: real, y: real, z: real)
    ensures Triple(x, y, z) == x * (y * z)
  {}

  lemma RowIsReal(a: RMat, d: RVec, i: int, n: int)
    ensures Row(LiftM(a), i, Lift(d), n) == C(Sum(Weighted(a, d, i), n), 0.0)
    ensures ScoreRows(a, d, n)(i) == d(i) * Sum(Weighted(a, d, i), n)
  {
    hide Times;
    var terms := RowTerms(LiftM(a), i, Lift(d));
    forall j: int
      ensures terms(j) == C(Weighted(a, d, i)(j), 0.0)
      ensures ScoreTerms(a, d, i)(j) == d(i) * Weighted(a, d, i)(j)
    {
      RealTimes(a(i, j), d(j));
      ProductAssoc(d(i), a(i, j), d(j));
      assert terms(j) == Times(LiftM(a)(i, j), Lift(d)(j));
    }
    SumExt(Re(terms), Weighted(a, d, i), n);
    SumZero(Im(terms), n);
    SumScale(d(i), Weighted(a, d, i), ScoreTerms(a, d, i), n);
  }

  /** The score is the Hermitian form of the embedded real matrix. */
  lemma ScoreIsForm(a: RMat, d: RVec, n: int)
    ensures Form(LiftM(a), Lift(d), n) == C(Score(a, d, n), 0.0)
  {
    hide Times;
    hide Row;
    var terms := DotTerms(Lift(d), Apply(LiftM(a), Lift(d), n));
    forall i: int
      ensures terms(i) == C(ScoreRows(a, d, n)(i), 0.0)
    {
      RowIsReal(a, d, i, n);
      RealTimes(d(i), Sum(Weighted(a, d, i), n));
      ConjReal(Lift(d)(i));
      assert terms(i) == Times(Conj(Lift(d)(i)), Row(LiftM(a), i, Lift(d), n));
    }
    SumExt(Re(terms), ScoreRows(a, d, n), n);
    SumZero(Im(terms), n);
  }

  /** The matrix entries two matrices differ in are all that their scores can differ by. */
  lemma ScoreMatrixExt(a: RMat, b: RMat, d: RVec, n: int)
    requires forall i, j | 0 <= i < n && 0 <= j < n :: a(i, j) == b(i, j)
    ensures Score(a, d, n) == Score(b, d, n)
  {
    forall i | 0 <= i < n
      ensures ScoreRows(a, d, n)(i) == ScoreRows(b, d, n)(i)
    {
      SumExt(ScoreTerms(a, d, i), ScoreTerms(b, d, i), n);
    }
    SumExt(ScoreRows(a, d, n), ScoreRows(b, d, n), n);
  }

  lemma ScoreExt(a: RMat, u: RVec, v: RVec, n: int)
    requires forall i | 0 <= i < n :: u(i) == v(i)
    ensures Score(a, u, n) == Score(a, v, n)
  {
    forall i | 0 <= i < n
      ensures ScoreRows(a, u, n)(i) == ScoreRows(a, v, n)(i)
    {
      SumExt(ScoreTerms(a, u, i), ScoreTerms(a, v, i), n);
    }
    SumExt(ScoreRows(a, u, n), ScoreRows(a, v, n), n);
  }

  // ----- the symmetric matrix that the gate certifies

  /** The gate only reads the lower triangle; this is the symmetric matrix it certifies. */
  function LowerSymmetric(a: RMat): RMat { (i, j) => if j <= i then a(i, j) else a(j, i) }

  lemma LowerForm(a: RMat, d: RVec, n: int)
    ensures Form(Hermitian(LiftM(a)), Lift(d), n) == C(Score(LowerSymmetric(a), d, n), 0.0)
  {
    hide Form;
    hide Score;
    forall i, j
      ensures Hermitian(LiftM(a))(i, j) == LiftM(LowerSymmetric(a))(i, j)
    {
      ConjReal(LiftM(a)(j, i));
    }
    FormExt(Hermitian(LiftM(a)), LiftM(LowerSymmetric(a)), Lift(d), n);
    ScoreIsForm(LowerSymmetric(a), d, n);
  }

  /** Component k of L^T d. */
  function Projected(a: RMat, sq: real -> real, d: RVec, n: int): Vec { Adjoint(Factor(LiftM(a), sq), Lift(d), n) }

  lemma LowerScoreIsNorm(a: RMat, sq: real -> real, d: RVec, n: int)
    requires IsSqrt(sq) && n >= 0 && PositivePivots(LiftM(a), sq, n)
    ensures Score(LowerSymmetric(a), d, n) == Norm2(Projected(a, sq, d, n), n) >= 0.0
  {
    hide Form;
    hide Norm2;
    hide Score;
    FormIsNorm(LiftM(a), sq, Lift(d), n);
    LowerForm(a, d, n);
    Norm2Bound(Projected(a, sq, d, n), n);
  }

  /** On an exactly symmetric matrix the score is |L^T d|^2. */
  lemma ScoreIsNorm(a: RMat, sq: real -> real, d: RVec, n: int)
    requires IsSqrt(sq) && n >= 0 && Symmetric(a, n) && PositivePivots(LiftM(a), sq, n)
    ensures Score(a, d, n) == Norm2(Projected(a, sq, d, n), n)
  {
    hide Norm2;
    hide Score;
    LowerScoreIsNorm(a, sq, d, n);
    ScoreMatrixExt(a, LowerSymmetric(a), d, n);
  }

  // ----- the exact acceptance condition

  /** Vectors supported on 0..j with component j equal to one. */
  ghost predicate UnitAt(d: RVec, j: int, n: int)
  {
    0 <= j < n && d(j) == 1.0 && forall i | j < i < n :: d(i) == 0.0
  }

  ghost predicate FormAbove(a: RMat, tolerance: real, n: int)
  {
    forall d, j | UnitAt(d, j, n) :: Score(a, d, n) > tolerance
  }

  lemma TripleZero(x: real, y: real, z: real)
    requires x == 0.0 || z == 0.0
    ensures Triple(x, y, z) == 0.0
  {}

  lemma ScoreTail(a: RMat, d: RVec, j: int, n: int)
    requires UnitAt(d, j, n)
    ensures Score(a, d, n) == Score(a, d, j + 1)
  {
    forall i | 0 <= i < n
      ensures ScoreRows(a, d, n)(i) == ScoreRows(a, d, j + 1)(i)
      ensures i > j ==> ScoreRows(a, d, n)(i) == 0.0
    {
      hide Triple;
      forall k | 0 <= k < n && (i > j || k > j)
        ensures ScoreTerms(a, d, i)(k) == 0.0
      {
        assert ScoreTerms(a, d, i)(k) == Triple(d(i), a(i, k), d(k));
        TripleZero(d(i), a(i, k), d(k));
      }
      SumTail(ScoreTerms(a, d, i), j + 1, n);
      if i > j {
        SumZero(ScoreTerms(a, d, i), n);
      }
    }
    SumTail(ScoreRows(a, d, n), j + 1, n);
    SumExt(ScoreRows(a, d, n), ScoreRows(a, d, j + 1), j + 1);
  }

  lemma UnitForms(a: RMat, d: RVec, j: int, n: int)
    requires UnitAt(d, j, n)
    ensures Form(Hermitian(LiftM(a)), Lift(d), j + 1) == C(Score(LowerSymmetric(a), d, n), 0.0)
  {
    hide Form;
    hide Score;
    ScoreTail(LowerSymmetric(a), d, j, n);
    LowerForm(a, d, j + 1);
  }

  lemma PivotsGiveForm(a: RMat, sq: real -> real, tolerance: real, n: int)
    requires IsSqrt(sq) && tolerance >= 0.0 && PivotsAbove(LiftM(a), sq, tolerance, n)
    ensures FormAbove(LowerSymmetric(a), tolerance, n)
  {
    hide Form;
    hide Score;
    hide Pivot;
    forall d, j | UnitAt(d, j, n)
      ensures Score(LowerSymmetric(a), d, n) > tolerance
    {
      UnitForms(a, d, j, n);
      assert Lift(d)(j) == ONE;
      UnitForm(LiftM(a), sq, j, Lift(d));
    }
  }

  lemma {:induction false} RealBackward(M: Mat, y: Vec, n: int, i: int)
    requires forall r, c :: M(r, c).im == 0.0
    requires forall k :: y(k).im == 0.0
    ensures Backward(M, y, n, i).im == 0.0
    decreases n - i, 1
  {
    if 0 <= i < n {
      RealBackwardAcc(M, y, n, i, n);
    }
  }

  lemma {:induction false} RealBackwardAcc(M: Mat, y: Vec, n: int, i: int, m: int)
    requires forall r, c :: M(r, c).im == 0.0
    requires forall k :: y(k).im == 0.0
    requires 0 <= i < m <= n
    ensures BackwardAcc(M, y, n, i, m).im == 0.0
    decreases n - i, 0, m
  {
    hide Backward;
    if m > i + 1 {
      RealBackwardAcc(M, y, n, i, m - 1);
      RealBackward(M, y, n, m - 1);
    }
  }

  /** On a real matrix the pivot witness is real. */
  lemma RealWitness(a: RMat, sq: real -> real, j: int, i: int)
    ensures Witness(LiftM(a), sq, j)(i).im == 0.0
  {
    hide L;
    hide Backward;
    var M := Factor(LiftM(a), sq);
    forall r, c
      ensures M(r, c).im == 0.0
    {
      RealFactor(a, sq, r, c);
    }
    RealBackward(M, NegConjRow(M, j), j, i);
  }

  function RealPart(x: Vec, j: int): RVec { i => if i <= j then x(i).re else 0.0 }

  lemma FormVecExt(A: Mat, x: Vec, y: Vec, n: int)
    requires forall i | 0 <= i < n :: x(i) == y(i)
    ensures Form(A, x, n) == Form(A, y, n)
  {
    hide Times;
    hide CSum;
    forall i | 0 <= i < n
      ensures DotTerms(x, Apply(A, x, n))(i) == DotTerms(y, Apply(A, y, n))(i)
    {
      forall j | 0 <= j < n
        ensures RowTerms(A, i, x)(j) == RowTerms(A, i, y)(j)
      {
        assert RowTerms(A, i, x)(j) == Times(A(i, j), x(j));
        assert RowTerms(A, i, y)(j) == Times(A(i, j), y(j));
      }
      CSumExt(RowTerms(A, i, x), RowTerms(A, i, y), n);
      assert DotTerms(x, Apply(A, x, n))(i) == Times(Conj(x(i)), Row(A, i, x, n));
      assert DotTerms(y, Apply(A, y, n))(i) == Times(Conj(y(i)), Row(A, i, y, n));
    }
    CSumExt(DotTerms(x, Apply(A, x, n)), DotTerms(y, Apply(A, y, n)), n);
  }

  lemma {:induction false} FormGivesPivots(a: RMat, sq: real -> real, tolerance: real, n: int, m: int)
    requires IsSqrt(sq) && tolerance >= 0.0 && FormAbove(LowerSymmetric(a), tolerance, n) && m <= n
    ensures PivotsAbove(LiftM(a), sq, tolerance, m)
    decreases m
  {
    hide Form;
    hide Score;
    hide Pivot;
    hide Backward;
    if m > 0 {
      var j := m - 1;
      FormGivesPivots(a, sq, tolerance, n, j);
      PivotWitness(LiftM(a), sq, j);
      var x := Witness(LiftM(a), sq, j);
      var d := RealPart(x, j);
      assert UnitAt(d, j, n);
      UnitForms(a, d, j, n);
      forall i | 0 <= i < m
        ensures x(i) == Lift(d)(i)
      {
        RealWitness(a, sq, j, i);
      }
      FormVecExt(Hermitian(LiftM(a)), x, Lift(d), m);
    }
  }

  lemma ExactSymmetry(a: seq<seq<Float>>, tolerance: real)
    requires tolerance > 0.0 && IsSquare(a)
    requires forall i, j | 0 <= i < |a| && 0 <= j < |a| :: a[i][j].Finite?
    requires Symmetric(Entry(a), |a|)
    ensures NearlySymmetric(a, tolerance)
  {
    forall i, j | 0 <= i < |a| && 0 <= j < |a|
      ensures !Asymmetric(a[i][j], a[j][i], tolerance)
    {
      assert Entry(a)(i, j) == Entry(a)(j, i);
      var m := MaxOf(1.0, MaxOf(Abs(a[i][j].r), Abs(a[j][i].r)));
      ProductPositive(tolerance, m, tolerance * m);
    }
  }

  /**
   The exact acceptance condition, for every matrix: it is finite, square and nearly symmetric, and
   the form of its lower triangle exceeds the tolerance on every vector whose last non-zero component is 1.
   */
  lemma AcceptedIff(a: seq<seq<Float>>, tolerance: real, sq: real -> real)
    requires IsSqrt(sq) && tolerance > 0.0
    ensures Accepted(a, tolerance, sq)
       <==> |a| > 0 && NearlySymmetric(a, tolerance) && FormAbove(LowerSymmetric(Entry(a)), tolerance, |a|)
  {
    hide PivotsAbove;
    hide FormAbove;
    hide NearlySymmetric;
    if PivotsAbove(LiftM(Entry(a)), sq, tolerance, |a|) {
      PivotsGiveForm(Entry(a), sq, tolerance, |a|);
    }
    if FormAbove(LowerSymmetric(Entry(a)), tolerance, |a|) {
      FormGivesPivots(Entry(a), sq, tolerance, |a|, |a|);
    }
  }

  lemma LowerTerm(a: seq<seq<Float>>, d: RVec, F: (int, int) -> real, i: int, j: int)
    requires IsSquare(a) && 0 <= i < |a| && 0 <= j < |a| && a[i][j].Finite? && a[j][i].Finite?
    requires F(i, j) == Triple(d(i), if j <= i then a[i][j].r else a[j][i].r, d(j))
    ensures ScoreTerms(LowerSymmetric(Entry(a)), d, i)(j) == F(i, j)
  {
    hide Triple;
    assert LowerSymmetric(Entry(a))(i, j) == if j <= i then a[i][j].r else a[j][i].r;
  }

  /** That form, written out: each pair of positions takes its entry on or below the diagonal. */
  lemma LowerScoreIsSum(a: seq<seq<Float>>, d: RVec, F: (int, int) -> real)
    requires IsSquare(a) && forall i, j | 0 <= i < |a| && 0 <= j < |a| :: a[i][j].Finite?
    requires forall i, j | 0 <= i < |a| && 0 <= j < |a| ::
               F(i, j) == Triple(d(i), if j <= i then a[i][j].r else a[j][i].r, d(j))
    ensures Score(LowerSymmetric(Entry(a)), d, |a|) == Sum(i => Sum(j => F(i, j), |a|), |a|)
  {
    hide Triple;
    hide LowerSymmetric;
    var n, low := |a|, LowerSymmetric(Entry(a));
    forall i | 0 <= i < n ensures ScoreRows(low, d, n)(i) == Sum(j => F(i, j), n) {
      forall j | 0 <= j < n ensures ScoreTerms(low, d, i)(j) == F(i, j) {
        LowerTerm(a, d, F, i, j);
      }
      SumExt(ScoreTerms(low, d, i), j => F(i, j), n);
    }
    SumExt(ScoreRows(low, d, n), i => Sum(j => F(i, j), n), n);
  }

  /** On finite, exactly symmetric matrices it is a condition on the score itself. */
  lemma AcceptedIffFormAbove(a: seq<seq<Float>>, tolerance: real, sq: real -> real)
    requires IsSqrt(sq) && tolerance > 0.0 && IsSquare(a)
    requires forall i, j | 0 <= i < |a| && 0 <= j < |a| :: a[i][j].Finite?
    requires Symmetric(Entry(a), |a|)
    ensures Accepted(a, tolerance, sq) <==> |a| > 0 && FormAbove(Entry(a), tolerance, |a|)
  {
    hide Score;
    ExactSymmetry(a, tolerance);
    AcceptedIff(a, tolerance, sq);
    forall d: RVec
      ensures Score(Entry(a), d, |a|) == Score(LowerSymmetric(Entry(a)), d, |a|)
    {
      ScoreMatrixExt(Entry(a), LowerSymmetric(Entry(a)), d, |a|);
    }
  }

  /** Completeness: a form above tolerance |d|^2 everywhere is accepted. */
  lemma GateComplete(a: seq<seq<Float>>, tolerance: real, sq: real -> real)
    requires IsSqrt(sq) && tolerance > 0.0 && IsSquare(a) && |a| > 0
    requires forall i, j | 0 <= i < |a| && 0 <= j < |a| :: a[i][j].Finite?
    requires Symmetric(Entry(a), |a|)
    requires forall d: RVec | (exists p :: 0 <= p < |a| && d(p) != 0.0) ::
               Score(Entry(a), d, |a|) > tolerance * Sum(SquareTerms(d), |a|)
    ensures Accepted(a, tolerance, sq)
  {
    hide Score;
    forall d, j | UnitAt(d, j, |a|)
      ensures Score(Entry(a), d, |a|) > tolerance
    {
      var s := Sum(SquareTerms(d), |a|);
      UnitNorm(d, j, |a|);
      ProductMonoRight(tolerance, s, tolerance * s);
    }
    AcceptedIffFormAbove(a, tolerance, sq);
  }

  lemma UnitNorm(d: RVec, j: int, n: int)
    requires 0 <= j < n && d(j) == 1.0
    ensures Sum(SquareTerms(d), n) >= 1.0
  {
    forall i: int
      ensures SquareTerms(d)(i) >= 0.0
    {
      SquarePositive(d(i));
    }
    SumTermBound(SquareTerms(d), j, n);
    assert SquareTerms(d)(j) == 1.0;
  }

  lemma ProductMonoRight(a: real, b: real, p: real)
    requires p == a * b && a > 0.0 && b >= 1.0
    ensures p >= a
  {}

  // ----- nearly symmetric matrices

  /** The allowed asymmetry times |d_i| |d_j|, for each pair above the diagonal. */
  function SlackTerms(a: RMat, tolerance: real, d: RVec, i: int): RVec
  {
    j => if i < j then Band(a(i, j), a(j, i), tolerance) * (Abs(d(i)) * Abs(d(j))) else 0.0
  }

  function SlackRows(a: RMat, tolerance: real, d: RVec, n: int): RVec { i => Sum(SlackTerms(a, tolerance, d, i), n) }

  function Slack(a: RMat, tolerance: real, d: RVec, n: int): real { Sum(SlackRows(a, tolerance, d, n), n) }

  lemma SlackTerm(x: real, b: real, c: real, y: real, E: real)
    requires Abs(b - c) <= E
    ensures Triple(x, b, y) >= Triple(x, c, y) - E * (Abs(x) * Abs(y))
  {}

  ghost predicate NearSymmetric(a: RMat, tolerance: real, n: int)
  {
    forall i, j | 0 <= i < n && 0 <= j < n ::
      Abs(a(i, j) - a(j, i)) <= Band(a(i, j), a(j, i), tolerance)
  }

  lemma SumLowerBound(f: RVec, g: RVec, e: RVec, n: int)
    requires forall k | 0 <= k < n :: f(k) >= g(k) - e(k)
    ensures Sum(f, n) >= Sum(g, n) - Sum(e, n)
  {}

  /** An accepted, nearly symmetric matrix scores at least |L^T d|^2 less the asymmetry slack. */
  lemma NearScoreBound(a: RMat, sq: real -> real, tolerance: real, d: RVec, n: int)
    requires IsSqrt(sq) && n >= 0 && PositivePivots(LiftM(a), sq, n) && NearSymmetric(a, tolerance, n)
    ensures Score(a, d, n) >= Norm2(Projected(a, sq, d, n), n) - Slack(a, tolerance, d, n)
  {
    hide Norm2;
    hide PositivePivots;
    LowerScoreIsNorm(a, sq, d, n);
    var low := LowerSymmetric(a);
    forall i | 0 <= i < n
      ensures ScoreRows(a, d, n)(i) >= ScoreRows(low, d, n)(i) - SlackRows(a, tolerance, d, n)(i)
    {
      forall j | 0 <= j < n
        ensures ScoreTerms(a, d, i)(j) >= ScoreTerms(low, d, i)(j) - SlackTerms(a, tolerance, d, i)(j)
      {
        NearTerm(a, tolerance, d, i, j, n);
      }
      SumLowerBound(ScoreTerms(a, d, i), ScoreTerms(low, d, i), SlackTerms(a, tolerance, d, i), n);
    }
    SumLowerBound(ScoreRows(a, d, n), ScoreRows(low, d, n), SlackRows(a, tolerance, d, n), n);
  }

  lemma NearTerm(a: RMat, tolerance: real, d: RVec, i: int, j: int, n: int)
    requires NearSymmetric(a, tolerance, n) && 0 <= i < n && 0 <= j < n
    ensures ScoreTerms(a, d, i)(j) >= ScoreTerms(LowerSymmetric(a), d, i)(j) - SlackTerms(a, tolerance, d, i)(j)
  {
    hide Band;
    hide Abs;
    if i < j {
      SlackTerm(d(i), a(i, j), a(j, i), d(j), Band(a(i, j), a(j, i), tolerance));
    }
  }

  lemma AcceptedIsNear(a: seq<seq<Float>>, tolerance: real, sq: real -> real)
    requires Accepted(a, tolerance, sq) && tolerance > 0.0
    ensures NearSymmetric(Entry(a), tolerance, |a|) && PositivePivots(LiftM(Entry(a)), sq, |a|)
  {}

  // ----- when scores are positive

  /** The symmetric part, which is all that scores depend on. */
  function Symm(a: RMat): RMat { (i, j) => (a(i, j) + a(j, i)) / 2.0 }

  function Flip(a: RMat): RMat { (i, j) => a(j, i) }

  lemma TripleFlip(x: real, b: real, y: real)
    ensures Triple(x, b, y) == Triple(y, b, x)
  {}

  lemma TripleMean(x: real, b: real, c: real, y: real)
    ensures Triple(x, (b + c) / 2.0, y) == 0.5 * (Triple(x, b, y) + Triple(x, c, y))
  {
    var m := (b + c) / 2.0;
    assert b + c == m + m;
    assert x * (b + c) * y == x * b * y + x * c * y;
  }

  lemma ScoreFlip(a: RMat, d: RVec, n: int)
    ensures Score(Flip(a), d, n) == Score(a, d, n)
  {
    hide Triple;
    var F := (i: int, k: int) => Triple(d(i), a(i, k), d(k));
    forall i
      ensures ScoreRows(a, d, n)(i) == Sum(k => F(i, k), n)
      ensures ScoreRows(Flip(a), d, n)(i) == Sum(k => F(k, i), n)
    {
      forall k | 0 <= k < n
        ensures ScoreTerms(Flip(a), d, i)(k) == F(k, i)
      {
        TripleFlip(d(i), a(k, i), d(k));
      }
      SumExt(ScoreTerms(a, d, i), k => F(i, k), n);
      SumExt(ScoreTerms(Flip(a), d, i), k => F(k, i), n);
    }
    SumSwap(F, ScoreRows(a, d, n), ScoreRows(Flip(a), d, n), n, n);
  }

  lemma SumMean(f: RVec, g: RVec, h: RVec, n: int)
    requires forall k | 0 <= k < n :: h(k) == 0.5 * (f(k) + g(k))
    ensures Sum(h, n) == 0.5 * (Sum(f, n) + Sum(g, n))
  {
    var s := (k: int) => f(k) + g(k);
    SumAdd(f, g, s, n);
    SumScale(0.5, s, h, n);
  }

  /** A matrix and its symmetric part give the same scores. */
  lemma ScoreSymm(a: RMat, d: RVec, n: int)
    ensures Score(Symm(a), d, n) == Score(a, d, n)
  {
    hide Triple;
    forall i | 0 <= i < n
      ensures ScoreRows(Symm(a), d, n)(i) == 0.5 * (ScoreRows(a, d, n)(i) + ScoreRows(Flip(a), d, n)(i))
    {
      forall j | 0 <= j < n
        ensures ScoreTerms(Symm(a), d, i)(j) == 0.5 * (ScoreTerms(a, d, i)(j) + ScoreTerms(Flip(a), d, i)(j))
      {
        TripleMean(d(i), a(i, j), a(j, i), d(j));
      }
      SumMean(ScoreTerms(a, d, i), ScoreTerms(Flip(a), d, i), ScoreTerms(Symm(a), d, i), n);
    }
    SumMean(ScoreRows(a, d, n), ScoreRows(Flip(a), d, n), ScoreRows(Symm(a), d, n), n);
    ScoreFlip(a, d, n);
  }

  lemma LowerOfSymm(a: RMat, d: RVec, n: int)
    ensures Score(LowerSymmetric(Symm(a)), d, n) == Score(a, d, n)
  {
    hide Score;
    ScoreMatrixExt(LowerSymmetric(Symm(a)), Symm(a), d, n);
    ScoreSymm(a, d, n);
  }

  /** The symmetric part has positive pivots: the gate's own test, at tolerance zero, on the symmetric part. */
  ghost predicate Definite(a: RMat, sq: real -> real, n: int) { PositivePivots(LiftM(Symm(a)), sq, n) }

  ghost predicate PositiveScores(a: RMat, n: int)
  {
    forall d: RVec, p | 0 <= p < n && d(p) != 0.0 :: Score(a, d, n) > 0.0
  }

  /** The score is the squared norm of the factor of the symmetric part applied to the deviation. */
  lemma DefiniteScoreIsNorm(a: RMat, sq: real -> real, d: RVec, n: int)
    requires IsSqrt(sq) && n >= 0 && Definite(a, sq, n)
    ensures Score(a, d, n) == Norm2(Projected(Symm(a), sq, d, n), n) >= 0.0
  {
    hide Norm2;
    hide Score;
    hide PositivePivots;
    LowerScoreIsNorm(Symm(a), sq, d, n);
    LowerOfSymm(a, d, n);
  }

  /** With a definite symmetric part the score is positive away from the mean. */
  lemma ScorePositive(a: RMat, sq: real -> real, d: RVec, n: int, p: int)
    requires IsSqrt(sq) && Definite(a, sq, n)
    requires 0 <= p < n && d(p) != 0.0
    ensures Score(a, d, n) > 0.0
  {
    hide Form;
    hide Score;
    hide PositivePivots;
    FormDefinite(LiftM(Symm(a)), sq, Lift(d), n, p);
    LowerForm(Symm(a), d, n);
    LowerOfSymm(a, d, n);
  }

  /** The exact condition, for every matrix, symmetric or not. */
  lemma PositiveIffDefinite(a: RMat, sq: real -> real, n: int)
    requires IsSqrt(sq)
    ensures PositiveScores(a, n) <==> Definite(a, sq, n)
  {
    hide Score;
    hide Pivot;
    if Definite(a, sq, n) {
      forall d: RVec, p | 0 <= p < n && d(p) != 0.0 ensures Score(a, d, n) > 0.0 {
        ScorePositive(a, sq, d, n, p);
      }
    }
    if PositiveScores(a, n) {
      forall d, j | UnitAt(d, j, n) ensures Score(LowerSymmetric(Symm(a)), d, n) > 0.0 {
        LowerOfSymm(a, d, n);
      }
      FormGivesPivots(Symm(a), sq, 0.0, n, n);
    }
  }

  /** On an exactly symmetric matrix the gate's own pivots decide. */
  lemma SymmetricDefiniteIff(a: RMat, sq: real -> real, n: int)
    requires IsSqrt(sq) && Symmetric(a, n)
    ensures Definite(a, sq, n) <==> PositivePivots(LiftM(a), sq, n)
  {
    hide Score;
    hide Pivot;
    if PositivePivots(LiftM(a), sq, n) {
      hide Form;
      forall d: RVec, p | 0 <= p < n && d(p) != 0.0 ensures Score(a, d, n) > 0.0 {
        FormDefinite(LiftM(a), sq, Lift(d), n, p);
        LowerForm(a, d, n);
        ScoreMatrixExt(a, LowerSymmetric(a), d, n);
      }
      PositiveIffDefinite(a, sq, n);
    }
    if Definite(a, sq, n) {
      PositiveIffDefinite(a, sq, n);
      forall d, j | UnitAt(d, j, n) ensures Score(LowerSymmetric(a), d, n) > 0.0 {
        ScoreMatrixExt(a, LowerSymmetric(a), d, n);
      }
      FormGivesPivots(a, sq, 0.0, n, n);
    }
  }
}
