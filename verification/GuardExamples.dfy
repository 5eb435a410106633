/** Guards that the matrix gate accepts although their matrices are not exactly symmetric. */
module GuardExamples {
  import opened Floats
  import opened Sums
  import opened Complexes
  import opened Cholesky
  import opened Reasons
  import opened Profiles
  import opened Planner
  import opened Evaluation
  import opened Admission
  import opened OodGate
  import opened OodForm
  import opened Semidefinite
  import opened GuardRegion

  // ----- nearly symmetric matrices of order two

  function Rows(b: real, c: real): seq<seq<Float>>
  {
    [[Finite(1000.0), Finite(b)], [Finite(c), Finite(1000.0)]]
  }

  function TwoGuard(b: real, c: real): Ood
  {
    Ood(true, ["input.x", "input.y"], [0.0, 0.0], [[1000.0, b], [c, 1000.0]], 1.0)
  }

  function At(x: real, y: real): map<string, real> { map["input.x" := x, "input.y" := y] }

  /** The tolerated asymmetry, and a second pivot above the tolerance. */
  predicate Tolerated(b: real, c: real)
  {
    1.0 <= c <= b && b - c <= TOLERANCE * b && c * c < 1000.0 * (1000.0 - TOLERANCE)
  }

  lemma TwoPivots(b: real, c: real, sq: real -> real)
    requires IsSqrt(sq)
    ensures Pivot(LiftM(Entry(Rows(b, c))), sq, 0, 0) == 1000.0
    ensures 1000.0 * Pivot(LiftM(Entry(Rows(b, c))), sq, 1, 1) == 1000.0 * 1000.0 - c * c
  {
    var a, s := Entry(Rows(b, c)), sq(1000.0);
    DiagonalEntry(a, sq, 0);
    EntryBelow(a, sq, 1, 0);
    ReducedStep(a, sq, 1, 1, 0);
    var q := Lr(a, sq, 1, 0);
    assert q == c / s && s * s == 1000.0;
    QuotientSquare(c, s, q);
  }

  lemma QuotientSquare(x: real, s: real, q: real)
    requires s > 0.0 && q == x / s
    ensures (q * q) * (s * s) == x * x
  {
    assert q * s == x;
    assert (q * q) * (s * s) == (q * s) * (q * s);
  }

  lemma NearlyRows(b: real, c: real)
    requires Tolerated(b, c) && b <= 2000.0
    ensures NearlySymmetric(Rows(b, c), TOLERANCE)
  {
    assert b == c || b > c;
    assert MaxOf(1.0, MaxOf(Abs(b), Abs(c))) == b && MaxOf(1.0, MaxOf(Abs(c), Abs(b))) == b;
    assert Abs(b - c) == Abs(c - b) == b - c;
  }

  lemma RowsOf(b: real, c: real)
    ensures FloatRows(TwoGuard(b, c).inverse) == Rows(b, c)
  {
    var o := TwoGuard(b, c);
    assert FloatRow(o.inverse[0]) == Rows(b, c)[0] && FloatRow(o.inverse[1]) == Rows(b, c)[1];
  }

  lemma TwoAccepted(b: real, c: real, sq: real -> real)
    requires IsSqrt(sq) && Tolerated(b, c) && b <= 2000.0
    ensures GateAccepts(TwoGuard(b, c), sq)
  {
    hide Pivot;
    hide NearlySymmetric;
    RowsOf(b, c);
    TwoPivots(b, c, sq);
    NearlyRows(b, c);
    assert |Rows(b, c)| == 2;
  }

  lemma SumOfTwo(f: RVec)
    ensures Sum(f, 2) == f(0) + f(1)
  {
    assert Sum(f, 1) == f(0);
  }

  lemma TripleScaled(x: real, b: real, y: real)
    ensures Triple(x, b, y) == b * (x * y)
  {}

  lemma TwoScores(b: real, c: real, d: RVec, x: real, y: real)
    requires d(0) == x && d(1) == y
    ensures Score(Inverse(TwoGuard(b, c)), d, 2)
         == 1000.0 * (x * x) + b * (x * y) + (c * (y * x) + 1000.0 * (y * y))
  {
    hide Triple;
    RowsOf(b, c);
    var a := Inverse(TwoGuard(b, c));
    assert a(0, 0) == a(1, 1) == 1000.0 && a(0, 1) == b && a(1, 0) == c;
    TripleScaled(x, 1000.0, x);
    TripleScaled(x, b, y);
    TripleScaled(y, c, x);
    TripleScaled(y, 1000.0, y);
    SumOfTwo(ScoreTerms(a, d, 0));
    SumOfTwo(ScoreTerms(a, d, 1));
    SumOfTwo(ScoreRows(a, d, 2));
  }

  lemma ScoreAt(b: real, c: real, x: real, y: real)
    ensures OodScore(TwoGuard(b, c), At(x, y)) == 1000.0 * (x * x) + b * (x * y) + (c * (y * x) + 1000.0 * (y * y))
  {
    hide Score;
    hide Inverse;
    var d := Delta(TwoGuard(b, c), At(x, y));
    assert d(0) == x && d(1) == y;
    TwoScores(b, c, d, x, y);
  }

  // ----- accepted and not sound

  function Tilted(): Ood { TwoGuard(1000.00000005, 999.9999999999) }

  lemma TiltedRegion()
    ensures var o := Tilted();
            && InDistribution(o, At(1.0, -0.99999)) && InDistribution(o, At(1.0, -1.00001))
            && !InDistribution(o, At(1.0, -1.0))
  {
    hide OodScore;
    ScoreAt(1000.00000005, 999.9999999999, 1.0, -1.0);
    ScoreAt(1000.00000005, 999.9999999999, 1.0, -0.99999);
    ScoreAt(1000.00000005, 999.9999999999, 1.0, -1.00001);
  }

  lemma TiltedReason()
    ensures OodReasons(Tilted(), At(1.0, -1.0)) == [Reason(InvalidOodScore, Path(OodField), PLAIN)]
  {
    hide OodScore;
    hide Path;
    ScoreAt(1000.00000005, 999.9999999999, 1.0, -1.0);
    NoneMissing(Tilted().features, At(1.0, -1.0));
  }

  /**
   Acceptance does not make a guard sound: this one passes the gate, scores (1, -1) negatively, and
   admits two feature maps but not the one halfway between them.
   */
  lemma AcceptedUnsound(sq: real -> real)
    requires IsSqrt(sq)
    ensures var o := Tilted();
            && GateAccepts(o, sq) && !SoundGuard(o, sq)
            && OodReasons(o, At(1.0, -1.0)) == [Reason(InvalidOodScore, Path(OodField), PLAIN)]
            && InDistribution(o, At(1.0, -0.99999)) && InDistribution(o, At(1.0, -1.00001))
            && !InDistribution(o, At(1.0, -1.0))
  {
    hide OodReasons;
    hide InDistribution;
    hide SemiDefinite;
    hide Accepted;
    hide Score;
    TiltedReason();
    TiltedRegion();
    TwoAccepted(1000.00000005, 999.9999999999, sq);
    TwoScores(1000.00000005, 999.9999999999, Opposed(), 1.0, -1.0);
    NonNegativeIffSemiDefinite(Inverse(Tilted()), sq, 2);
    assert Score(Inverse(Tilted()), Opposed(), 2) < 0.0;
  }

  function Opposed(): RVec { i => if i == 0 then 1.0 else -1.0 }

  // ----- accepted and sound, but not strict

  function Flat(): Ood { TwoGuard(1000.000000001, 999.999999999) }

  lemma FlatScore(d: RVec)
    ensures Score(Inverse(Flat()), d, 2) == 1000.0 * Square(d(0) + d(1))
  {
    hide Score;
    var x, y := d(0), d(1);
    TwoScores(1000.000000001, 999.999999999, d, x, y);
    assert Square(x + y) == x * x + 2.0 * (x * y) + y * y;
  }

  /** Soundness is more than strictness: this guard scores (1, -1) zero and nothing negatively. */
  lemma AcceptedFlat(sq: real -> real)
    requires IsSqrt(sq)
    ensures GateAccepts(Flat(), sq) && SoundGuard(Flat(), sq) && !StrictGuard(Flat(), sq)
  {
    hide Accepted;
    hide SemiDefinite;
    hide Definite;
    hide Score;
    hide Inverse;
    TwoAccepted(1000.000000001, 999.999999999, sq);
    forall d: RVec ensures Score(Inverse(Flat()), d, 2) >= 0.0 {
      FlatScore(d);
      SquarePositive(d(0) + d(1));
    }
    NonNegativeIffSemiDefinite(Inverse(Flat()), sq, 2);
    FlatScore(Opposed());
    PositiveIffDefinite(Inverse(Flat()), sq, 2);
    assert Opposed()(0) != 0.0 && Score(Inverse(Flat()), Opposed(), 2) == 0.0;
  }
}
