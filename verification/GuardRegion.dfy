/** The matrix gate of ValidateProfile and the out-of-distribution guard of Evaluate together. */
module GuardRegion {
  import opened Floats
  import opened Reasons
  import opened Profiles
  import opened Evaluation
  import opened Admission
  import opened Planner
  import opened OodGate
  import opened OodForm
  import opened Semidefinite
  import opened OodRegion
  import opened Cholesky

  /** The tolerance validateProfileBase passes to the gate. */
  const TOLERANCE := 0.0000000001

  /** A required guard whose matrix has a symmetric part that factors in order. */
  ghost predicate SoundGuard(o: Ood, sq: real -> real)
  {
    o.required && ShapesMatch(o) && SemiDefinite(Inverse(o), sq, |o.features|)
  }

  /** A required guard whose matrix has a symmetric part with positive pivots. */
  ghost predicate StrictGuard(o: Ood, sq: real -> real)
  {
    o.required && ShapesMatch(o) && Definite(Inverse(o), sq, |o.features|)
  }

  /** What the profile validation checks of a required guard's matrix. */
  ghost predicate GateAccepts(o: Ood, sq: real -> real)
  {
    o.required && ShapesMatch(o) && Accepted(FloatRows(o.inverse), TOLERANCE, sq)
  }

  function FeatureVec(o: Ood, features: map<string, real>): RVec
  {
    i => if 0 <= i < |o.features| then Lookup(features, o.features[i]) else 0.0
  }

  function MeanVec(o: Ood): RVec { i => if 0 <= i < |o.mean| then o.mean[i] else 0.0 }

  /** The guard's scores are positive away from the mean exactly when it is strict, and then it is sound. */
  lemma StrictIff(o: Ood, sq: real -> real)
    requires IsSqrt(sq) && o.required && ShapesMatch(o)
    ensures PositiveScores(Inverse(o), |o.features|) <==> StrictGuard(o, sq)
    ensures StrictGuard(o, sq) ==> SoundGuard(o, sq)
  {
    hide Inverse;
    hide PositiveScores;
    PositiveIffDefinite(Inverse(o), sq, |o.features|);
    if StrictGuard(o, sq) {
      DefiniteIsSemiDefinite(Inverse(o), sq, |o.features|);
    }
  }

  /** A matrix that the gate accepts and that is exactly symmetric makes the guard strict. */
  lemma SymmetricIsStrict(o: Ood, sq: real -> real)
    requires IsSqrt(sq) && GateAccepts(o, sq)
    requires forall i, j | 0 <= i < |o.inverse| && 0 <= j < |o.inverse| :: o.inverse[i][j] == o.inverse[j][i]
    ensures StrictGuard(o, sq)
  {
    AcceptedIsNear(FloatRows(o.inverse), TOLERANCE, sq);
    SymmetricDefiniteIff(Inverse(o), sq, |o.features|);
  }

  lemma DistributionIsRegion(o: Ood, features: map<string, real>)
    requires o.required && ShapesMatch(o)
    ensures InDistribution(o, features)
       <==> Admitted(Inverse(o), MeanVec(o), o.threshold, FeatureVec(o, features), |o.features|)
  {
    hide Score;
    hide Inverse;
    ScoreExt(Inverse(o), Delta(o, features), Apart(FeatureVec(o, features), MeanVec(o)), |o.features|);
  }

  /** A sound guard never scores negatively, so INVALID_OOD_SCORE is never its reason. */
  lemma SoundGuardNeverInvalid(o: Ood, sq: real -> real, features: map<string, real>)
    requires IsSqrt(sq) && SoundGuard(o, sq)
    ensures OodScore(o, features) >= 0.0
    ensures forall r | r in OodReasons(o, features) :: r.code != InvalidOodScore
  {
    hide Score;
    hide Inverse;
    hide SemiDefinite;
    NonNegativeIffSemiDefinite(Inverse(o), sq, |o.features|);
  }

  /** Features between two feature maps that a sound guard admits are admitted. */
  lemma BetweenAdmitted(
    o: Ood, sq: real -> real, f: map<string, real>, g: map<string, real>, h: map<string, real>, t: real)
    requires IsSqrt(sq) && SoundGuard(o, sq) && 0.0 <= t <= 1.0
    requires forall name | name in o.features :: name in f && name in g && name in h
    requires forall name | name in o.features :: h[name] == t * f[name] + (1.0 - t) * g[name]
    requires InDistribution(o, f) && InDistribution(o, g)
    ensures InDistribution(o, h)
  {
    hide Score;
    hide Inverse;
    hide SemiDefinite;
    var n, mean, x, y := |o.features|, MeanVec(o), FeatureVec(o, f), FeatureVec(o, g);
    DistributionIsRegion(o, f);
    DistributionIsRegion(o, g);
    DistributionIsRegion(o, h);
    AdmittedRegionConvex(Inverse(o), sq, mean, o.threshold, x, y, t, n);
    ScoreExt(Inverse(o), Apart(Blend(t, x, y), mean), Apart(FeatureVec(o, h), mean), n);
  }

  /** Reflecting the features in the mean changes nothing. */
  lemma MirroredAdmitted(o: Ood, f: map<string, real>, g: map<string, real>)
    requires o.required && ShapesMatch(o)
    requires forall i | 0 <= i < |o.features| ::
               o.features[i] in f && o.features[i] in g
               && g[o.features[i]] == o.mean[i] + o.mean[i] - f[o.features[i]]
    ensures InDistribution(o, f) <==> InDistribution(o, g)
  {
    hide Score;
    hide Inverse;
    var n, mean, x := |o.features|, MeanVec(o), FeatureVec(o, f);
    DistributionIsRegion(o, f);
    DistributionIsRegion(o, g);
    AdmittedRegionSymmetric(Inverse(o), mean, o.threshold, x, n);
    ScoreExt(Inverse(o), Apart(Mirror(mean, x), mean), Apart(FeatureVec(o, g), mean), n);
  }

  // ----- soundness is exact

  ghost predicate Covers(o: Ood, features: map<string, real>) { forall name | name in o.features :: name in features }

  /** No feature map makes INVALID_OOD_SCORE a reason. */
  ghost predicate NeverInvalid(o: Ood)
  {
    forall f: map<string, real> | Covers(o, f) :: forall r | r in OodReasons(o, f) :: r.code != InvalidOodScore
  }

  ghost predicate Between(o: Ood, f: map<string, real>, g: map<string, real>, h: map<string, real>, t: real)
  {
    && 0.0 <= t <= 1.0 && Covers(o, f) && Covers(o, g) && Covers(o, h)
    && forall name | name in o.features :: h[name] == t * f[name] + (1.0 - t) * g[name]
  }

  /** Whatever lies between two admitted feature maps is admitted. */
  ghost predicate AdmitsBetween(o: Ood)
  {
    forall f: map<string, real>, g: map<string, real>, h: map<string, real>, t | Between(o, f, g, h, t) ::
      InDistribution(o, f) && InDistribution(o, g) ==> InDistribution(o, h)
  }

  /** The feature map that takes the values x. */
  function MapOf(o: Ood, x: RVec): (f: map<string, real>)
    requires Distinct(o.features)
    ensures Covers(o, f) && forall i | 0 <= i < |o.features| :: f[o.features[i]] == x(i)
  {
    map i | 0 <= i < |o.features| :: o.features[i] := x(i)
  }

  lemma NegativeIsInvalid(o: Ood, f: map<string, real>)
    requires o.required && Covers(o, f)
    ensures OodScore(o, f) < 0.0 ==> exists r :: r in OodReasons(o, f) && r.code == InvalidOodScore
  {
    NoneMissing(o.features, f);
    assert OodScore(o, f) < 0.0 ==> Reason(InvalidOodScore, Path(OodField), PLAIN) in OodReasons(o, f);
  }

  /**
   With distinct feature names, which the profile validation checks, a guard never rejects with
   INVALID_OOD_SCORE if and only if it is sound.
   */
  lemma NeverInvalidIff(o: Ood, sq: real -> real)
    requires IsSqrt(sq) && o.required && ShapesMatch(o) && Distinct(o.features)
    ensures NeverInvalid(o) <==> SoundGuard(o, sq)
  {
    hide Score;
    hide Inverse;
    hide SemiDefinite;
    hide OodReasons;
    var n := |o.features|;
    NonNegativeIffSemiDefinite(Inverse(o), sq, n);
    if NeverInvalid(o) {
      forall d: RVec ensures Score(Inverse(o), d, n) >= 0.0 {
        var f := MapOf(o, Along(MeanVec(o), 1.0, d));
        ScoreExt(Inverse(o), Delta(o, f), d, n);
        NegativeIsInvalid(o, f);
        assert forall r | r in OodReasons(o, f) :: r.code != InvalidOodScore;
      }
    }
    if SoundGuard(o, sq) {
      forall f: map<string, real> | Covers(o, f)
        ensures forall r | r in OodReasons(o, f) :: r.code != InvalidOodScore
      {
        SoundGuardNeverInvalid(o, sq, f);
      }
    }
  }

  lemma FirstScore(o: Ood, sq: real -> real)
    requires GateAccepts(o, sq)
    ensures Score(Inverse(o), Two(0, 1.0, 0, 1.0), |o.features|) > 0.0
  {
    OneScore(Inverse(o), 0, |o.features|);
    assert Pivot(LiftM(Inverse(o)), sq, 0, 0) > TOLERANCE;
  }

  lemma AdmitsBetweenIsConvex(o: Ood)
    requires o.required && ShapesMatch(o) && Distinct(o.features) && AdmitsBetween(o)
    ensures RegionConvex(Inverse(o), MeanVec(o), o.threshold, |o.features|)
  {
    hide Score;
    hide Inverse;
    hide InDistribution;
    var a, mean, n := Inverse(o), MeanVec(o), |o.features|;
    forall x: RVec, y: RVec, t | 0.0 <= t <= 1.0
          && Admitted(a, mean, o.threshold, x, n) && Admitted(a, mean, o.threshold, y, n)
      ensures Admitted(a, mean, o.threshold, Blend(t, x, y), n)
    {
      var f, g, h := MapOf(o, x), MapOf(o, y), MapOf(o, Blend(t, x, y));
      MapAdmitted(o, x);
      MapAdmitted(o, y);
      MapAdmitted(o, Blend(t, x, y));
      assert Between(o, f, g, h, t);
    }
  }

  lemma MapAdmitted(o: Ood, x: RVec)
    requires o.required && ShapesMatch(o) && Distinct(o.features)
    ensures InDistribution(o, MapOf(o, x)) <==> Admitted(Inverse(o), MeanVec(o), o.threshold, x, |o.features|)
  {
    hide Score;
    hide Inverse;
    hide InDistribution;
    var f := MapOf(o, x);
    DistributionIsRegion(o, f);
    ScoreExt(Inverse(o), Apart(FeatureVec(o, f), MeanVec(o)), Apart(x, MeanVec(o)), |o.features|);
  }

  /** For a guard the gate accepts, the admitted feature maps are convex if and only if it is sound. */
  lemma AdmitsBetweenIff(o: Ood, sq: real -> real)
    requires IsSqrt(sq) && GateAccepts(o, sq) && Distinct(o.features) && o.threshold >= 0.0
    ensures AdmitsBetween(o) <==> SoundGuard(o, sq)
  {
    hide Score;
    hide Inverse;
    hide SemiDefinite;
    hide InDistribution;
    hide RegionConvex;
    var n := |o.features|;
    NonNegativeIffSemiDefinite(Inverse(o), sq, n);
    FirstScore(o, sq);
    RegionConvexIff(Inverse(o), sq, MeanVec(o), o.threshold, Two(0, 1.0, 0, 1.0), n);
    if AdmitsBetween(o) {
      AdmitsBetweenIsConvex(o);
    }
    if SoundGuard(o, sq) {
      forall f: map<string, real>, g: map<string, real>, h: map<string, real>, t
        | Between(o, f, g, h, t) && InDistribution(o, f) && InDistribution(o, g)
        ensures InDistribution(o, h)
      {
        BetweenAdmitted(o, sq, f, g, h, t);
      }
    }
  }
}
