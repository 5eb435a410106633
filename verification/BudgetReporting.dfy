/** The reasons of the model features, the latency budget, the guard and the devices, and the figures of a decision. */
module BudgetReporting {
  import opened Floats
  import opened Texts
  import opened Sums
  import opened Reasons
  import opened Profiles
  import opened Planner
  import opened OodForm
  import opened Evaluation
  import opened Admission
  import opened Reporting

  // ----- model features

  lemma FieldsApart(a: string, b: string)
    ensures Path(InputField) + a != Path(InterferenceField) + b
  {
    assert (Path(InputField) + a)[7] == 'p' && (Path(InterferenceField) + b)[7] == 't';
  }

  lemma InputMissing(key: string, k: string, m: Message)
    ensures Reported([Reason(ModelFeatureMissing, Path(InputField) + k, m)], ModelFeatureMissing,
                     Path(InputField) + key)
       <==> k == key
    ensures !Reported([Reason(ModelFeatureMissing, Path(InputField) + k, m)], ModelFeatureMissing,
                      Path(InterferenceField) + key)
  {
    FieldsApart(k, key);
    hide Path;
    OneReported(ModelFeatureMissing, Path(InputField) + k, m, ModelFeatureMissing, Path(InputField) + key);
    OneReported(ModelFeatureMissing, Path(InputField) + k, m, ModelFeatureMissing, Path(InterferenceField) + key);
    if Path(InputField) + k == Path(InputField) + key {
      AppendInjective(Path(InputField), k, key);
    }
  }

  lemma InterferenceMissing(key: string, k: string, m: Message)
    ensures Reported([Reason(ModelFeatureMissing, Path(InterferenceField) + k, m)], ModelFeatureMissing,
                     Path(InterferenceField) + key)
       <==> k == key
    ensures !Reported([Reason(ModelFeatureMissing, Path(InterferenceField) + k, m)], ModelFeatureMissing,
                      Path(InputField) + key)
  {
    FieldsApart(key, k);
    hide Path;
    OneReported(ModelFeatureMissing, Path(InterferenceField) + k, m, ModelFeatureMissing,
                Path(InterferenceField) + key);
    OneReported(ModelFeatureMissing, Path(InterferenceField) + k, m, ModelFeatureMissing, Path(InputField) + key);
    if Path(InterferenceField) + k == Path(InterferenceField) + key {
      AppendInjective(Path(InterferenceField), k, key);
    }
  }

  /** What one missing feature is reported as. */
  lemma MissingCode(r: Request, observed: map<string, Float>, name: string, key: string)
    ensures var rs := MissingReasons(r, observed, name);
            && (Reported(rs, ModelFeatureMissing, Path(InputField) + key)
                <==> name == "input." + key && Feature(r.inputs, observed, name).None?)
            && (Reported(rs, ModelFeatureMissing, Path(InterferenceField) + key)
                <==> name == "interference." + key && Feature(r.inputs, observed, name).None?)
            && (Reported(rs, InvalidModelFeature, Path(FeaturesField))
                <==> !("input." <= name) && !("interference." <= name))
  {
    ResolveMeans(name, key);
    hide Path;
    hide Reported;
    NothingReported(ModelFeatureMissing, Path(InputField) + key);
    NothingReported(ModelFeatureMissing, Path(InterferenceField) + key);
    NothingReported(InvalidModelFeature, Path(FeaturesField));
    match Resolve(name)
    case Input(k) =>
      ResolveMeans(name, k);
      InputMissing(key, k, PLAIN);
      OneReported(ModelFeatureMissing, Path(InputField) + k, PLAIN, InvalidModelFeature, Path(FeaturesField));
    case Interference(k) =>
      ResolveMeans(name, k);
      InterferenceMissing(key, k, PLAIN);
      OneReported(ModelFeatureMissing, Path(InterferenceField) + k, PLAIN, InvalidModelFeature, Path(FeaturesField));
    case Other =>
      OneReported(InvalidModelFeature, Path(FeaturesField), Text([name]), InvalidModelFeature, Path(FeaturesField));
      OneReported(InvalidModelFeature, Path(FeaturesField), Text([name]), ModelFeatureMissing, Path(InputField) + key);
      OneReported(InvalidModelFeature, Path(FeaturesField), Text([name]), ModelFeatureMissing,
                  Path(InterferenceField) + key);
  }

  lemma ModelsLocated(
    p: Profile, r: Request, phase: Phase, ev: Evidence, o: Orders, c: Code, field: string, observed: map<string, Float>)
    requires Evaluates(p, r, phase, ev, o) && StageOf(c) == Models && observed == Observed(r, phase, ev)
    ensures Reported(Evaluated(p, r, phase, ev, o).reasons, c, field)
       <==> exists name :: (name in p.latency.featureOrder || name in p.ood.features)
                           && Reported(MissingReasons(r, observed, name), c, field)
  {
    hide Evaluated;
    hide Evaluates;
    hide Reported;
    hide StageOf;
    hide MissingReasons;
    hide Collect;
    hide Observed;
    hide Union;
    Located(p, r, phase, ev, o, c, field);
    CollectReports(MissingChecks(r, observed), Names(p), c, field);
    forall name ensures name in Names(p) <==> name in p.latency.featureOrder || name in p.ood.features {
      UnionMembers(p.latency.featureOrder, p.ood.features, name);
    }
    forall name ensures MissingChecks(r, observed)(name) == MissingReasons(r, observed, name) {}
  }

  /** Features of either model that the request or the observations do not give as a number. */
  lemma ModelsReported(
    p: Profile, r: Request, phase: Phase, ev: Evidence, o: Orders, key: string, observed: map<string, Float>)
    requires Evaluates(p, r, phase, ev, o)
    requires observed == if phase == Runtime && ev.interference.Some? then ev.interference.value else r.interference
    ensures var rs, used := Evaluated(p, r, phase, ev, o).reasons, p.latency.featureOrder + p.ood.features;
            && (Reported(rs, ModelFeatureMissing, "spec.inputs." + key)
                <==> "input." + key in used && !(key in r.inputs && r.inputs[key].Number?))
            && (Reported(rs, ModelFeatureMissing, "spec.interference." + key)
                <==> "interference." + key in used && !(key in observed && observed[key].Finite?))
            && (Reported(rs, InvalidModelFeature, "profile.spec.latency.model")
                <==> exists name :: name in used && !("input." <= name) && !("interference." <= name))
  {
    FeatureMeans(r.inputs, observed, key);
    assert Path(InputField) == "spec.inputs." && Path(InterferenceField) == "spec.interference.";
    assert Path(FeaturesField) == "profile.spec.latency.model";
    assert observed == Observed(r, phase, ev);
    hide Path;
    hide Evaluated;
    hide Evaluates;
    hide Reported;
    hide Observed;
    hide Feature;
    ModelsFields(p, r, phase, ev, o, key, observed);
  }

  lemma ModelsFields(
    p: Profile, r: Request, phase: Phase, ev: Evidence, o: Orders, key: string, observed: map<string, Float>)
    requires Evaluates(p, r, phase, ev, o) && observed == Observed(r, phase, ev)
    ensures var rs, used := Evaluated(p, r, phase, ev, o).reasons, p.latency.featureOrder + p.ood.features;
            && (Reported(rs, ModelFeatureMissing, Path(InputField) + key)
                <==> "input." + key in used && Feature(r.inputs, observed, "input." + key).None?)
            && (Reported(rs, ModelFeatureMissing, Path(InterferenceField) + key)
                <==> "interference." + key in used && Feature(r.inputs, observed, "interference." + key).None?)
            && (Reported(rs, InvalidModelFeature, Path(FeaturesField))
                <==> exists name :: name in used && !("input." <= name) && !("interference." <= name))
  {
    hide Path;
    hide Evaluated;
    hide Evaluates;
    hide Reported;
    hide MissingReasons;
    hide Observed;
    hide Feature;
    ModelsCodes();
    hide StageOf;
    ModelsLocated(p, r, phase, ev, o, ModelFeatureMissing, Path(InputField) + key, observed);
    ModelsLocated(p, r, phase, ev, o, ModelFeatureMissing, Path(InterferenceField) + key, observed);
    ModelsLocated(p, r, phase, ev, o, InvalidModelFeature, Path(FeaturesField), observed);
    forall name
      ensures var rs := MissingReasons(r, observed, name);
              && (Reported(rs, ModelFeatureMissing, Path(InputField) + key)
                  <==> name == "input." + key && Feature(r.inputs, observed, name).None?)
              && (Reported(rs, ModelFeatureMissing, Path(InterferenceField) + key)
                  <==> name == "interference." + key && Feature(r.inputs, observed, name).None?)
              && (Reported(rs, InvalidModelFeature, Path(FeaturesField))
                  <==> !("input." <= name) && !("interference." <= name))
    {
      MissingCode(r, observed, name, key);
    }
    forall name
      ensures name in p.latency.featureOrder + p.ood.features
         <==> name in p.latency.featureOrder || name in p.ood.features
    {}
  }

  // ----- the latency bound

  /** The planner's prediction is the intercept plus coefficient times feature, over the feature order. */
  lemma {:induction false} PredictIsSum(l: Latency, features: map<string, real>, f: RVec, k: nat)
    requires k <= |l.featureOrder|
    requires forall i | 0 <= i < k ::
               var name := l.featureOrder[i];
               f(i) == (if name in l.coefficients then l.coefficients[name] else 0.0)
                       * (if name in features then features[name] else 0.0)
    ensures PredictFirst(l, features, k) == l.intercept + Sum(f, k)
  {
    if k > 0 {
      PredictIsSum(l, features, f, k - 1);
    }
  }

  lemma LatencyCodes(p: Profile, r: Request, features: map<string, real>)
    ensures var rs, compute := LatencyReasons(p, r, features), Predict(p.latency, features);
            var upper := compute + p.latency.residualUpper + p.latency.ioBudget + p.latency.runtimeJitter;
            && (Reported(rs, InvalidPrediction, Path(ModelField)) <==> compute < 0.0)
            && (Reported(rs, InvalidLatencyBound, Path(LatencyField)) <==> upper < 0.0)
            && (Reported(rs, LatencySloUnsatisfied, Path(DeadlineField))
                <==> upper >= 0.0 && upper > r.deadline - r.safetyMargin)
  {
    hide Path;
    hide Predict;
  }

  /** Everything a latency or guard check needs of the features. */
  lemma FeatureValues(
    p: Profile, r: Request, phase: Phase, ev: Evidence, observed: map<string, Float>)
    requires observed == Observed(r, phase, ev)
    ensures HasFeatures(p, r, phase, ev)
       <==> forall name | name in p.latency.featureOrder + p.ood.features :: Feature(r.inputs, observed, name).Some?
    ensures forall name | name in p.latency.featureOrder + p.ood.features && Feature(r.inputs, observed, name).Some? ::
              name in Features(p, r, phase, ev)
              && Features(p, r, phase, ev)[name] == Feature(r.inputs, observed, name).value
  {
    hide Feature;
    hide Observed;
    hide Union;
    FeaturesIff(p, r, observed);
    forall name ensures name in Names(p) <==> name in p.latency.featureOrder + p.ood.features {
      UnionMembers(p.latency.featureOrder, p.ood.features, name);
    }
  }

  /** Every feature of either model is given; f lists coefficient times feature. */
  ghost predicate Terms(p: Profile, r: Request, observed: map<string, Float>, f: RVec)
  {
    && (forall name | name in p.latency.featureOrder + p.ood.features :: Feature(r.inputs, observed, name).Some?)
    && forall i | 0 <= i < |p.latency.featureOrder| ::
         var name := p.latency.featureOrder[i];
         f(i) == (if name in p.latency.coefficients then p.latency.coefficients[name] else 0.0)
                 * Feature(r.inputs, observed, name).value
  }

  lemma Prediction(p: Profile, r: Request, phase: Phase, ev: Evidence, observed: map<string, Float>, f: RVec)
    requires observed == Observed(r, phase, ev) && Terms(p, r, observed, f)
    ensures HasFeatures(p, r, phase, ev)
    ensures Predict(p.latency, Features(p, r, phase, ev)) == p.latency.intercept + Sum(f, |p.latency.featureOrder|)
  {
    hide Observed;
    hide Feature;
    hide HasFeatures;
    hide Features;
    var features := Features(p, r, phase, ev);
    FeatureValues(p, r, phase, ev, observed);
    forall i | 0 <= i < |p.latency.featureOrder|
      ensures p.latency.featureOrder[i] in features
      ensures features[p.latency.featureOrder[i]] == Feature(r.inputs, observed, p.latency.featureOrder[i]).value
    {
      assert p.latency.featureOrder[i] in p.latency.featureOrder + p.ood.features;
    }
    PredictIsSum(p.latency, features, f, |p.latency.featureOrder|);
  }

  /** The latency figures, once every feature is available. */
  lemma LatencyFigures(
    p: Profile, r: Request, phase: Phase, ev: Evidence, o: Orders, observed: map<string, Float>, f: RVec)
    requires Evaluates(p, r, phase, ev, o) && Terms(p, r, observed, f)
    requires observed == if phase == Runtime && ev.interference.Some? then ev.interference.value else r.interference
    ensures var out, l := Evaluated(p, r, phase, ev, o), p.latency;
            && out.predicted == l.intercept + Sum(f, |l.featureOrder|)
            && out.upper == out.predicted + l.residualUpper + l.ioBudget + l.runtimeJitter
            && out.available == r.deadline - r.safetyMargin && out.margin == out.available - out.upper
  {
    assert observed == Observed(r, phase, ev);
    hide Observed;
    hide Terms;
    hide HasFeatures;
    hide Features;
    hide ValidOrders;
    hide AllReasons;
    hide StableSort;
    hide Predict;
    hide OodScore;
    hide Scored;
    Prediction(p, r, phase, ev, observed, f);
  }

  lemma LatencyLocated(
    p: Profile, r: Request, phase: Phase, ev: Evidence, o: Orders, observed: map<string, Float>, f: RVec)
    requires Evaluates(p, r, phase, ev, o) && Terms(p, r, observed, f) && observed == Observed(r, phase, ev)
    ensures var rs, l := Evaluated(p, r, phase, ev, o).reasons, p.latency;
            var compute := l.intercept + Sum(f, |l.featureOrder|);
            var upper := compute + l.residualUpper + l.ioBudget + l.runtimeJitter;
            && (Reported(rs, InvalidPrediction, Path(ModelField)) <==> compute < 0.0)
            && (Reported(rs, InvalidLatencyBound, Path(LatencyField)) <==> upper < 0.0)
            && (Reported(rs, LatencySloUnsatisfied, Path(DeadlineField))
                <==> upper >= 0.0 && upper > r.deadline - r.safetyMargin)
  {
    hide Path;
    hide Observed;
    hide Terms;
    hide Reported;
    hide LatencyReasons;
    hide HasFeatures;
    hide Features;
    hide Predict;
    hide Evaluates;
    hide Evaluated;
    Prediction(p, r, phase, ev, observed, f);
    LatenciesCodes();
    hide StageOf;
    LatencyCodes(p, r, Features(p, r, phase, ev));
    Located(p, r, phase, ev, o, InvalidPrediction, Path(ModelField));
    Located(p, r, phase, ev, o, InvalidLatencyBound, Path(LatencyField));
    Located(p, r, phase, ev, o, LatencySloUnsatisfied, Path(DeadlineField));
  }

  lemma LatencyPaths()
    ensures Path(ModelField) == "spec.latency.model" && Path(LatencyField) == "profile.spec.latency"
    ensures Path(DeadlineField) == "spec.deadlineUS"
  {}

  /** The latency reasons, once every feature is available. */
  lemma LatencyReported(
    p: Profile, r: Request, phase: Phase, ev: Evidence, o: Orders, observed: map<string, Float>, f: RVec)
    requires Evaluates(p, r, phase, ev, o) && Terms(p, r, observed, f)
    requires observed == if phase == Runtime && ev.interference.Some? then ev.interference.value else r.interference
    ensures var rs, l := Evaluated(p, r, phase, ev, o).reasons, p.latency;
            var compute := l.intercept + Sum(f, |l.featureOrder|);
            var upper := compute + l.residualUpper + l.ioBudget + l.runtimeJitter;
            && (Reported(rs, InvalidPrediction, "spec.latency.model") <==> compute < 0.0)
            && (Reported(rs, InvalidLatencyBound, "profile.spec.latency") <==> upper < 0.0)
            && (Reported(rs, LatencySloUnsatisfied, "spec.deadlineUS")
                <==> upper >= 0.0 && upper > r.deadline - r.safetyMargin)
  {
    assert observed == Observed(r, phase, ev);
    hide Path;
    hide Observed;
    hide Terms;
    hide Reported;
    hide Evaluates;
    hide Evaluated;
    LatencyPaths();
    LatencyLocated(p, r, phase, ev, o, observed, f);
  }

  // ----- the guard

  lemma GuardParts(o: Ood, features: map<string, real>)
    requires o.required && Scored(o, features)
    ensures var rs, score := OodReasons(o, features), OodScore(o, features);
            && (Reported(rs, InvalidOodScore, Path(OodField)) <==> score < 0.0)
            && (Reported(rs, OodRejected, Path(InputsField)) <==> score >= 0.0 && score > o.threshold)
  {
    hide Path;
    hide OodScore;
    hide FirstMissing;
  }

  /** The score is the double sum over the deviations from the mean and the inverse covariance. */
  lemma ScoreIsSum(o: Ood, features: map<string, real>, delta: RVec, F: (int, int) -> real)
    requires o.required && ShapesMatch(o)
    requires forall i | 0 <= i < |o.features| ::
               o.features[i] in features && delta(i) == features[o.features[i]] - o.mean[i]
    requires forall i, j | 0 <= i < |o.features| && 0 <= j < |o.features| ::
               F(i, j) == delta(i) * o.inverse[i][j] * delta(j)
    ensures OodScore(o, features) == Sum(i => Sum(j => F(i, j), |o.features|), |o.features|)
  {
    var n, d := |o.features|, Delta(o, features);
    forall i | 0 <= i < n
      ensures ScoreRows(Inverse(o), d, n)(i) == Sum(j => F(i, j), n)
    {
      forall j | 0 <= j < n ensures ScoreTerms(Inverse(o), d, i)(j) == F(i, j) {
        ScoreTermAt(o, d, i, j);
      }
      SumExt(ScoreTerms(Inverse(o), d, i), j => F(i, j), n);
    }
    SumExt(ScoreRows(Inverse(o), d, n), i => Sum(j => F(i, j), n), n);
  }

  /** Every feature of either model is given; delta lists the deviations and F their products. */
  ghost predicate Deviations(
    p: Profile, r: Request, observed: map<string, Float>, delta: RVec, F: (int, int) -> real)
  {
    && ShapesMatch(p.ood)
    && (forall name | name in p.latency.featureOrder + p.ood.features :: Feature(r.inputs, observed, name).Some?)
    && (p.ood.required ==>
          && (forall i | 0 <= i < |p.ood.features| ::
                delta(i) == Feature(r.inputs, observed, p.ood.features[i]).value - p.ood.mean[i])
          && forall i, j | 0 <= i < |p.ood.features| && 0 <= j < |p.ood.features| ::
               F(i, j) == delta(i) * p.ood.inverse[i][j] * delta(j))
  }

  lemma GuardScore(
    p: Profile, r: Request, phase: Phase, ev: Evidence, observed: map<string, Float>,
    delta: RVec, F: (int, int) -> real)
    requires observed == Observed(r, phase, ev) && Deviations(p, r, observed, delta, F)
    ensures HasFeatures(p, r, phase, ev)
    ensures p.ood.required ==>
              && Scored(p.ood, Features(p, r, phase, ev))
              && OodScore(p.ood, Features(p, r, phase, ev))
                 == Sum(i => Sum(j => F(i, j), |p.ood.features|), |p.ood.features|)
  {
    hide Observed;
    hide Feature;
    hide HasFeatures;
    hide Features;
    hide OodScore;
    var features := Features(p, r, phase, ev);
    FeatureValues(p, r, phase, ev, observed);
    if p.ood.required {
      forall i | 0 <= i < |p.ood.features|
        ensures p.ood.features[i] in features
        ensures features[p.ood.features[i]] == Feature(r.inputs, observed, p.ood.features[i]).value
      {
        assert p.ood.features[i] in p.latency.featureOrder + p.ood.features;
      }
      NoneMissing(p.ood.features, features);
      ScoreIsSum(p.ood, features, delta, F);
    }
  }

  lemma GuardLocated(p: Profile, r: Request, phase: Phase, ev: Evidence, o: Orders)
    requires Evaluates(p, r, phase, ev, o) && HasFeatures(p, r, phase, ev)
    requires p.ood.required ==> Scored(p.ood, Features(p, r, phase, ev))
    ensures var rs, score := Evaluated(p, r, phase, ev, o).reasons, OodScore(p.ood, Features(p, r, phase, ev));
            && (Reported(rs, InvalidOodScore, Path(OodField)) <==> p.ood.required && score < 0.0)
            && (Reported(rs, OodRejected, Path(InputsField))
                <==> p.ood.required && score >= 0.0 && score > p.ood.threshold)
  {
    hide Path;
    hide Reported;
    hide Evaluated;
    hide Evaluates;
    hide HasFeatures;
    hide Features;
    hide OodScore;
    GuardCodes();
    hide StageOf;
    Located(p, r, phase, ev, o, InvalidOodScore, Path(OodField));
    Located(p, r, phase, ev, o, OodRejected, Path(InputsField));
    NothingReported(InvalidOodScore, Path(OodField));
    NothingReported(OodRejected, Path(InputsField));
    if p.ood.required {
      hide OodReasons;
      GuardParts(p.ood, Features(p, r, phase, ev));
    }
  }

  lemma GuardPaths()
    ensures Path(OodField) == "profile.spec.ood" && Path(InputsField) == "spec.inputs"
  {}

  /** The guard's reasons and figures, once every feature is available. */
  lemma GuardReported(
    p: Profile, r: Request, phase: Phase, ev: Evidence, o: Orders, observed: map<string, Float>,
    delta: RVec, F: (int, int) -> real)
    requires Evaluates(p, r, phase, ev, o) && Deviations(p, r, observed, delta, F)
    requires observed == if phase == Runtime && ev.interference.Some? then ev.interference.value else r.interference
    ensures var rs, g := Evaluated(p, r, phase, ev, o).reasons, p.ood;
            var score := Sum(i => Sum(j => F(i, j), |g.features|), |g.features|);
            && (Reported(rs, InvalidOodScore, "profile.spec.ood") <==> g.required && score < 0.0)
            && (Reported(rs, OodRejected, "spec.inputs") <==> g.required && score >= 0.0 && score > g.threshold)
  {
    assert observed == Observed(r, phase, ev);
    hide Path;
    hide Observed;
    hide Deviations;
    hide Reported;
    hide HasFeatures;
    hide Features;
    hide OodScore;
    hide Scored;
    hide Evaluated;
    hide Evaluates;
    GuardPaths();
    GuardScore(p, r, phase, ev, observed, delta, F);
    GuardLocated(p, r, phase, ev, o);
  }

  /** The guard's figures: the score and the threshold of a required guard, zeros otherwise. */
  lemma GuardFigures(
    p: Profile, r: Request, phase: Phase, ev: Evidence, o: Orders, observed: map<string, Float>,
    delta: RVec, F: (int, int) -> real)
    requires Evaluates(p, r, phase, ev, o) && Deviations(p, r, observed, delta, F)
    requires observed == if phase == Runtime && ev.interference.Some? then ev.interference.value else r.interference
    ensures var out, g := Evaluated(p, r, phase, ev, o), p.ood;
            && out.oodScore == (if g.required then Sum(i => Sum(j => F(i, j), |g.features|), |g.features|) else 0.0)
            && out.oodThreshold == if g.required then g.threshold else 0.0
  {
    assert observed == Observed(r, phase, ev);
    assert !p.ood.required ==> !Scored(p.ood, Features(p, r, phase, ev));
    hide Observed;
    hide Deviations;
    hide HasFeatures;
    hide Features;
    hide OodScore;
    hide Scored;
    hide ValidOrders;
    hide AllReasons;
    hide StableSort;
    hide Predict;
    GuardScore(p, r, phase, ev, observed, delta, F);
  }

  lemma SkippedReasons(p: Profile, r: Request, phase: Phase, ev: Evidence, o: Orders, c: Code, field: string)
    requires Evaluates(p, r, phase, ev, o) && !HasFeatures(p, r, phase, ev) && StageOf(c) in {Latencies, Guard}
    ensures !Reported(Evaluated(p, r, phase, ev, o).reasons, c, field)
  {
    hide Evaluates;
    hide Evaluated;
    hide HasFeatures;
    hide StageOf;
    hide Reported;
    Located(p, r, phase, ev, o, c, field);
    NothingReported(c, field);
  }

  lemma SkippedFigures(p: Profile, r: Request, phase: Phase, ev: Evidence, o: Orders)
    requires Evaluates(p, r, phase, ev, o) && !HasFeatures(p, r, phase, ev)
    ensures var out := Evaluated(p, r, phase, ev, o);
            out.predicted == out.upper == out.available == out.margin == out.oodScore == out.oodThreshold == 0.0
  {
    hide HasFeatures;
    hide Features;
    hide ValidOrders;
    hide AllReasons;
    hide StableSort;
  }

  /** With a feature missing neither budget is judged: no reason of either, and the figures stay zero. */
  lemma BudgetSkipped(
    p: Profile, r: Request, phase: Phase, ev: Evidence, o: Orders, observed: map<string, Float>, field: string)
    requires Evaluates(p, r, phase, ev, o)
    requires observed == if phase == Runtime && ev.interference.Some? then ev.interference.value else r.interference
    requires exists name :: name in p.latency.featureOrder + p.ood.features
                            && Feature(r.inputs, observed, name).None?
    ensures var out := Evaluated(p, r, phase, ev, o);
            && out.predicted == out.upper == out.available == out.margin == out.oodScore == out.oodThreshold == 0.0
            && forall c | c in {InvalidPrediction, InvalidLatencyBound, LatencySloUnsatisfied,
                                OodFeatureMissing, InvalidOodScore, OodRejected} :: !Reported(out.reasons, c, field)
  {
    assert observed == Observed(r, phase, ev);
    hide Observed;
    hide Feature;
    hide Features;
    hide Evaluates;
    hide Evaluated;
    hide Reported;
    FeatureValues(p, r, phase, ev, observed);
    hide HasFeatures;
    SkippedFigures(p, r, phase, ev, o);
    LatenciesCodes();
    GuardCodes();
    hide StageOf;
    forall c | StageOf(c) in {Latencies, Guard} ensures !Reported(Evaluated(p, r, phase, ev, o).reasons, c, field) {
      SkippedReasons(p, r, phase, ev, o, c, field);
    }
  }

  /** OOD_FEATURE_MISSING is never a reason: the guard is judged only when every feature is there. */
  lemma OodFeatureNeverMissing(p: Profile, r: Request, phase: Phase, ev: Evidence, o: Orders, field: string)
    requires Evaluates(p, r, phase, ev, o)
    ensures !Reported(Evaluated(p, r, phase, ev, o).reasons, OodFeatureMissing, field)
  {
    hide Evaluates;
    hide Evaluated;
    GuardCodes();
    Located(p, r, phase, ev, o, OodFeatureMissing, field);
    hide StageOf;
    if HasFeatures(p, r, phase, ev) {
      FeatureValues(p, r, phase, ev, Observed(r, phase, ev));
      hide HasFeatures;
      hide Features;
      hide Feature;
      hide Path;
      hide OodScore;
      forall name | name in p.ood.features ensures name in Features(p, r, phase, ev) {
        assert name in p.latency.featureOrder + p.ood.features;
      }
      NoneMissing(p.ood.features, Features(p, r, phase, ev));
    }
  }

  // ----- devices

  lemma AssertionCode(dev: Device, a: Assertion, attribute: string)
    ensures var rs, field := AssertionChecks(dev)(a), Path(AttributeField) + attribute;
            && (Reported(rs, DraAttributeMissing, field) <==> a.attribute == attribute && attribute !in dev.attributes)
            && (Reported(rs, DraAttributeMismatch, field)
                <==> a.attribute == attribute && attribute in dev.attributes
                     && !Satisfies(dev.attributes[attribute], a))
            && !Reported(rs, DraDeviceCountMismatch, Path(MetadataField))
  {
    hide Path;
    hide Satisfies;
    assert AssertionChecks(dev)(a) == AssertionReasons(dev, a);
    if Path(AttributeField) + a.attribute == Path(AttributeField) + attribute {
      AppendInjective(Path(AttributeField), a.attribute, attribute);
    }
    var words := Text([dev.driver, dev.pool, dev.name]);
    OneReported(DraAttributeMissing, Path(AttributeField) + a.attribute, words,
                DraAttributeMissing, Path(AttributeField) + attribute);
    OneReported(DraAttributeMismatch, Path(AttributeField) + a.attribute, words,
                DraAttributeMismatch, Path(AttributeField) + attribute);
  }

  lemma DeviceCode(p: Profile, dev: Device, attribute: string)
    ensures var rs, field := DeviceChecks(p)(dev), Path(AttributeField) + attribute;
            && (Reported(rs, DraAttributeMissing, field)
                <==> exists a :: a in p.assertions && a.attribute == attribute && attribute !in dev.attributes)
            && (Reported(rs, DraAttributeMismatch, field)
                <==> exists a :: a in p.assertions && a.attribute == attribute && attribute in dev.attributes
                                 && !Satisfies(dev.attributes[attribute], a))
            && !Reported(rs, DraDeviceCountMismatch, Path(MetadataField))
  {
    hide Path;
    hide Satisfies;
    hide Reported;
    assert DeviceChecks(p)(dev) == Collect(AssertionChecks(dev), p.assertions);
    hide Collect;
    var field := Path(AttributeField) + attribute;
    CollectReports(AssertionChecks(dev), p.assertions, DraAttributeMissing, field);
    CollectReports(AssertionChecks(dev), p.assertions, DraAttributeMismatch, field);
    CollectReports(AssertionChecks(dev), p.assertions, DraDeviceCountMismatch, Path(MetadataField));
    forall a
      ensures var rs := AssertionChecks(dev)(a);
              && (Reported(rs, DraAttributeMissing, field)
                  <==> a.attribute == attribute && attribute !in dev.attributes)
              && (Reported(rs, DraAttributeMismatch, field)
                  <==> a.attribute == attribute && attribute in dev.attributes
                       && !Satisfies(dev.attributes[attribute], a))
              && !Reported(rs, DraDeviceCountMismatch, Path(MetadataField))
    {
      AssertionCode(dev, a, attribute);
    }
  }

  /** The reasons of a runtime evaluation without usable metadata. */
  lemma MetadataParts(p: Profile, phase: Phase, ev: Evidence)
    ensures var rs := RuntimeReasons(p, phase, ev);
            && (Reported(rs, DraMetadataRequired, Path(MetadataField)) <==> phase == Runtime && ev.metadata.None?)
            && (Reported(rs, DraRequestMissing, Path(MetadataField))
                <==> phase == Runtime && ev.metadata.Some? && DevicesFor(ev.metadata.value, RequestName(ev)).None?)
  {
    DeviceStageCodes(p, ev);
    hide Path;
    hide DevicesFor;
    hide Collect;
  }

  lemma DeviceStageCodes(p: Profile, ev: Evidence)
    ensures forall ds: seq<Device>, x | x in Collect(DeviceChecks(p), ds) ::
              x.code != DraMetadataRequired && x.code != DraRequestMissing
  {
    hide Path;
    hide Satisfies;
    forall ds: seq<Device>, x | x in Collect(DeviceChecks(p), ds)
      ensures x.code != DraMetadataRequired && x.code != DraRequestMissing
    {
      CollectMember(DeviceChecks(p), ds, x);
      var dev :| dev in ds && x in DeviceChecks(p)(dev);
      assert DeviceChecks(p)(dev) == Collect(AssertionChecks(dev), p.assertions);
      CollectMember(AssertionChecks(dev), p.assertions, x);
      var a :| a in p.assertions && x in AssertionChecks(dev)(a);
      assert AssertionChecks(dev)(a) == AssertionReasons(dev, a);
    }
  }

  lemma MetadataPath()
    ensures Path(MetadataField) == "runtime.metadata" && Path(AttributeField) == "runtime.metadata."
  {}

  /** A runtime evaluation needs metadata with a request of the name, gpu by default. */
  lemma MetadataReported(p: Profile, r: Request, phase: Phase, ev: Evidence, o: Orders, name: string)
    requires Evaluates(p, r, phase, ev, o) && name == if ev.requestName == "" then "gpu" else ev.requestName
    ensures var rs := Evaluated(p, r, phase, ev, o).reasons;
            && (Reported(rs, DraMetadataRequired, "runtime.metadata") <==> phase == Runtime && ev.metadata.None?)
            && (Reported(rs, DraRequestMissing, "runtime.metadata")
                <==> phase == Runtime && ev.metadata.Some? && forall q | q in ev.metadata.value :: q.name != name)
  {
    hide Path;
    hide Reported;
    hide Evaluates;
    hide Evaluated;
    hide RuntimeReasons;
    MetadataPath();
    DevicesCodes();
    hide StageOf;
    Located(p, r, phase, ev, o, DraMetadataRequired, "runtime.metadata");
    Located(p, r, phase, ev, o, DraRequestMissing, "runtime.metadata");
    MetadataParts(p, phase, ev);
    if ev.metadata.Some? {
      DevicesForMeans(ev.metadata.value, name);
    }
  }

  lemma DeviceParts(p: Profile, ev: Evidence, devices: seq<Device>, attribute: string)
    requires ev.metadata.Some? && DevicesFor(ev.metadata.value, RequestName(ev)) == Some(devices)
    ensures var rs, field := RuntimeReasons(p, Runtime, ev), Path(AttributeField) + attribute;
            && (Reported(rs, DraDeviceCountMismatch, Path(MetadataField)) <==> |devices| != p.deviceCount)
            && (Reported(rs, DraAttributeMissing, field)
                <==> exists dev, a :: dev in devices && a in p.assertions && a.attribute == attribute
                                      && attribute !in dev.attributes)
            && (Reported(rs, DraAttributeMismatch, field)
                <==> exists dev, a :: dev in devices && a in p.assertions && a.attribute == attribute
                                      && attribute in dev.attributes && !Satisfies(dev.attributes[attribute], a))
  {
    hide Path;
    hide Satisfies;
    hide Reported;
    hide DeviceChecks;
    hide DevicesFor;
    hide Collect;
    var field := Path(AttributeField) + attribute;
    var m := Message([], [|devices| as real]);
    var count := if |devices| != p.deviceCount then [Reason(DraDeviceCountMismatch, Path(MetadataField), m)] else [];
    var each := Collect(DeviceChecks(p), devices);
    assert RuntimeReasons(p, Runtime, ev) == count + each;
    ReportedAppend(count, each, DraDeviceCountMismatch, Path(MetadataField));
    ReportedAppend(count, each, DraAttributeMissing, field);
    ReportedAppend(count, each, DraAttributeMismatch, field);
    CountParts(count, m, field);
    CollectReports(DeviceChecks(p), devices, DraDeviceCountMismatch, Path(MetadataField));
    CollectReports(DeviceChecks(p), devices, DraAttributeMissing, field);
    CollectReports(DeviceChecks(p), devices, DraAttributeMismatch, field);
    forall dev
      ensures var rs := DeviceChecks(p)(dev);
              && (Reported(rs, DraAttributeMissing, field)
                  <==> exists a :: a in p.assertions && a.attribute == attribute && attribute !in dev.attributes)
              && (Reported(rs, DraAttributeMismatch, field)
                  <==> exists a :: a in p.assertions && a.attribute == attribute && attribute in dev.attributes
                                   && !Satisfies(dev.attributes[attribute], a))
              && !Reported(rs, DraDeviceCountMismatch, Path(MetadataField))
    {
      DeviceCode(p, dev, attribute);
    }
  }

  lemma CountParts(count: seq<Reason>, m: Message, field: string)
    requires count == [] || count == [Reason(DraDeviceCountMismatch, Path(MetadataField), m)]
    ensures Reported(count, DraDeviceCountMismatch, Path(MetadataField)) <==> count != []
    ensures !Reported(count, DraAttributeMissing, field) && !Reported(count, DraAttributeMismatch, field)
  {
    hide Path;
    OneReported(DraDeviceCountMismatch, Path(MetadataField), m, DraDeviceCountMismatch, Path(MetadataField));
  }

  lemma DevicesLocated(
    p: Profile, r: Request, ev: Evidence, o: Orders, devices: seq<Device>, attribute: string)
    requires Evaluates(p, r, Runtime, ev, o)
    requires ev.metadata.Some? && DevicesFor(ev.metadata.value, RequestName(ev)) == Some(devices)
    ensures var rs, field := Evaluated(p, r, Runtime, ev, o).reasons, Path(AttributeField) + attribute;
            && (Reported(rs, DraDeviceCountMismatch, Path(MetadataField)) <==> |devices| != p.deviceCount)
            && (Reported(rs, DraAttributeMissing, field)
                <==> exists dev, a :: dev in devices && a in p.assertions && a.attribute == attribute
                                      && attribute !in dev.attributes)
            && (Reported(rs, DraAttributeMismatch, field)
                <==> exists dev, a :: dev in devices && a in p.assertions && a.attribute == attribute
                                      && attribute in dev.attributes && !Satisfies(dev.attributes[attribute], a))
  {
    hide Path;
    hide Reported;
    hide Evaluates;
    hide Evaluated;
    hide RuntimeReasons;
    hide Satisfies;
    hide DevicesFor;
    hide RequestName;
    DevicesCodes();
    hide StageOf;
    Located(p, r, Runtime, ev, o, DraDeviceCountMismatch, Path(MetadataField));
    Located(p, r, Runtime, ev, o, DraAttributeMissing, Path(AttributeField) + attribute);
    Located(p, r, Runtime, ev, o, DraAttributeMismatch, Path(AttributeField) + attribute);
    DeviceParts(p, ev, devices, attribute);
  }

  lemma FirstNamed(ev: Evidence, name: string, k: nat)
    requires name == if ev.requestName == "" then "gpu" else ev.requestName
    requires ev.metadata.Some? && k < |ev.metadata.value| && ev.metadata.value[k].name == name
    requires forall j | 0 <= j < k :: ev.metadata.value[j].name != name
    ensures DevicesFor(ev.metadata.value, RequestName(ev)) == Some(ev.metadata.value[k].devices)
  {
    DevicesForMeans(ev.metadata.value, name);
  }

  /** The devices of the first request with the name: their number, and every assertion on every one of them. */
  lemma DevicesReported(
    p: Profile, r: Request, ev: Evidence, o: Orders, name: string, k: nat, attribute: string)
    requires Evaluates(p, r, Runtime, ev, o) && name == if ev.requestName == "" then "gpu" else ev.requestName
    requires ev.metadata.Some? && k < |ev.metadata.value| && ev.metadata.value[k].name == name
    requires forall j | 0 <= j < k :: ev.metadata.value[j].name != name
    ensures var rs, devices := Evaluated(p, r, Runtime, ev, o).reasons, ev.metadata.value[k].devices;
            && (Reported(rs, DraDeviceCountMismatch, "runtime.metadata") <==> |devices| != p.deviceCount)
            && (Reported(rs, DraAttributeMissing, "runtime.metadata." + attribute)
                <==> exists dev, a :: dev in devices && a in p.assertions && a.attribute == attribute
                                      && attribute !in dev.attributes)
            && (Reported(rs, DraAttributeMismatch, "runtime.metadata." + attribute)
                <==> exists dev, a :: dev in devices && a in p.assertions && a.attribute == attribute
                                      && attribute in dev.attributes && !Satisfies(dev.attributes[attribute], a))
  {
    hide Path;
    hide Reported;
    hide Evaluates;
    hide Evaluated;
    hide Satisfies;
    hide DevicesFor;
    hide RequestName;
    MetadataPath();
    FirstNamed(ev, name, k);
    DevicesLocated(p, r, ev, o, ev.metadata.value[k].devices, attribute);
  }

  // ----- the early returns

  /** An unknown phase, an invalid profile and an invalid request are each the only reason of their refusal. */
  lemma EarlyReturns(p: Profile, r: Request, phase: Phase, ev: Evidence, o: Orders)
    ensures var out := Evaluated(p, r, phase, ev, o);
            && out.profile == p.name
            && (phase !in {Plan, Runtime} ==> Single(out, InvalidPhase, "phase"))
            && (phase in {Plan, Runtime} && p.invalid.Some? ==> Single(out, InvalidProfile, "profile"))
            && (phase in {Plan, Runtime} && p.invalid.None? && r.invalid.Some? ==>
                  Single(out, InvalidRequest, "request"))
  {
    EarlyPaths();
    hide Path;
    hide StableSort;
    hide AllReasons;
    hide HasFeatures;
    hide Features;
  }

  predicate Single(out: Outcome, c: Code, field: string)
  {
    !out.admissible && |out.reasons| == 1 && out.reasons[0].code == c && out.reasons[0].field == field
  }

  lemma EarlyPaths()
    ensures Path(PhaseField) == "phase" && Path(ProfileField) == "profile" && Path(RequestField) == "request"
  {}
}
