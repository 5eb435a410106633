/** What Evaluate decides: the same for every map iteration order, and admissible exactly when every check holds. */
module Admission {
  import opened Floats
  import opened Reasons
  import opened Profiles
  import opened VersionRange
  import opened Planner
  import opened Evaluation

  // ----- map iteration order

  lemma InputTags(p: Profile, r: Request)
    ensures Tagged(UnknownInputs(p), Path(InputField)) && Tagged(FeatureChecks(p, r), Path(InputField))
  {}

  lemma InterferenceTags(p: Profile, observed: map<string, Float>)
    ensures Tagged(UnknownMetrics(p), Path(InterferenceField))
    ensures Tagged(MetricChecks(p, observed), Path(InterferenceField))
  {}

  lemma VersionTags(p: Profile, versions: map<string, string>)
    ensures Tagged(VersionChecks(p, versions), Path(VersionField))
  {}

  lemma SameByKeySelf(a: seq<Reason>)
    ensures SameByKey(a, a)
  {}

  lemma ChecksAgree(p: Profile, r: Request, phase: Phase, ev: Evidence, o: Orders, q: Orders)
    requires ValidOrders(p, r, phase, ev, o) && ValidOrders(p, r, phase, ev, q)
    ensures SameByKey(CheckReasons(p, r, phase, ev, o), CheckReasons(p, r, phase, ev, q))
  {
    hide Path;
    hide Collect;
    hide SameByKey;
    hide Tagged;
    hide Enumerates;
    hide NumericalReasons;
    var observed, versions := Observed(r, phase, ev), Versions(r, phase, ev);
    InputTags(p, r);
    InterferenceTags(p, observed);
    VersionTags(p, versions);
    var a, b := UnknownInputs(p), FeatureChecks(p, r);
    var c, d, e := UnknownMetrics(p), MetricChecks(p, observed), VersionChecks(p, versions);
    IterationOrder(a, Path(InputField), r.inputs.Keys, o.inputs, q.inputs);
    IterationOrder(b, Path(InputField), p.features.Keys, o.features, q.features);
    IterationOrder(c, Path(InterferenceField), observed.Keys, o.observed, q.observed);
    IterationOrder(d, Path(InterferenceField), p.metrics.Keys, o.metrics, q.metrics);
    IterationOrder(e, Path(VersionField), p.versions.Keys, o.versions, q.versions);
    var relations := Collect(RelationChecks(r), p.relations);
    var numerical := NumericalReasons(p, r);
    var missing := Collect(MissingChecks(r, observed), Names(p));
    SameByKeySelf(relations);
    SameByKeySelf(numerical);
    SameByKeySelf(missing);
    var o1, q1 := Collect(a, o.inputs) + Collect(b, o.features), Collect(a, q.inputs) + Collect(b, q.features);
    SameByKeyAppend(Collect(a, o.inputs), Collect(b, o.features), Collect(a, q.inputs), Collect(b, q.features));
    SameByKeyAppend(o1, relations, q1, relations);
    var o2, q2 := Collect(c, o.observed) + Collect(d, o.metrics), Collect(c, q.observed) + Collect(d, q.metrics);
    SameByKeyAppend(Collect(c, o.observed), Collect(d, o.metrics), Collect(c, q.observed), Collect(d, q.metrics));
    SameByKeyAppend(o1 + relations, o2, q1 + relations, q2);
    SameByKeyAppend(o1 + relations + o2, Collect(e, o.versions), q1 + relations + q2, Collect(e, q.versions));
    SameByKeyAppend(o1 + relations + o2 + Collect(e, o.versions), numerical,
                    q1 + relations + q2 + Collect(e, q.versions), numerical);
    SameByKeyAppend(o1 + relations + o2 + Collect(e, o.versions) + numerical, missing,
                    q1 + relations + q2 + Collect(e, q.versions) + numerical, missing);
  }

  /**
   The whole decision, reasons in order included, does not depend on how the maps are iterated, given the
   errors of ValidateProfile and ValidateRequest, which p and r carry.
   */
  lemma EvaluateDeterministic(p: Profile, r: Request, phase: Phase, ev: Evidence, o: Orders, q: Orders)
    requires ValidOrders(p, r, phase, ev, o) && ValidOrders(p, r, phase, ev, q)
    ensures Evaluated(p, r, phase, ev, o) == Evaluated(p, r, phase, ev, q)
  {
    hide Path;
    hide SameByKey;
    hide CheckReasons;
    hide PreambleReasons;
    hide BudgetReasons;
    hide RuntimeReasons;
    hide StableSort;
    hide Figures;
    ChecksAgree(p, r, phase, ev, o, q);
    var before, budget, runtime := PreambleReasons(p, r), BudgetReasons(p, r, phase, ev), RuntimeReasons(p, phase, ev);
    var x, y := CheckReasons(p, r, phase, ev, o), CheckReasons(p, r, phase, ev, q);
    SameByKeySelf(before);
    SameByKeySelf(budget);
    SameByKeySelf(runtime);
    SameByKeyAppend(before, x, before, y);
    SameByKeyAppend(before + x, budget, before + y, budget);
    SameByKeyAppend(before + x + budget, runtime, before + y + budget, runtime);
    StableSortAgrees(AllReasons(p, r, phase, ev, o), AllReasons(p, r, phase, ev, q));
  }

  // ----- the admission condition

  /** The value fits the declared feature. */
  predicate Conforms(spec: FeatureSpec, v: Value)
  {
    match spec.kind
    case NumberKind => v.Number? && WithinRange(spec, v.n)
    case IntegerKind => v.Number? && WithinRange(spec, v.n) && Integral(v.n)
    case CategoryKind => v.Words? && v.s in spec.categories
    case OtherKind => true
  }

  ghost predicate InputsConform(p: Profile, r: Request)
  {
    && r.inputs.Keys <= p.features.Keys
    && (forall name | name in p.features && p.features[name].required :: name in r.inputs)
    && (forall name | name in p.features && name in r.inputs :: Conforms(p.features[name], r.inputs[name]))
    && (forall rel | rel in p.relations :: RelationHolds(r, rel))
  }

  ghost predicate InterferenceWithin(p: Profile, observed: map<string, Float>)
  {
    && observed.Keys == p.metrics.Keys
    && (forall name | name in p.metrics :: WithinEnvelope(p.metrics[name], observed[name]))
  }

  ghost predicate VersionsMatch(p: Profile, versions: map<string, string>)
  {
    && p.versions.Keys <= versions.Keys
    && (forall c | c in p.versions :: MatchText(versions[c], p.versions[c]) == Accepted)
  }

  predicate NumericallyFit(p: Profile, r: Request)
  {
    p.numericalObserved <= p.numericalUpper <= r.maxNumericalError
  }

  ghost predicate FeaturesKnown(p: Profile, r: Request, observed: map<string, Float>)
  {
    forall name | name in p.latency.featureOrder || name in p.ood.features :: Feature(r.inputs, observed, name).Some?
  }

  predicate MeetsDeadline(p: Profile, r: Request, features: map<string, real>)
  {
    Predict(p.latency, features) >= 0.0 && 0.0 <= UpperBound(p.latency, features) <= AvailableTime(r)
  }

  predicate InDistribution(o: Ood, features: map<string, real>)
  {
    o.required ==> 0.0 <= OodScore(o, features) <= o.threshold
  }

  ghost predicate DevicesConform(p: Profile, ev: Evidence)
  {
    && ev.metadata.Some?
    && DevicesFor(ev.metadata.value, RequestName(ev)).Some?
    && var devices := DevicesFor(ev.metadata.value, RequestName(ev)).value;
    && |devices| == p.deviceCount
    && forall dev, a | dev in devices && a in p.assertions ::
         a.attribute in dev.attributes && Satisfies(dev.attributes[a.attribute], a)
  }

  /** Everything a request must meet to be admitted, given the observations and versions in force. */
  ghost predicate Meets(
    p: Profile, r: Request, phase: Phase, ev: Evidence, observed: map<string, Float>, versions: map<string, string>)
  {
    && phase != OtherPhase && p.invalid.None? && r.invalid.None? && p.stale.None?
    && (r.requiredProfile == "" || r.requiredProfile == p.name)
    && InputsConform(p, r)
    && InterferenceWithin(p, observed)
    && VersionsMatch(p, versions)
    && NumericallyFit(p, r)
    && FeaturesKnown(p, r, observed)
    && MeetsDeadline(p, r, Available(r, observed, Names(p)))
    && InDistribution(p.ood, Available(r, observed, Names(p)))
    && (phase == Runtime ==> DevicesConform(p, ev))
  }

  lemma ValueIff(spec: FeatureSpec, name: string, v: Value)
    ensures ValueReasons(spec, name, v) == [] <==> Conforms(spec, v)
  {}

  lemma InputsIff(p: Profile, r: Request, o: Orders)
    requires Enumerates(o.inputs, r.inputs.Keys) && Enumerates(o.features, p.features.Keys)
    ensures InputReasons(p, r, o) == [] <==> InputsConform(p, r)
  {
    hide Path;
    hide ValueReasons;
    hide Conforms;
    hide RelationHolds;
    CollectEmpty(UnknownInputs(p), o.inputs);
    CollectEmpty(FeatureChecks(p, r), o.features);
    CollectEmpty(RelationChecks(r), p.relations);
    hide Collect;
    forall name ensures UnknownInputs(p)(name) == [] <==> name in p.features {
      assert UnknownInputs(p)(name) == UnknownInputReasons(p, name);
    }
    forall name | name in p.features
      ensures FeatureChecks(p, r)(name) == []
         <==> (if name in r.inputs then Conforms(p.features[name], r.inputs[name]) else !p.features[name].required)
    {
      assert FeatureChecks(p, r)(name) == FeatureReasons(p, r, name);
      if name in r.inputs {
        ValueIff(p.features[name], name, r.inputs[name]);
      }
    }
    forall rel ensures RelationChecks(r)(rel) == [] <==> RelationHolds(r, rel) {
      assert RelationChecks(r)(rel) == RelationReasons(r, rel);
    }
    InputReasonsEmpty(p, r, o);
  }

  lemma InputReasonsEmpty(p: Profile, r: Request, o: Orders)
    ensures InputReasons(p, r, o) == []
       <==> Collect(UnknownInputs(p), o.inputs) == [] && Collect(FeatureChecks(p, r), o.features) == []
            && Collect(RelationChecks(r), p.relations) == []
  {}

  lemma InterferenceIff(p: Profile, observed: map<string, Float>, o: Orders)
    requires Enumerates(o.observed, observed.Keys) && Enumerates(o.metrics, p.metrics.Keys)
    ensures InterferenceReasons(p, observed, o) == [] <==> InterferenceWithin(p, observed)
  {
    hide Path;
    hide WithinEnvelope;
    CollectEmpty(UnknownMetrics(p), o.observed);
    CollectEmpty(MetricChecks(p, observed), o.metrics);
    hide Collect;
    forall name ensures UnknownMetrics(p)(name) == [] <==> name in p.metrics {
      assert UnknownMetrics(p)(name) == UnknownMetricReasons(p, name);
    }
    forall name | name in p.metrics
      ensures MetricChecks(p, observed)(name) == []
         <==> name in observed && WithinEnvelope(p.metrics[name], observed[name])
    {
      assert MetricChecks(p, observed)(name) == MetricReasons(p, observed, name);
    }
  }

  lemma VersionsIff(p: Profile, versions: map<string, string>, order: seq<string>)
    requires Enumerates(order, p.versions.Keys)
    ensures Collect(VersionChecks(p, versions), order) == [] <==> VersionsMatch(p, versions)
  {
    hide Path;
    hide MatchText;
    CollectEmpty(VersionChecks(p, versions), order);
    hide Collect;
    forall c | c in p.versions
      ensures VersionChecks(p, versions)(c) == []
         <==> c in versions && MatchText(versions[c], p.versions[c]) == Accepted
    {
      assert VersionChecks(p, versions)(c) == VersionReasons(p, versions, c);
    }
  }

  lemma {:induction false} UnionMembers(names: seq<string>, more: seq<string>, name: string)
    ensures name in Union(names, more) <==> name in names || name in more
  {
    if more != [] {
      UnionMembers(names, more[..|more| - 1], name);
      assert more == more[..|more| - 1] + [more[|more| - 1]];
    }
  }

  lemma FeaturesIff(p: Profile, r: Request, observed: map<string, Float>)
    ensures Collect(MissingChecks(r, observed), Names(p)) == [] <==> FeaturesKnown(p, r, observed)
    ensures AllAvailable(r, observed, Names(p)) <==> FeaturesKnown(p, r, observed)
  {
    hide Path;
    hide Feature;
    hide Resolve;
    hide Union;
    CollectEmpty(MissingChecks(r, observed), Names(p));
    hide Collect;
    forall name ensures MissingChecks(r, observed)(name) == [] <==> Feature(r.inputs, observed, name).Some? {
      assert MissingChecks(r, observed)(name) == MissingReasons(r, observed, name);
    }
    forall name ensures name in Names(p) <==> name in p.latency.featureOrder || name in p.ood.features {
      UnionMembers(p.latency.featureOrder, p.ood.features, name);
    }
  }

  lemma OodIff(p: Profile, r: Request, observed: map<string, Float>)
    requires FeaturesKnown(p, r, observed)
    ensures OodReasons(p.ood, Available(r, observed, Names(p))) == []
       <==> InDistribution(p.ood, Available(r, observed, Names(p)))
  {
    hide Path;
    hide OodScore;
    hide Feature;
    hide Union;
    var features := Available(r, observed, Names(p));
    forall name | name in p.ood.features ensures name in features {
      UnionMembers(p.latency.featureOrder, p.ood.features, name);
    }
    NoneMissing(p.ood.features, features);
  }

  lemma DevicesIff(p: Profile, ev: Evidence)
    ensures RuntimeReasons(p, Runtime, ev) == [] <==> DevicesConform(p, ev)
  {
    hide Path;
    hide Satisfies;
    if ev.metadata.Some? && DevicesFor(ev.metadata.value, RequestName(ev)).Some? {
      var devices := DevicesFor(ev.metadata.value, RequestName(ev)).value;
      CollectEmpty(DeviceChecks(p), devices);
      forall dev
        ensures DeviceChecks(p)(dev) == []
           <==> forall a | a in p.assertions ::
                  a.attribute in dev.attributes && Satisfies(dev.attributes[a.attribute], a)
      {
        CollectEmpty(AssertionChecks(dev), p.assertions);
        assert DeviceChecks(p)(dev) == Collect(AssertionChecks(dev), p.assertions);
        forall a
          ensures AssertionChecks(dev)(a) == []
             <==> a.attribute in dev.attributes && Satisfies(dev.attributes[a.attribute], a)
        {
          assert AssertionChecks(dev)(a) == AssertionReasons(dev, a);
        }
      }
    }
  }

  lemma NoRuntimeReasons(p: Profile, phase: Phase, ev: Evidence)
    ensures phase != Runtime ==> RuntimeReasons(p, phase, ev) == []
  {}

  lemma ChecksIff(p: Profile, r: Request, phase: Phase, ev: Evidence, o: Orders)
    requires ValidOrders(p, r, phase, ev, o)
    ensures CheckReasons(p, r, phase, ev, o) == []
       <==> InputsConform(p, r) && InterferenceWithin(p, Observed(r, phase, ev))
            && VersionsMatch(p, Versions(r, phase, ev)) && NumericallyFit(p, r)
            && FeaturesKnown(p, r, Observed(r, phase, ev))
  {
    hide Path;
    hide Collect;
    hide InputReasons;
    hide InterferenceReasons;
    hide InputsConform;
    hide InterferenceWithin;
    hide VersionsMatch;
    hide FeaturesKnown;
    hide Observed;
    hide Versions;
    hide Enumerates;
    InputsIff(p, r, o);
    InterferenceIff(p, Observed(r, phase, ev), o);
    VersionsIff(p, Versions(r, phase, ev), o.versions);
    FeaturesIff(p, r, Observed(r, phase, ev));
  }

  lemma LatencyIff(p: Profile, r: Request, features: map<string, real>)
    ensures LatencyReasons(p, r, features) == [] <==> MeetsDeadline(p, r, features)
  {
    hide Path;
    hide Predict;
    hide UpperBound;
  }

  lemma BudgetIff(p: Profile, r: Request, phase: Phase, ev: Evidence, observed: map<string, Float>)
    requires observed == Observed(r, phase, ev) && FeaturesKnown(p, r, observed)
    ensures BudgetReasons(p, r, phase, ev) == []
       <==> MeetsDeadline(p, r, Available(r, observed, Names(p)))
            && InDistribution(p.ood, Available(r, observed, Names(p)))
  {
    hide Observed;
    hide AllAvailable;
    hide Available;
    hide LatencyReasons;
    hide OodReasons;
    hide MeetsDeadline;
    hide InDistribution;
    FeaturesIff(p, r, observed);
    OodIff(p, r, observed);
    LatencyIff(p, r, Available(r, observed, Names(p)));
  }

  lemma PreambleIff(p: Profile, r: Request)
    ensures PreambleReasons(p, r) == [] <==>
              p.stale.None? && (r.requiredProfile == "" || r.requiredProfile == p.name)
  {
    hide Path;
  }

  lemma AllReasonsIff(
    p: Profile, r: Request, phase: Phase, ev: Evidence, o: Orders,
    observed: map<string, Float>, versions: map<string, string>)
    requires ValidOrders(p, r, phase, ev, o) && phase != OtherPhase && p.invalid.None? && r.invalid.None?
    requires observed == Observed(r, phase, ev) && versions == Versions(r, phase, ev)
    ensures AllReasons(p, r, phase, ev, o) == [] <==> Meets(p, r, phase, ev, observed, versions)
  {
    hide Observed;
    hide Versions;
    hide CheckReasons;
    hide PreambleReasons;
    hide BudgetReasons;
    hide RuntimeReasons;
    hide InputsConform;
    hide InterferenceWithin;
    hide VersionsMatch;
    hide FeaturesKnown;
    hide MeetsDeadline;
    hide InDistribution;
    hide DevicesConform;
    hide NumericallyFit;
    hide Available;
    ChecksIff(p, r, phase, ev, o);
    hide ValidOrders;
    PreambleIff(p, r);
    NoRuntimeReasons(p, phase, ev);
    if phase == Runtime {
      DevicesIff(p, ev);
    }
    if FeaturesKnown(p, r, observed) {
      BudgetIff(p, r, phase, ev, observed);
    }
  }

  /** A request is admitted exactly when it meets every condition. */
  lemma AdmissibleIff(
    p: Profile, r: Request, phase: Phase, ev: Evidence, o: Orders,
    observed: map<string, Float>, versions: map<string, string>)
    requires ValidOrders(p, r, phase, ev, o)
    requires observed == if phase == Runtime && ev.interference.Some? then ev.interference.value else r.interference
    requires versions == if phase == Runtime && ev.versions.Some? then ev.versions.value else r.versions
    ensures Evaluated(p, r, phase, ev, o).admissible <==> Meets(p, r, phase, ev, observed, versions)
    ensures Evaluated(p, r, phase, ev, o).admissible <==> Evaluated(p, r, phase, ev, o).reasons == []
  {
    assert observed == Observed(r, phase, ev) && versions == Versions(r, phase, ev);
    hide Path;
    hide Observed;
    hide Versions;
    hide ValidOrders;
    hide AllReasons;
    hide StableSort;
    hide HasFeatures;
    hide Features;
    hide Scored;
    if phase != OtherPhase && p.invalid.None? && r.invalid.None? {
      StableSortSpec(AllReasons(p, r, phase, ev, o));
      AllReasonsIff(p, r, phase, ev, o, observed, versions);
      hide Meets;
    }
  }
}
