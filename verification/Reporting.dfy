/**
 Which reasons a decision carries: for every code and field the exact condition, in terms of the profile, the
 request and the evidence alone. No failure hides another, and none is reported under another's code.
 */
module Reporting {
  import opened Floats
  import opened Texts
  import opened Reasons
  import opened Profiles
  import opened VersionRange
  import opened Planner
  import opened Evaluation
  import Admission

  predicate Reported(rs: seq<Reason>, c: Code, field: string) { exists x :: x in rs && x.code == c && x.field == field }

  // ----- membership in the list of reasons

  lemma ReportedAppend(a: seq<Reason>, b: seq<Reason>, c: Code, field: string)
    ensures Reported(a + b, c, field) <==> Reported(a, c, field) || Reported(b, c, field)
  {}

  lemma {:induction false} InWith(rs: seq<Reason>, x: Reason)
    ensures x in With(rs, KeyOf(x)) <==> x in rs
  {
    hide KeyOf;
    if rs != [] {
      InWith(rs[1..], x);
      assert rs == [rs[0]] + rs[1..];
    }
  }

  /** Sorting changes nothing about what is reported. */
  lemma SortedReports(rs: seq<Reason>, c: Code, field: string)
    ensures Reported(StableSort(rs), c, field) <==> Reported(rs, c, field)
  {
    hide With;
    hide KeyOf;
    StableSortSpec(rs);
    forall x ensures x in StableSort(rs) <==> x in rs {
      InWith(rs, x);
      InWith(StableSort(rs), x);
      assert With(StableSort(rs), KeyOf(x)) == With(rs, KeyOf(x));
    }
  }

  lemma {:induction false} CollectMember<T(!new)>(f: T -> seq<Reason>, ks: seq<T>, x: Reason)
    ensures x in Collect(f, ks) <==> exists k :: k in ks && x in f(k)
  {
    if ks != [] {
      CollectMember(f, ks[..|ks| - 1], x);
      assert ks == ks[..|ks| - 1] + [ks[|ks| - 1]];
    }
  }

  lemma CollectReports<T(!new)>(f: T -> seq<Reason>, ks: seq<T>, c: Code, field: string)
    ensures Reported(Collect(f, ks), c, field) <==> exists k :: k in ks && Reported(f(k), c, field)
  {
    forall x ensures x in Collect(f, ks) <==> exists k :: k in ks && x in f(k) {
      CollectMember(f, ks, x);
    }
  }

  // ----- each code belongs to one stage

  datatype Stage =
    | Gates | Preamble | Inputs | Observations | Components | Numbers | Models | Latencies | Guard | Devices

  function StageOf(c: Code): Stage
  {
    match c
    case InvalidPhase | InvalidProfile | InvalidRequest | EmptyCatalog => Gates
    case ProfileMismatch | StaleCertificate => Preamble
    case UnknownInput | MissingInput | InputTypeMismatch | InputOutOfRange | UnseenCategory => Inputs
    case RelationViolation => Inputs
    case UnknownInterference | MissingInterference | InterferenceOutOfEnvelope => Observations
    case MissingVersion | InvalidVersion | UnsupportedVersion => Components
    case NumericalBudgetUnsatisfied | InvalidNumericalCertificate => Numbers
    case ModelFeatureMissing | InvalidModelFeature => Models
    case InvalidPrediction | InvalidLatencyBound | LatencySloUnsatisfied => Latencies
    case OodFeatureMissing | InvalidOodScore | OodRejected => Guard
    case _ => Devices
  }

  lemma PreambleCodes()
    ensures StageOf(ProfileMismatch) == StageOf(StaleCertificate) == Preamble
  {}

  lemma InputsCodes()
    ensures StageOf(UnknownInput) == StageOf(MissingInput) == StageOf(InputTypeMismatch) == Inputs
    ensures StageOf(InputOutOfRange) == StageOf(UnseenCategory) == StageOf(RelationViolation) == Inputs
  {}

  lemma ObservationsCodes()
    ensures StageOf(UnknownInterference) == Observations
    ensures StageOf(MissingInterference) == StageOf(InterferenceOutOfEnvelope) == Observations
  {}

  lemma ComponentsCodes()
    ensures StageOf(MissingVersion) == StageOf(Code.InvalidVersion) == StageOf(UnsupportedVersion) == Components
  {}

  lemma NumbersCodes()
    ensures StageOf(NumericalBudgetUnsatisfied) == StageOf(InvalidNumericalCertificate) == Numbers
  {}

  lemma ModelsCodes()
    ensures StageOf(ModelFeatureMissing) == StageOf(InvalidModelFeature) == Models
  {}

  lemma LatenciesCodes()
    ensures StageOf(InvalidPrediction) == StageOf(InvalidLatencyBound) == StageOf(LatencySloUnsatisfied) == Latencies
  {}

  lemma GuardCodes()
    ensures StageOf(OodFeatureMissing) == StageOf(InvalidOodScore) == StageOf(OodRejected) == Guard
  {}

  lemma DevicesCodes()
    ensures StageOf(DraAttributeMismatch) == StageOf(DraAttributeMissing) == Devices
    ensures StageOf(DraDeviceCountMismatch) == StageOf(DraMetadataRequired) == StageOf(DraRequestMissing) == Devices
  {}

  ghost predicate From(rs: seq<Reason>, s: Stage) { forall x | x in rs :: StageOf(x.code) == s }

  /** The reasons that one stage appends. */
  ghost function Piece(p: Profile, r: Request, phase: Phase, ev: Evidence, o: Orders, s: Stage): seq<Reason>
  {
    match s
    case Gates => []
    case Preamble => PreambleReasons(p, r)
    case Inputs => InputReasons(p, r, o)
    case Observations => InterferenceReasons(p, Observed(r, phase, ev), o)
    case Components => Collect(VersionChecks(p, Versions(r, phase, ev)), o.versions)
    case Numbers => NumericalReasons(p, r)
    case Models => Collect(MissingChecks(r, Observed(r, phase, ev)), Names(p))
    case Latencies =>
      if HasFeatures(p, r, phase, ev) then LatencyReasons(p, r, Features(p, r, phase, ev)) else []
    case Guard => if HasFeatures(p, r, phase, ev) then OodReasons(p.ood, Features(p, r, phase, ev)) else []
    case Devices => RuntimeReasons(p, phase, ev)
  }

  lemma CollectFrom<T(!new)>(f: T -> seq<Reason>, ks: seq<T>, s: Stage)
    requires forall k :: From(f(k), s)
    ensures From(Collect(f, ks), s)
  {
    forall x | x in Collect(f, ks) ensures StageOf(x.code) == s {
      CollectMember(f, ks, x);
    }
  }

  lemma InputStage(p: Profile, r: Request, o: Orders)
    ensures From(InputReasons(p, r, o), Inputs)
  {
    InputsCodes();
    hide StageOf;
    hide Path;
    hide RelationHolds;
    hide WithinRange;
    hide Integral;
    hide Collect;
    CollectFrom(UnknownInputs(p), o.inputs, Inputs);
    forall name ensures From(FeatureChecks(p, r)(name), Inputs) {
      assert FeatureChecks(p, r)(name) == FeatureReasons(p, r, name);
    }
    CollectFrom(FeatureChecks(p, r), o.features, Inputs);
    CollectFrom(RelationChecks(r), p.relations, Inputs);
    JoinFrom(Collect(UnknownInputs(p), o.inputs), Collect(FeatureChecks(p, r), o.features), Inputs);
  }

  lemma JoinFrom(a: seq<Reason>, b: seq<Reason>, s: Stage)
    requires From(a, s) && From(b, s)
    ensures From(a + b, s)
  {}

  lemma ObservationStage(p: Profile, observed: map<string, Float>, o: Orders)
    ensures From(InterferenceReasons(p, observed, o), Observations)
  {
    ObservationsCodes();
    hide StageOf;
    hide Path;
    hide WithinEnvelope;
    hide Collect;
    CollectFrom(UnknownMetrics(p), o.observed, Observations);
    CollectFrom(MetricChecks(p, observed), o.metrics, Observations);
  }

  lemma ComponentStage(p: Profile, versions: map<string, string>, order: seq<string>)
    ensures From(Collect(VersionChecks(p, versions), order), Components)
  {
    ComponentsCodes();
    hide StageOf;
    hide Path;
    hide MatchText;
    forall c ensures From(VersionChecks(p, versions)(c), Components) {
      assert VersionChecks(p, versions)(c) == VersionReasons(p, versions, c);
    }
    CollectFrom(VersionChecks(p, versions), order, Components);
  }

  lemma ModelStage(p: Profile, r: Request, observed: map<string, Float>)
    ensures From(Collect(MissingChecks(r, observed), Names(p)), Models)
  {
    ModelsCodes();
    hide StageOf;
    hide Path;
    hide Resolve;
    hide Feature;
    CollectFrom(MissingChecks(r, observed), Names(p), Models);
  }

  lemma BudgetStages(p: Profile, r: Request, features: map<string, real>)
    ensures From(LatencyReasons(p, r, features), Latencies) && From(OodReasons(p.ood, features), Guard)
  {
    LatenciesCodes();
    GuardCodes();
    hide StageOf;
    hide Path;
    hide Predict;
    hide UpperBound;
    hide OodScore;
    hide FirstMissing;
  }

  lemma OtherStages(p: Profile, r: Request)
    ensures From(PreambleReasons(p, r), Preamble) && From(NumericalReasons(p, r), Numbers)
  {
    PreambleCodes();
    NumbersCodes();
    hide StageOf;
    hide Path;
  }

  lemma DeviceStage(p: Profile, phase: Phase, ev: Evidence)
    ensures From(RuntimeReasons(p, phase, ev), Devices)
  {
    DevicesCodes();
    hide StageOf;
    hide Satisfies;
    hide Path;
    forall dev: Device ensures From(DeviceChecks(p)(dev), Devices) {
      assert DeviceChecks(p)(dev) == Collect(AssertionChecks(dev), p.assertions);
      CollectFrom(AssertionChecks(dev), p.assertions, Devices);
    }
    hide Collect;
    if phase == Runtime && ev.metadata.Some? && DevicesFor(ev.metadata.value, RequestName(ev)).Some? {
      CollectFrom(DeviceChecks(p), DevicesFor(ev.metadata.value, RequestName(ev)).value, Devices);
    }
  }

  lemma PieceStage(p: Profile, r: Request, phase: Phase, ev: Evidence, o: Orders, s: Stage)
    ensures From(Piece(p, r, phase, ev, o, s), s)
  {
    hide InputReasons;
    hide InterferenceReasons;
    hide PreambleReasons;
    hide NumericalReasons;
    hide LatencyReasons;
    hide OodReasons;
    hide RuntimeReasons;
    hide Collect;
    hide HasFeatures;
    hide Features;
    hide StageOf;
    InputStage(p, r, o);
    ObservationStage(p, Observed(r, phase, ev), o);
    ComponentStage(p, Versions(r, phase, ev), o.versions);
    ModelStage(p, r, Observed(r, phase, ev));
    BudgetStages(p, r, Features(p, r, phase, ev));
    OtherStages(p, r);
    DeviceStage(p, phase, ev);
  }

  /** The evaluation gets past its three early returns. */
  ghost predicate Evaluates(p: Profile, r: Request, phase: Phase, ev: Evidence, o: Orders)
  {
    ValidOrders(p, r, phase, ev, o) && phase in {Plan, Runtime} && p.invalid.None? && r.invalid.None?
  }

  lemma StageOnly(rs: seq<Reason>, s: Stage, c: Code, field: string)
    requires From(rs, s) && StageOf(c) != s
    ensures !Reported(rs, c, field)
  {}

  /** A code is reported exactly when its own stage reports it. */
  lemma Located(p: Profile, r: Request, phase: Phase, ev: Evidence, o: Orders, c: Code, field: string)
    requires Evaluates(p, r, phase, ev, o)
    ensures Reported(Evaluated(p, r, phase, ev, o).reasons, c, field)
       <==> Reported(Piece(p, r, phase, ev, o, StageOf(c)), c, field)
  {
    hide Reported;
    hide StageOf;
    hide From;
    hide StableSort;
    hide PreambleReasons;
    hide InputReasons;
    hide InterferenceReasons;
    hide Collect;
    hide NumericalReasons;
    hide LatencyReasons;
    hide OodReasons;
    hide RuntimeReasons;
    hide HasFeatures;
    hide Features;
    hide ValidOrders;
    hide Path;
    SortedReports(AllReasons(p, r, phase, ev, o), c, field);
    var q := (s: Stage) => Piece(p, r, phase, ev, o, s);
    forall s: Stage ensures Reported(q(s), c, field) ==> StageOf(c) == s {
      PieceStage(p, r, phase, ev, o, s);
      if StageOf(c) != s {
        StageOnly(q(s), s, c, field);
      }
    }
    var checks := q(Inputs) + q(Observations) + q(Components) + q(Numbers) + q(Models);
    ReportedAppend(q(Inputs), q(Observations), c, field);
    ReportedAppend(q(Inputs) + q(Observations), q(Components), c, field);
    ReportedAppend(q(Inputs) + q(Observations) + q(Components), q(Numbers), c, field);
    ReportedAppend(q(Inputs) + q(Observations) + q(Components) + q(Numbers), q(Models), c, field);
    ReportedAppend(q(Preamble), checks, c, field);
    ReportedAppend(q(Latencies), q(Guard), c, field);
    ReportedAppend(q(Preamble) + checks, q(Latencies) + q(Guard), c, field);
    ReportedAppend(q(Preamble) + checks + (q(Latencies) + q(Guard)), q(Devices), c, field);
    NothingReported(c, field);
    assert BudgetReasons(p, r, phase, ev) == q(Latencies) + q(Guard);
    assert CheckReasons(p, r, phase, ev, o) == checks;
    assert AllReasons(p, r, phase, ev, o)
        == q(Preamble) + checks + (q(Latencies) + q(Guard)) + q(Devices);
  }

  /** The reasons of a decision are in order: by code, and by field where the codes are the same. */
  lemma ReasonsSorted(p: Profile, r: Request, phase: Phase, ev: Evidence, o: Orders, i: nat, j: nat)
    requires i < j < |Evaluated(p, r, phase, ev, o).reasons|
    ensures var a, b := Evaluated(p, r, phase, ev, o).reasons[i], Evaluated(p, r, phase, ev, o).reasons[j];
            if CodeName(a.code) == CodeName(b.code) then a.field == b.field || Before(a.field, b.field)
            else Before(CodeName(a.code), CodeName(b.code))
  {
    hide CodeName;
    hide Before;
    hide AllReasons;
    hide Sorted;
    hide Path;
    StableSortSpec(AllReasons(p, r, phase, ev, o));
    SortedIff(StableSort(AllReasons(p, r, phase, ev, o)));
    hide StableSort;
  }

  lemma NothingReported(c: Code, field: string)
    ensures !Reported([], c, field)
  {}

  // ----- loops over maps

  /** A tagged loop reports for a name exactly what that name's iteration appends. */
  lemma TaggedReports(f: string -> seq<Reason>, prefix: string, ks: seq<string>, c: Code, name: string)
    requires Tagged(f, prefix)
    ensures Reported(Collect(f, ks), c, prefix + name) <==> name in ks && Reported(f(name), c, prefix + name)
  {
    CollectReports(f, ks, c, prefix + name);
    forall k | Reported(f(k), c, prefix + name) ensures k == name {
      var x :| x in f(k) && x.code == c && x.field == prefix + name;
      AppendInjective(prefix, k, name);
    }
  }

  lemma NeverReported<T(!new)>(f: T -> seq<Reason>, ks: seq<T>, c: Code, field: string)
    requires forall k :: !Reported(f(k), c, field)
    ensures !Reported(Collect(f, ks), c, field)
  {
    CollectReports(f, ks, c, field);
  }

  // ----- inputs

  /** Within the inputs stage, a code other than a relation's is reported for a name by that name's checks alone. */
  lemma InputLocated(
    p: Profile, r: Request, phase: Phase, ev: Evidence, o: Orders, c: Code, name: string, field: string)
    requires Evaluates(p, r, phase, ev, o) && field == Path(InputField) + name
    requires StageOf(c) == Inputs && c != RelationViolation
    ensures Reported(Evaluated(p, r, phase, ev, o).reasons, c, field)
       <==> (name in r.inputs && Reported(UnknownInputReasons(p, name), c, field))
            || (name in p.features && Reported(FeatureReasons(p, r, name), c, field))
  {
    hide Path;
    hide Reported;
    hide StageOf;
    hide Collect;
    hide Tagged;
    hide FeatureReasons;
    hide Evaluated;
    Located(p, r, phase, ev, o, c, field);
    Admission.InputTags(p, r);
    TaggedReports(UnknownInputs(p), Path(InputField), o.inputs, c, name);
    TaggedReports(FeatureChecks(p, r), Path(InputField), o.features, c, name);
    forall rel: Relation ensures !Reported(RelationChecks(r)(rel), c, field) {
      assert RelationChecks(r)(rel) == RelationReasons(r, rel);
      RelationOnly(r, rel, c, field);
    }
    NeverReported(RelationChecks(r), p.relations, c, field);
    ReportedAppend(Collect(UnknownInputs(p), o.inputs), Collect(FeatureChecks(p, r), o.features), c, field);
    ReportedAppend(Collect(UnknownInputs(p), o.inputs) + Collect(FeatureChecks(p, r), o.features),
                   Collect(RelationChecks(r), p.relations), c, field);
  }

  lemma RelationOnly(r: Request, rel: Relation, c: Code, field: string)
    requires c != RelationViolation
    ensures !Reported(RelationReasons(r, rel), c, field)
  {
    hide RelationHolds;
    hide Path;
  }

  lemma ValueCodes(spec: FeatureSpec, name: string, v: Value)
    ensures var rs, field := ValueReasons(spec, name, v), Path(InputField) + name;
            && !Reported(rs, UnknownInput, field) && !Reported(rs, MissingInput, field)
            && (Reported(rs, InputTypeMismatch, field)
                <==> match spec.kind
                     case NumberKind => !v.Number?
                     case IntegerKind => !v.Number? || v.n != v.n.Floor as real
                     case CategoryKind => !v.Words?
                     case OtherKind => false)
            && (Reported(rs, InputOutOfRange, field)
                <==> spec.kind in {NumberKind, IntegerKind} && v.Number?
                     && !(spec.minimum.Some? && spec.maximum.Some?
                          && spec.minimum.value <= v.n <= spec.maximum.value))
            && (Reported(rs, UnseenCategory, field)
                <==> spec.kind == CategoryKind && v.Words? && v.s !in spec.categories)
  {
    hide Path;
  }

  lemma PresenceCodes(p: Profile, r: Request, name: string)
    ensures var field := Path(InputField) + name;
            && (Reported(UnknownInputReasons(p, name), UnknownInput, field) <==> name !in p.features)
            && !Reported(UnknownInputReasons(p, name), MissingInput, field)
            && !Reported(FeatureReasons(p, r, name), UnknownInput, field)
            && (Reported(FeatureReasons(p, r, name), MissingInput, field)
                <==> name in p.features && p.features[name].required && name !in r.inputs)
  {
    hide Path;
    hide ValueReasons;
    var unknown := Reason(UnknownInput, Path(InputField) + name, PLAIN);
    assert name !in p.features ==> unknown in UnknownInputReasons(p, name);
    if name in p.features && name in r.inputs {
      ValueCodes(p.features[name], name, r.inputs[name]);
    }
  }

  /** Inputs that are unknown or missing. */
  lemma PresenceReported(
    p: Profile, r: Request, phase: Phase, ev: Evidence, o: Orders, name: string, field: string)
    requires Evaluates(p, r, phase, ev, o) && field == "spec.inputs." + name
    ensures var rs := Evaluated(p, r, phase, ev, o).reasons;
            && (Reported(rs, UnknownInput, field) <==> name in r.inputs && name !in p.features)
            && (Reported(rs, MissingInput, field)
                <==> name in p.features && p.features[name].required && name !in r.inputs)
  {
    assert field == Path(InputField) + name;
    hide Path;
    hide Evaluated;
    hide Evaluates;
    hide UnknownInputReasons;
    hide Reported;
    InputsCodes();
    hide StageOf;
    hide FeatureReasons;
    InputLocated(p, r, phase, ev, o, UnknownInput, name, field);
    InputLocated(p, r, phase, ev, o, MissingInput, name, field);
    PresenceCodes(p, r, name);
  }

  /** Inputs whose value does not conform to the declared feature. */
  lemma ValuesReported(
    p: Profile, r: Request, phase: Phase, ev: Evidence, o: Orders, name: string, field: string)
    requires Evaluates(p, r, phase, ev, o) && field == "spec.inputs." + name
    requires name in p.features && name in r.inputs
    ensures var rs, spec, v := Evaluated(p, r, phase, ev, o).reasons, p.features[name], r.inputs[name];
            && (Reported(rs, InputTypeMismatch, field)
                <==> match spec.kind
                     case NumberKind => !v.Number?
                     case IntegerKind => !v.Number? || v.n != v.n.Floor as real
                     case CategoryKind => !v.Words?
                     case OtherKind => false)
            && (Reported(rs, InputOutOfRange, field)
                <==> spec.kind in {NumberKind, IntegerKind} && v.Number?
                     && !(spec.minimum.Some? && spec.maximum.Some?
                          && spec.minimum.value <= v.n <= spec.maximum.value))
            && (Reported(rs, UnseenCategory, field)
                <==> spec.kind == CategoryKind && v.Words? && v.s !in spec.categories)
  {
    assert field == Path(InputField) + name;
    hide Path;
    hide Evaluated;
    hide Evaluates;
    hide ValueReasons;
    hide Reported;
    InputsCodes();
    hide StageOf;
    InputLocated(p, r, phase, ev, o, InputTypeMismatch, name, field);
    InputLocated(p, r, phase, ev, o, InputOutOfRange, name, field);
    InputLocated(p, r, phase, ev, o, UnseenCategory, name, field);
    NothingReported(InputTypeMismatch, field);
    NothingReported(InputOutOfRange, field);
    NothingReported(UnseenCategory, field);
    ValueCodes(p.features[name], name, r.inputs[name]);
  }

  lemma RelationCode(r: Request, rel: Relation)
    ensures Reported(RelationChecks(r)(rel), RelationViolation, Path(InputsField))
       <==> rel.left in r.inputs && rel.right in r.inputs
            && r.inputs[rel.left].Number? && r.inputs[rel.right].Number?
            && !Related(rel.op, r.inputs[rel.left].n, r.inputs[rel.right].n)
  {
    hide Path;
    hide Related;
    assert RelationChecks(r)(rel) == RelationReasons(r, rel);
    var x := Reason(RelationViolation, Path(InputsField), Text([rel.left, rel.right]));
    assert !RelationHolds(r, rel) ==> x in RelationReasons(r, rel);
  }

  lemma RelationsLocated(p: Profile, r: Request, phase: Phase, ev: Evidence, o: Orders, field: string)
    requires Evaluates(p, r, phase, ev, o)
    ensures Reported(Evaluated(p, r, phase, ev, o).reasons, RelationViolation, field)
       <==> Reported(Collect(RelationChecks(r), p.relations), RelationViolation, field)
  {
    var c := RelationViolation;
    hide Path;
    hide Evaluated;
    hide Evaluates;
    hide Collect;
    hide ValueReasons;
    InputsCodes();
    hide StageOf;
    Located(p, r, phase, ev, o, c, field);
    forall name ensures !Reported(UnknownInputs(p)(name), c, field) && !Reported(FeatureChecks(p, r)(name), c, field) {
      assert FeatureChecks(p, r)(name) == FeatureReasons(p, r, name);
      if name in p.features && name in r.inputs {
        NoRelation(p.features[name], name, r.inputs[name], field);
      }
    }
    hide Reported;
    NeverReported(UnknownInputs(p), o.inputs, c, field);
    NeverReported(FeatureChecks(p, r), o.features, c, field);
    ReportedAppend(Collect(UnknownInputs(p), o.inputs), Collect(FeatureChecks(p, r), o.features), c, field);
    ReportedAppend(Collect(UnknownInputs(p), o.inputs) + Collect(FeatureChecks(p, r), o.features),
                   Collect(RelationChecks(r), p.relations), c, field);
  }

  /** A relation between two given numbers is false. */
  lemma RelationsReported(p: Profile, r: Request, phase: Phase, ev: Evidence, o: Orders)
    requires Evaluates(p, r, phase, ev, o)
    ensures Reported(Evaluated(p, r, phase, ev, o).reasons, RelationViolation, "spec.inputs")
       <==> exists rel :: rel in p.relations && rel.left in r.inputs && rel.right in r.inputs
              && r.inputs[rel.left].Number? && r.inputs[rel.right].Number?
              && !Related(rel.op, r.inputs[rel.left].n, r.inputs[rel.right].n)
  {
    assert Path(InputsField) == "spec.inputs";
    hide Path;
    hide Reported;
    hide Related;
    hide Evaluated;
    hide Evaluates;
    hide Collect;
    RelationsLocated(p, r, phase, ev, o, "spec.inputs");
    CollectReports(RelationChecks(r), p.relations, RelationViolation, "spec.inputs");
    forall rel: Relation
      ensures Reported(RelationChecks(r)(rel), RelationViolation, "spec.inputs")
         <==> rel.left in r.inputs && rel.right in r.inputs
              && r.inputs[rel.left].Number? && r.inputs[rel.right].Number?
              && !Related(rel.op, r.inputs[rel.left].n, r.inputs[rel.right].n)
    {
      RelationCode(r, rel);
    }
  }

  lemma NoRelation(spec: FeatureSpec, name: string, v: Value, field: string)
    ensures !Reported(ValueReasons(spec, name, v), RelationViolation, field)
  {
    hide Path;
  }

  // ----- interference and versions; a runtime evaluation reads the evidence where it has any

  lemma MetricCodes(p: Profile, observed: map<string, Float>, name: string)
    ensures var rs, field := MetricReasons(p, observed, name), Path(InterferenceField) + name;
            && !Reported(rs, UnknownInterference, field)
            && (Reported(rs, MissingInterference, field) <==> name in p.metrics && name !in observed)
            && (Reported(rs, InterferenceOutOfEnvelope, field)
                <==> name in p.metrics && name in observed
                     && (observed[name].NonFinite? || observed[name].r < p.metrics[name].minimum
                         || observed[name].r > p.metrics[name].maximum))
    ensures var rs, field := UnknownMetricReasons(p, name), Path(InterferenceField) + name;
            && (Reported(rs, UnknownInterference, field) <==> name !in p.metrics)
            && !Reported(rs, MissingInterference, field) && !Reported(rs, InterferenceOutOfEnvelope, field)
  {
    hide Path;
    var field := Path(InterferenceField) + name;
    assert name !in p.metrics ==> Reason(UnknownInterference, field, PLAIN) in UnknownMetricReasons(p, name);
  }

  lemma MetricLocated(
    p: Profile, r: Request, phase: Phase, ev: Evidence, o: Orders, c: Code, name: string, field: string)
    requires Evaluates(p, r, phase, ev, o) && field == Path(InterferenceField) + name && StageOf(c) == Observations
    ensures var observed := Observed(r, phase, ev);
            Reported(Evaluated(p, r, phase, ev, o).reasons, c, field)
            <==> (name in observed && Reported(UnknownMetricReasons(p, name), c, field))
                 || (name in p.metrics && Reported(MetricReasons(p, observed, name), c, field))
  {
    hide Path;
    hide Reported;
    hide StageOf;
    hide Collect;
    hide Tagged;
    hide MetricReasons;
    hide Evaluated;
    hide Observed;
    var observed := Observed(r, phase, ev);
    Located(p, r, phase, ev, o, c, field);
    Admission.InterferenceTags(p, observed);
    TaggedReports(UnknownMetrics(p), Path(InterferenceField), o.observed, c, name);
    TaggedReports(MetricChecks(p, observed), Path(InterferenceField), o.metrics, c, name);
    ReportedAppend(Collect(UnknownMetrics(p), o.observed), Collect(MetricChecks(p, observed), o.metrics), c, field);
    assert UnknownMetrics(p)(name) == UnknownMetricReasons(p, name);
    assert MetricChecks(p, observed)(name) == MetricReasons(p, observed, name);
  }

  /** Observations that are unknown, missing or outside the envelope. */
  lemma InterferenceReported(
    p: Profile, r: Request, phase: Phase, ev: Evidence, o: Orders, name: string, field: string,
    observed: map<string, Float>)
    requires Evaluates(p, r, phase, ev, o) && field == "spec.interference." + name
    requires observed == if phase == Runtime && ev.interference.Some? then ev.interference.value else r.interference
    ensures var rs := Evaluated(p, r, phase, ev, o).reasons;
            && (Reported(rs, UnknownInterference, field) <==> name in observed && name !in p.metrics)
            && (Reported(rs, MissingInterference, field) <==> name in p.metrics && name !in observed)
            && (Reported(rs, InterferenceOutOfEnvelope, field)
                <==> name in p.metrics && name in observed
                     && (observed[name].NonFinite? || observed[name].r < p.metrics[name].minimum
                         || observed[name].r > p.metrics[name].maximum))
  {
    assert field == Path(InterferenceField) + name;
    hide Path;
    hide Reported;
    hide Evaluated;
    hide Evaluates;
    hide MetricReasons;
    ObservationsCodes();
    hide StageOf;
    MetricLocated(p, r, phase, ev, o, UnknownInterference, name, field);
    MetricLocated(p, r, phase, ev, o, MissingInterference, name, field);
    MetricLocated(p, r, phase, ev, o, InterferenceOutOfEnvelope, name, field);
    MetricCodes(p, observed, name);
  }

  lemma VersionCodes(p: Profile, versions: map<string, string>, name: string)
    requires name in p.versions
    ensures var rs, field := VersionReasons(p, versions, name), Path(VersionField) + name;
            && (Reported(rs, MissingVersion, field) <==> name !in versions)
            && (Reported(rs, Code.InvalidVersion, field)
                <==> name in versions && MatchText(versions[name], p.versions[name]).Failed?)
            && (Reported(rs, UnsupportedVersion, field)
                <==> name in versions && MatchText(versions[name], p.versions[name]).Rejected?)
  {
    hide Path;
    hide MatchText;
  }

  lemma VersionLocated(
    p: Profile, r: Request, phase: Phase, ev: Evidence, o: Orders, c: Code, name: string, field: string)
    requires Evaluates(p, r, phase, ev, o) && field == Path(VersionField) + name && StageOf(c) == Components
    ensures Reported(Evaluated(p, r, phase, ev, o).reasons, c, field)
       <==> name in p.versions && Reported(VersionReasons(p, Versions(r, phase, ev), name), c, field)
  {
    hide Path;
    hide Reported;
    hide StageOf;
    hide Collect;
    hide Tagged;
    hide VersionReasons;
    hide Evaluated;
    hide Versions;
    var versions := Versions(r, phase, ev);
    Located(p, r, phase, ev, o, c, field);
    Admission.VersionTags(p, versions);
    TaggedReports(VersionChecks(p, versions), Path(VersionField), o.versions, c, name);
    assert VersionChecks(p, versions)(name) == VersionReasons(p, versions, name);
  }

  /** Versions that are missing, unreadable or outside their range. */
  lemma VersionsReported(
    p: Profile, r: Request, phase: Phase, ev: Evidence, o: Orders, name: string, field: string,
    versions: map<string, string>)
    requires Evaluates(p, r, phase, ev, o) && field == "spec.versions." + name && name in p.versions
    requires versions == if phase == Runtime && ev.versions.Some? then ev.versions.value else r.versions
    ensures var rs := Evaluated(p, r, phase, ev, o).reasons;
            && (Reported(rs, MissingVersion, field) <==> name !in versions)
            && (Reported(rs, Code.InvalidVersion, field)
                <==> name in versions && MatchText(versions[name], p.versions[name]).Failed?)
            && (Reported(rs, UnsupportedVersion, field)
                <==> name in versions && MatchText(versions[name], p.versions[name]).Rejected?)
  {
    assert field == Path(VersionField) + name;
    hide Path;
    hide Reported;
    hide Evaluated;
    hide Evaluates;
    hide VersionReasons;
    ComponentsCodes();
    hide StageOf;
    VersionLocated(p, r, phase, ev, o, MissingVersion, name, field);
    VersionLocated(p, r, phase, ev, o, Code.InvalidVersion, name, field);
    VersionLocated(p, r, phase, ev, o, UnsupportedVersion, name, field);
    VersionCodes(p, versions, name);
  }

  // ----- the checks outside loops

  lemma OneReported(c: Code, field: string, m: Message, d: Code, other: string)
    ensures Reported([Reason(c, field, m)], d, other) <==> c == d && field == other
  {
    assert Reason(c, field, m) in [Reason(c, field, m)];
  }

  lemma PreambleParts(p: Profile, r: Request)
    ensures Reported(PreambleReasons(p, r), ProfileMismatch, Path(RequiredProfileField))
       <==> r.requiredProfile != "" && r.requiredProfile != p.name
    ensures Reported(PreambleReasons(p, r), StaleCertificate, Path(ProfileField)) <==> p.stale.Some?
  {
    hide Path;
  }

  lemma NumericalParts(p: Profile, r: Request)
    ensures Reported(NumericalReasons(p, r), NumericalBudgetUnsatisfied, Path(NumericalErrorField))
       <==> p.numericalUpper > r.maxNumericalError
    ensures Reported(NumericalReasons(p, r), InvalidNumericalCertificate, Path(NumericalField))
       <==> p.numericalObserved > p.numericalUpper
  {
    hide Path;
  }

  lemma PreamblePaths()
    ensures Path(RequiredProfileField) == "spec.requiredProfile" && Path(ProfileField) == "profile"
  {}

  lemma NumericalPaths()
    ensures Path(NumericalErrorField) == "spec.maxNumericalError" && Path(NumericalField) == "profile.spec.numerical"
  {}

  /** The required profile and the certificate's freshness. */
  lemma PreambleReported(p: Profile, r: Request, phase: Phase, ev: Evidence, o: Orders)
    requires Evaluates(p, r, phase, ev, o)
    ensures var rs := Evaluated(p, r, phase, ev, o).reasons;
            && (Reported(rs, ProfileMismatch, "spec.requiredProfile")
                <==> r.requiredProfile != "" && r.requiredProfile != p.name)
            && (Reported(rs, StaleCertificate, "profile") <==> p.stale.Some?)
  {
    hide Path;
    hide Reported;
    hide Evaluated;
    hide Evaluates;
    hide PreambleReasons;
    PreamblePaths();
    PreambleParts(p, r);
    PreambleCodes();
    hide StageOf;
    Located(p, r, phase, ev, o, ProfileMismatch, Path(RequiredProfileField));
    Located(p, r, phase, ev, o, StaleCertificate, Path(ProfileField));
  }

  /** The numerical budget and its certificate. */
  lemma NumericalReported(p: Profile, r: Request, phase: Phase, ev: Evidence, o: Orders)
    requires Evaluates(p, r, phase, ev, o)
    ensures var rs := Evaluated(p, r, phase, ev, o).reasons;
            && (Reported(rs, NumericalBudgetUnsatisfied, "spec.maxNumericalError")
                <==> p.numericalUpper > r.maxNumericalError)
            && (Reported(rs, InvalidNumericalCertificate, "profile.spec.numerical")
                <==> p.numericalObserved > p.numericalUpper)
  {
    hide Path;
    hide Reported;
    hide Evaluated;
    hide Evaluates;
    hide NumericalReasons;
    NumericalPaths();
    NumericalParts(p, r);
    NumbersCodes();
    hide StageOf;
    Located(p, r, phase, ev, o, NumericalBudgetUnsatisfied, Path(NumericalErrorField));
    Located(p, r, phase, ev, o, InvalidNumericalCertificate, Path(NumericalField));
  }
}
