/** pkg/planner/planner.go: the latency budget, the OOD guard, the device checks, and Evaluate. */
module Evaluation {
  import opened Floats
  import opened Texts
  import opened Reasons
  import opened Profiles
  import opened Planner
  import opened Sums
  import opened OodForm
  import opened OodGate

  // ----- the latency bound

  /** A map entry, 0 when the key is missing. */
  function Lookup(m: map<string, real>, name: string): real { if name in m then m[name] else 0.0 }

  function Term(l: Latency, features: map<string, real>, name: string): real
  {
    Lookup(l.coefficients, name) * Lookup(features, name)
  }

  /** The linear model on the first k features of its order. */
  function PredictFirst(l: Latency, features: map<string, real>, k: nat): real
    requires k <= |l.featureOrder|
  {
    if k == 0 then l.intercept else PredictFirst(l, features, k - 1) + Term(l, features, l.featureOrder[k - 1])
  }

  function Predict(l: Latency, features: map<string, real>): real { PredictFirst(l, features, |l.featureOrder|) }

  function UpperBound(l: Latency, features: map<string, real>): real
  {
    Predict(l, features) + l.residualUpper + l.ioBudget + l.runtimeJitter
  }

  function AvailableTime(r: Request): real { r.deadline - r.safetyMargin }

  function LatencyReasons(p: Profile, r: Request, features: map<string, real>): seq<Reason>
  {
    var upper := UpperBound(p.latency, features);
    (if Predict(p.latency, features) < 0.0 then [Reason(InvalidPrediction, Path(ModelField), PLAIN)] else [])
    + (if upper < 0.0 then [Reason(InvalidLatencyBound, Path(LatencyField), PLAIN)]
       else if upper > AvailableTime(r)
       then [Reason(LatencySloUnsatisfied, Path(DeadlineField), Message([], [upper, AvailableTime(r)]))]
       else [])
  }

  method ValidateLatency(d: Decision, p: Profile, r: Request, features: map<string, real>)
    requires d.Valid()
    modifies d`admissible, d`reasons, d`predicted, d`upper, d`available, d`margin
    ensures d.Valid() && d.reasons == old(d.reasons) + LatencyReasons(p, r, features)
    ensures d.predicted == Predict(p.latency, features) && d.upper == UpperBound(p.latency, features)
    ensures d.available == AvailableTime(r) && d.margin == d.available - d.upper
  {
    hide Path;
    hide Term;
    d.predicted := p.latency.intercept;
    for i := 0 to |p.latency.featureOrder|
      invariant d.Valid() && d.reasons == old(d.reasons)
      invariant d.predicted == PredictFirst(p.latency, features, i)
    {
      d.predicted := d.predicted + Term(p.latency, features, p.latency.featureOrder[i]);
    }
    if d.predicted < 0.0 {
      d.Reject(InvalidPrediction, Path(ModelField), PLAIN);
    }
    d.upper := d.predicted + p.latency.residualUpper + p.latency.ioBudget + p.latency.runtimeJitter;
    d.available := r.deadline - r.safetyMargin;
    d.margin := d.available - d.upper;
    if d.upper < 0.0 {
      d.Reject(InvalidLatencyBound, Path(LatencyField), PLAIN);
    } else if d.upper > d.available {
      d.Reject(LatencySloUnsatisfied, Path(DeadlineField), Message([], [d.upper, d.available]));
    }
  }

  // ----- the out-of-distribution guard

  /** The matrix dimensions that ValidateProfile checks when the guard is required. */
  predicate ShapesMatch(o: Ood)
  {
    o.required ==>
      && |o.mean| == |o.features| && |o.inverse| == |o.features|
      && forall i | 0 <= i < |o.inverse| :: |o.inverse[i]| == |o.features|
  }

  function Delta(o: Ood, features: map<string, real>): RVec
  {
    i => if 0 <= i < |o.features| && i < |o.mean| then Lookup(features, o.features[i]) - o.mean[i] else 0.0
  }

  function FloatRow(row: seq<real>): seq<Float> { seq(|row|, k requires 0 <= k < |row| => Finite(row[k])) }

  /** The inverse covariance as the profile validation reads it. */
  function FloatRows(m: seq<seq<real>>): seq<seq<Float>>
  {
    seq(|m|, i requires 0 <= i < |m| => FloatRow(m[i]))
  }

  function Inverse(o: Ood): RMat { Entry(FloatRows(o.inverse)) }

  /** The Mahalanobis score of the features. */
  function OodScore(o: Ood, features: map<string, real>): real
  {
    Score(Inverse(o), Delta(o, features), |o.features|)
  }

  function FirstMissing(names: seq<string>, features: map<string, real>): Option<string>
  {
    if names == [] then None
    else if names[0] !in features then Some(names[0])
    else FirstMissing(names[1..], features)
  }

  predicate Scored(o: Ood, features: map<string, real>) { o.required && FirstMissing(o.features, features).None? }

  function OodReasons(o: Ood, features: map<string, real>): seq<Reason>
  {
    if !o.required then []
    else
      match FirstMissing(o.features, features)
      case Some(name) => [Reason(OodFeatureMissing, name, PLAIN)]
      case None =>
        var score := OodScore(o, features);
        if score < 0.0 then [Reason(InvalidOodScore, Path(OodField), PLAIN)]
        else if score > o.threshold then [Reason(OodRejected, Path(InputsField), Message([], [score, o.threshold]))]
        else []
  }

  lemma FirstMissingStep(names: seq<string>, features: map<string, real>, i: nat)
    requires i < |names|
    requires forall j | 0 <= j < i :: names[j] in features
    ensures FirstMissing(names, features) == FirstMissing(names[i..], features)
  {
    if i > 0 {
      FirstMissingStep(names, features, i - 1);
    }
  }

  lemma {:induction false} NoneMissing(names: seq<string>, features: map<string, real>)
    ensures FirstMissing(names, features).None? <==> forall name | name in names :: name in features
  {
    if names != [] {
      NoneMissing(names[1..], features);
      assert names == [names[0]] + names[1..];
    }
  }

  lemma ScoreTermAt(o: Ood, d: RVec, i: int, j: int)
    requires o.required && ShapesMatch(o) && 0 <= i < |o.features| && 0 <= j < |o.features|
    ensures ScoreTerms(Inverse(o), d, i)(j) == Triple(d(i), o.inverse[i][j], d(j))
  {
    hide Triple;
    assert FloatRows(o.inverse)[i] == FloatRow(o.inverse[i]);
  }

  method ComputeScore(o: Ood, features: map<string, real>) returns (score: real)
    requires o.required && ShapesMatch(o)
    ensures score == OodScore(o, features)
  {
    hide Triple;
    hide Inverse;
    hide ScoreTerms;
    var n := |o.features|;
    var d := Delta(o, features);
    score := 0.0;
    for i := 0 to n
      invariant score == Sum(ScoreRows(Inverse(o), d, n), i)
    {
      for j := 0 to n
        invariant score == Sum(ScoreRows(Inverse(o), d, n), i) + Sum(ScoreTerms(Inverse(o), d, i), j)
      {
        ScoreTermAt(o, d, i, j);
        score := score + Triple(d(i), o.inverse[i][j], d(j));
      }
      assert ScoreRows(Inverse(o), d, n)(i) == Sum(ScoreTerms(Inverse(o), d, i), n);
    }
  }

  method ValidateOod(d: Decision, p: Profile, features: map<string, real>)
    requires d.Valid() && ShapesMatch(p.ood)
    modifies d`admissible, d`reasons, d`oodScore, d`oodThreshold
    ensures d.Valid() && d.reasons == old(d.reasons) + OodReasons(p.ood, features)
    ensures Scored(p.ood, features) ==> d.oodScore == OodScore(p.ood, features) && d.oodThreshold == p.ood.threshold
    ensures !Scored(p.ood, features) ==> d.oodScore == old(d.oodScore) && d.oodThreshold == old(d.oodThreshold)
  {
    hide Path;
    hide OodScore;
    var o := p.ood;
    if !o.required {
      return;
    }
    for i := 0 to |o.features|
      invariant d.Valid() && d.reasons == old(d.reasons)
      invariant d.oodScore == old(d.oodScore) && d.oodThreshold == old(d.oodThreshold)
      invariant forall j | 0 <= j < i :: o.features[j] in features
    {
      if o.features[i] !in features {
        FirstMissingStep(o.features, features, i);
        d.Reject(OodFeatureMissing, o.features[i], PLAIN);
        return;
      }
    }
    NoneMissing(o.features, features);
    var score := ComputeScore(o, features);
    d.oodScore := score;
    d.oodThreshold := o.threshold;
    if score < 0.0 {
      d.Reject(InvalidOodScore, Path(OodField), PLAIN);
    } else if score > o.threshold {
      d.Reject(OodRejected, Path(InputsField), Message([], [score, o.threshold]));
    }
  }

  // ----- devices

  function AssertionReasons(dev: Device, a: Assertion): seq<Reason>
  {
    var words := Text([dev.driver, dev.pool, dev.name]);
    if a.attribute !in dev.attributes then [Reason(DraAttributeMissing, Path(AttributeField) + a.attribute, words)]
    else if Satisfies(dev.attributes[a.attribute], a) then []
    else [Reason(DraAttributeMismatch, Path(AttributeField) + a.attribute, words)]
  }

  function AssertionChecks(dev: Device): Assertion -> seq<Reason> { a => AssertionReasons(dev, a) }

  ghost function DeviceChecks(p: Profile): Device -> seq<Reason>
  {
    dev => Collect(AssertionChecks(dev), p.assertions)
  }

  ghost function DraReasons(p: Profile, requests: seq<DeviceRequest>, name: string): seq<Reason>
  {
    match DevicesFor(requests, name)
    case None => [Reason(DraRequestMissing, Path(MetadataField), Text([name]))]
    case Some(devices) =>
      (if |devices| != p.deviceCount
       then [Reason(DraDeviceCountMismatch, Path(MetadataField), Message([], [|devices| as real]))] else [])
      + Collect(DeviceChecks(p), devices)
  }

  method ValidateDevice(d: Decision, p: Profile, dev: Device)
    requires d.Valid()
    modifies d`admissible, d`reasons
    ensures d.Valid() && d.reasons == old(d.reasons) + Collect(AssertionChecks(dev), p.assertions)
  {
    hide Path;
    hide Satisfies;
    var order := p.assertions;
    for i := 0 to |order|
      invariant d.Valid() && d.reasons == old(d.reasons) + Collect(AssertionChecks(dev), order[..i])
    {
      var a := order[i];
      CollectStep(old(d.reasons), AssertionChecks(dev), order, i);
      assert AssertionChecks(dev)(a) == AssertionReasons(dev, a);
      if a.attribute !in dev.attributes {
        d.Reject(DraAttributeMissing, Path(AttributeField) + a.attribute, Text([dev.driver, dev.pool, dev.name]));
      } else if !Satisfies(dev.attributes[a.attribute], a) {
        d.Reject(DraAttributeMismatch, Path(AttributeField) + a.attribute, Text([dev.driver, dev.pool, dev.name]));
      }
    }
    assert order[..|order|] == order;
  }

  method ValidateDra(d: Decision, p: Profile, requests: seq<DeviceRequest>, name: string)
    requires d.Valid()
    modifies d`admissible, d`reasons
    ensures d.Valid() && d.reasons == old(d.reasons) + DraReasons(p, requests, name)
  {
    hide Path;
    hide DevicesFor;
    var found := DevicesFor(requests, name);
    if found.None? {
      d.Reject(DraRequestMissing, Path(MetadataField), Text([name]));
      return;
    }
    var devices := found.value;
    if |devices| != p.deviceCount {
      d.Reject(DraDeviceCountMismatch, Path(MetadataField), Message([], [|devices| as real]));
    }
    label Counted:
    for i := 0 to |devices|
      invariant d.Valid() && d.reasons == old@Counted(d.reasons) + Collect(DeviceChecks(p), devices[..i])
    {
      CollectStep(old@Counted(d.reasons), DeviceChecks(p), devices, i);
      assert DeviceChecks(p)(devices[i]) == Collect(AssertionChecks(devices[i]), p.assertions);
      ValidateDevice(d, p, devices[i]);
    }
    assert devices[..|devices|] == devices;
  }

  // ----- Evaluate

  /** The interference observations and versions in force in a phase. */
  function Observed(r: Request, phase: Phase, ev: Evidence): map<string, Float>
  {
    if phase == Runtime && ev.interference.Some? then ev.interference.value else r.interference
  }

  function Versions(r: Request, phase: Phase, ev: Evidence): map<string, string>
  {
    if phase == Runtime && ev.versions.Some? then ev.versions.value else r.versions
  }

  predicate ValidOrders(p: Profile, r: Request, phase: Phase, ev: Evidence, o: Orders)
  {
    && Enumerates(o.inputs, r.inputs.Keys)
    && Enumerates(o.features, p.features.Keys)
    && Enumerates(o.observed, Observed(r, phase, ev).Keys)
    && Enumerates(o.metrics, p.metrics.Keys)
    && Enumerates(o.versions, p.versions.Keys)
  }

  function PreambleReasons(p: Profile, r: Request): seq<Reason>
  {
    (if r.requiredProfile != "" && r.requiredProfile != p.name
     then [Reason(ProfileMismatch, Path(RequiredProfileField), Text([r.requiredProfile]))] else [])
    + (if p.stale.Some? then [Reason(StaleCertificate, Path(ProfileField), Text([p.stale.value]))] else [])
  }

  ghost function CheckReasons(p: Profile, r: Request, phase: Phase, ev: Evidence, o: Orders): seq<Reason>
  {
    InputReasons(p, r, o) + InterferenceReasons(p, Observed(r, phase, ev), o)
    + Collect(VersionChecks(p, Versions(r, phase, ev)), o.versions)
    + NumericalReasons(p, r)
    + Collect(MissingChecks(r, Observed(r, phase, ev)), Names(p))
  }

  function Features(p: Profile, r: Request, phase: Phase, ev: Evidence): map<string, real>
  {
    Available(r, Observed(r, phase, ev), Names(p))
  }

  predicate HasFeatures(p: Profile, r: Request, phase: Phase, ev: Evidence)
  {
    AllAvailable(r, Observed(r, phase, ev), Names(p))
  }

  function BudgetReasons(p: Profile, r: Request, phase: Phase, ev: Evidence): seq<Reason>
  {
    if HasFeatures(p, r, phase, ev)
    then LatencyReasons(p, r, Features(p, r, phase, ev)) + OodReasons(p.ood, Features(p, r, phase, ev))
    else []
  }

  function RequestName(ev: Evidence): string { if ev.requestName == "" then "gpu" else ev.requestName }

  ghost function RuntimeReasons(p: Profile, phase: Phase, ev: Evidence): seq<Reason>
  {
    if phase != Runtime then []
    else if ev.metadata.None? then [Reason(DraMetadataRequired, Path(MetadataField), PLAIN)]
    else DraReasons(p, ev.metadata.value, RequestName(ev))
  }

  /** Every reason, in the order the code appends them. */
  ghost function AllReasons(p: Profile, r: Request, phase: Phase, ev: Evidence, o: Orders): seq<Reason>
  {
    PreambleReasons(p, r) + CheckReasons(p, r, phase, ev, o) + BudgetReasons(p, r, phase, ev)
    + RuntimeReasons(p, phase, ev)
  }

  function Refusal(p: Profile, code: Code, place: Place, words: seq<string>): Outcome
  {
    Outcome(false, p.name, 0.0, 0.0, 0.0, 0.0, 0.0, 0.0, [Reason(code, Path(place), Text(words))])
  }

  /** The figures of a decision with these reasons. */
  function Figures(p: Profile, r: Request, phase: Phase, ev: Evidence, reasons: seq<Reason>): Outcome
  {
    var features := Features(p, r, phase, ev);
    var has := HasFeatures(p, r, phase, ev);
    var scored := has && Scored(p.ood, features);
    Outcome(
      reasons == [], p.name,
      if has then Predict(p.latency, features) else 0.0,
      if has then UpperBound(p.latency, features) else 0.0,
      if has then AvailableTime(r) else 0.0,
      if has then AvailableTime(r) - UpperBound(p.latency, features) else 0.0,
      if scored then OodScore(p.ood, features) else 0.0,
      if scored then p.ood.threshold else 0.0,
      reasons)
  }

  ghost function Evaluated(p: Profile, r: Request, phase: Phase, ev: Evidence, o: Orders): Outcome
  {
    if phase == OtherPhase then Refusal(p, InvalidPhase, PhaseField, [])
    else if p.invalid.Some? then Refusal(p, InvalidProfile, ProfileField, [p.invalid.value])
    else if r.invalid.Some? then Refusal(p, InvalidRequest, RequestField, [r.invalid.value])
    else Figures(p, r, phase, ev, StableSort(AllReasons(p, r, phase, ev, o)))
  }

  method ValidatePreamble(d: Decision, p: Profile, r: Request)
    requires d.Valid()
    modifies d`admissible, d`reasons
    ensures d.Valid() && d.reasons == old(d.reasons) + PreambleReasons(p, r)
  {
    hide Path;
    if r.requiredProfile != "" && r.requiredProfile != p.name {
      d.Reject(ProfileMismatch, Path(RequiredProfileField), Text([r.requiredProfile]));
    }
    if p.stale.Some? {
      d.Reject(StaleCertificate, Path(ProfileField), Text([p.stale.value]));
    }
  }

  /** Everything up to and including modelFeatures. */
  method ValidateChecks(d: Decision, p: Profile, r: Request, phase: Phase, ev: Evidence, o: Orders)
    returns (features: map<string, real>, ok: bool)
    requires d.Valid() && ValidOrders(p, r, phase, ev, o)
    modifies d`admissible, d`reasons
    ensures d.Valid() && d.reasons == old(d.reasons) + CheckReasons(p, r, phase, ev, o)
    ensures features == Features(p, r, phase, ev) && (ok <==> HasFeatures(p, r, phase, ev))
  {
    hide Collect;
    hide InputReasons;
    hide InterferenceReasons;
    hide NumericalReasons;
    hide Available;
    hide AllAvailable;
    hide Enumerates;
    hide VersionChecks;
    hide MissingChecks;
    hide Names;
    hide Path;
    ValidateInputs(d, p, r, o);
    var observed, versions := r.interference, r.versions;
    if phase == Runtime {
      if ev.interference.Some? {
        observed := ev.interference.value;
      }
      if ev.versions.Some? {
        versions := ev.versions.value;
      }
    }
    ValidateInterference(d, p, observed, o);
    ValidateVersions(d, p, versions, o.versions);
    ValidateNumerical(d, p, r);
    features, ok := ModelFeatures(d, p, r, observed);
  }

  method ValidateRuntime(d: Decision, p: Profile, phase: Phase, ev: Evidence)
    requires d.Valid()
    modifies d`admissible, d`reasons
    ensures d.Valid() && d.reasons == old(d.reasons) + RuntimeReasons(p, phase, ev)
  {
    hide Path;
    hide DraReasons;
    if phase == Runtime {
      if ev.metadata.None? {
        d.Reject(DraMetadataRequired, Path(MetadataField), PLAIN);
      } else {
        var requestName := ev.requestName;
        if requestName == "" {
          requestName := "gpu";
        }
        ValidateDra(d, p, ev.metadata.value, requestName);
      }
    }
  }

  method ValidateBudget(d: Decision, p: Profile, r: Request, features: map<string, real>)
    requires d.Valid() && ShapesMatch(p.ood) && d.oodScore == d.oodThreshold == 0.0
    modifies d`admissible, d`reasons, d`predicted, d`upper, d`available, d`margin, d`oodScore, d`oodThreshold
    ensures d.Valid()
    ensures d.reasons == old(d.reasons) + (LatencyReasons(p, r, features) + OodReasons(p.ood, features))
    ensures d.predicted == Predict(p.latency, features) && d.upper == UpperBound(p.latency, features)
    ensures d.available == AvailableTime(r) && d.margin == d.available - d.upper
    ensures d.oodScore == if Scored(p.ood, features) then OodScore(p.ood, features) else 0.0
    ensures d.oodThreshold == if Scored(p.ood, features) then p.ood.threshold else 0.0
  {
    hide LatencyReasons;
    hide OodReasons;
    hide Predict;
    hide UpperBound;
    hide OodScore;
    hide Scored;
    ValidateLatency(d, p, r, features);
    ValidateOod(d, p, features);
  }

  method Evaluate(p: Profile, r: Request, phase: Phase, ev: Evidence, o: Orders) returns (d: Decision)
    requires ValidOrders(p, r, phase, ev, o)
    requires p.invalid.None? ==> ShapesMatch(p.ood)
    ensures fresh(d) && d.Valid()
    ensures d.View() == Evaluated(p, r, phase, ev, o)
  {
    hide Path;
    hide PreambleReasons;
    hide CheckReasons;
    hide LatencyReasons;
    hide OodReasons;
    hide RuntimeReasons;
    hide HasFeatures;
    hide Features;
    hide Predict;
    hide UpperBound;
    hide OodScore;
    hide Scored;
    hide ValidOrders;
    hide StableSort;
    d := new Decision(p.name);
    if phase != Plan && phase != Runtime {
      d.Reject(InvalidPhase, Path(PhaseField), Text([]));
      return;
    }
    if p.invalid.Some? {
      d.Reject(InvalidProfile, Path(ProfileField), Text([p.invalid.value]));
      return;
    }
    if r.invalid.Some? {
      d.Reject(InvalidRequest, Path(RequestField), Text([r.invalid.value]));
      return;
    }
    ValidatePreamble(d, p, r);
    var features, ok := ValidateChecks(d, p, r, phase, ev, o);
    if ok {
      ValidateBudget(d, p, r, features);
    }
    ValidateRuntime(d, p, phase, ev);
    assert d.reasons == AllReasons(p, r, phase, ev, o);
    StableSortSpec(d.reasons);
    d.reasons := StableSort(d.reasons);
  }
}
