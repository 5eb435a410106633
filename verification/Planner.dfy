/** pkg/planner/planner.go: Evaluate and its helpers. */
module Planner {
  import opened Floats
  import opened Texts
  import opened Reasons
  import opened Profiles
  import opened VersionRange

  datatype Phase = Plan | Runtime | OtherPhase

  /** The fixed parts of the field names that reasons carry. */
  datatype Place =
    | PhaseField | ProfileField | RequestField | RequiredProfileField | InputsField | InputField
    | InterferenceField | VersionField | NumericalErrorField | NumericalField | ModelField | FeaturesField
    | LatencyField | DeadlineField | OodField | MetadataField | AttributeField

  function Path(p: Place): string
  {
    match p
    case PhaseField => "phase"
    case ProfileField => "profile"
    case RequestField => "request"
    case RequiredProfileField => "spec.requiredProfile"
    case InputsField => "spec.inputs"
    case InputField => "spec.inputs."
    case InterferenceField => "spec.interference."
    case VersionField => "spec.versions."
    case NumericalErrorField => "spec.maxNumericalError"
    case NumericalField => "profile.spec.numerical"
    case ModelField => "spec.latency.model"
    case FeaturesField => "profile.spec.latency.model"
    case LatencyField => "profile.spec.latency"
    case DeadlineField => "spec.deadlineUS"
    case OodField => "profile.spec.ood"
    case MetadataField => "runtime.metadata"
    case AttributeField => "runtime.metadata."
  }

  /** A finished decision as a value. */
  datatype Outcome = Outcome(
    admissible: bool, profile: string, predicted: real, upper: real, available: real, margin: real,
    oodScore: real, oodThreshold: real, reasons: seq<Reason>)

  class Decision {
    var admissible: bool
    var profile: string
    var predicted: real
    var upper: real
    var available: real
    var margin: real
    var oodScore: real
    var oodThreshold: real
    var reasons: seq<Reason>

    ghost predicate Valid() reads this { admissible <==> reasons == [] }

    function View(): Outcome
      reads this
    {
      Outcome(admissible, profile, predicted, upper, available, margin, oodScore, oodThreshold, reasons)
    }

    constructor (name: string)
      ensures Valid() && View() == Outcome(true, name, 0.0, 0.0, 0.0, 0.0, 0.0, 0.0, [])
    {
      admissible, profile, reasons := true, name, [];
      predicted, upper, available, margin, oodScore, oodThreshold := 0.0, 0.0, 0.0, 0.0, 0.0, 0.0;
    }

    method Reject(code: Code, field: string, message: Message)
      modifies `admissible, `reasons
      ensures Valid() && reasons == old(reasons) + [Reason(code, field, message)]
    {
      reasons := reasons + [Reason(code, field, message)];
      admissible := false;
    }
  }

  function Text(words: seq<string>): Message { Message(words, []) }

  const PLAIN := Message([], [])

  /** The orders in which one evaluation ranges over its maps. */
  datatype Orders = Orders(
    inputs: seq<string>, features: seq<string>, observed: seq<string>, metrics: seq<string>, versions: seq<string>)

  // ----- inputs

  function UnknownInputReasons(p: Profile, name: string): seq<Reason>
  {
    if name in p.features then [] else [Reason(UnknownInput, Path(InputField) + name, PLAIN)]
  }

  predicate Integral(n: real) { n == n.Floor as real }

  predicate WithinRange(spec: FeatureSpec, n: real)
  {
    spec.minimum.Some? && spec.maximum.Some? && spec.minimum.value <= n <= spec.maximum.value
  }

  function NumberReasons(spec: FeatureSpec, name: string, n: real): seq<Reason>
  {
    (if spec.kind == IntegerKind && !Integral(n)
     then [Reason(InputTypeMismatch, Path(InputField) + name, PLAIN)] else [])
    + (if WithinRange(spec, n) then [] else [Reason(InputOutOfRange, Path(InputField) + name, Message([], [n]))])
  }

  function ValueReasons(spec: FeatureSpec, name: string, v: Value): seq<Reason>
  {
    match spec.kind
    case OtherKind => []
    case CategoryKind =>
      if !v.Words? then [Reason(InputTypeMismatch, Path(InputField) + name, PLAIN)]
      else if v.s in spec.categories then []
      else [Reason(UnseenCategory, Path(InputField) + name, Text([v.s]))]
    case _ =>
      if !v.Number? then [Reason(InputTypeMismatch, Path(InputField) + name, PLAIN)]
      else NumberReasons(spec, name, v.n)
  }

  function FeatureReasons(p: Profile, r: Request, name: string): seq<Reason>
  {
    if name !in p.features then []
    else if name in r.inputs then ValueReasons(p.features[name], name, r.inputs[name])
    else if p.features[name].required then [Reason(MissingInput, Path(InputField) + name, PLAIN)]
    else []
  }

  predicate RelationHolds(r: Request, rel: Relation)
  {
    var left, right := NumberAt(r.inputs, rel.left), NumberAt(r.inputs, rel.right);
    left.Some? && right.Some? ==> Related(rel.op, left.value, right.value)
  }

  function RelationReasons(r: Request, rel: Relation): seq<Reason>
  {
    if RelationHolds(r, rel) then []
    else [Reason(RelationViolation, Path(InputsField), Text([rel.left, rel.right]))]
  }

  function UnknownInputs(p: Profile): string -> seq<Reason> { name => UnknownInputReasons(p, name) }

  function FeatureChecks(p: Profile, r: Request): string -> seq<Reason> { name => FeatureReasons(p, r, name) }

  function RelationChecks(r: Request): Relation -> seq<Reason> { rel => RelationReasons(r, rel) }

  ghost function InputReasons(p: Profile, r: Request, o: Orders): seq<Reason>
  {
    Collect(UnknownInputs(p), o.inputs) + Collect(FeatureChecks(p, r), o.features)
    + Collect(RelationChecks(r), p.relations)
  }

  method CheckValue(d: Decision, spec: FeatureSpec, name: string, v: Value)
    requires d.Valid()
    modifies d`admissible, d`reasons
    ensures d.Valid() && d.reasons == old(d.reasons) + ValueReasons(spec, name, v)
  {
    hide Path;
    if spec.kind == NumberKind || spec.kind == IntegerKind {
      if !v.Number? {
        d.Reject(InputTypeMismatch, Path(InputField) + name, PLAIN);
        return;
      }
      if spec.kind == IntegerKind && !Integral(v.n) {
        d.Reject(InputTypeMismatch, Path(InputField) + name, PLAIN);
      }
      if spec.minimum.None? || spec.maximum.None? || v.n < spec.minimum.value || v.n > spec.maximum.value {
        d.Reject(InputOutOfRange, Path(InputField) + name, Message([], [v.n]));
      }
    } else if spec.kind == CategoryKind {
      if !v.Words? {
        d.Reject(InputTypeMismatch, Path(InputField) + name, PLAIN);
        return;
      }
      if v.s !in spec.categories {
        d.Reject(UnseenCategory, Path(InputField) + name, Text([v.s]));
      }
    }
  }

  method ValidateUnknown(d: Decision, p: Profile, order: seq<string>)
    requires d.Valid()
    modifies d`admissible, d`reasons
    ensures d.Valid() && d.reasons == old(d.reasons) + Collect(UnknownInputs(p), order)
  {
    hide Path;
    for i := 0 to |order|
      invariant d.Valid() && d.reasons == old(d.reasons) + Collect(UnknownInputs(p), order[..i])
    {
      CollectStep(old(d.reasons), UnknownInputs(p), order, i);
      if order[i] !in p.features {
        d.Reject(UnknownInput, Path(InputField) + order[i], PLAIN);
      }
    }
    assert order[..|order|] == order;
  }

  method ValidateFeatures(d: Decision, p: Profile, r: Request, order: seq<string>)
    requires d.Valid() && Enumerates(order, p.features.Keys)
    modifies d`admissible, d`reasons
    ensures d.Valid() && d.reasons == old(d.reasons) + Collect(FeatureChecks(p, r), order)
  {
    hide Path;
    hide ValueReasons;
    for i := 0 to |order|
      invariant d.Valid() && d.reasons == old(d.reasons) + Collect(FeatureChecks(p, r), order[..i])
    {
      var name := order[i];
      CollectStep(old(d.reasons), FeatureChecks(p, r), order, i);
      assert FeatureChecks(p, r)(name) == FeatureReasons(p, r, name);
      if name !in r.inputs {
        if p.features[name].required {
          d.Reject(MissingInput, Path(InputField) + name, PLAIN);
        }
      } else {
        CheckValue(d, p.features[name], name, r.inputs[name]);
      }
    }
    assert order[..|order|] == order;
  }

  method ValidateRelations(d: Decision, p: Profile, r: Request)
    requires d.Valid()
    modifies d`admissible, d`reasons
    ensures d.Valid() && d.reasons == old(d.reasons) + Collect(RelationChecks(r), p.relations)
  {
    hide Path;
    hide Related;
    var rels := p.relations;
    for i := 0 to |rels|
      invariant d.Valid() && d.reasons == old(d.reasons) + Collect(RelationChecks(r), rels[..i])
    {
      CollectStep(old(d.reasons), RelationChecks(r), rels, i);
      assert RelationChecks(r)(rels[i]) == RelationReasons(r, rels[i]);
      var left, right := NumberAt(r.inputs, rels[i].left), NumberAt(r.inputs, rels[i].right);
      if left.Some? && right.Some? {
        if !Related(rels[i].op, left.value, right.value) {
          d.Reject(RelationViolation, Path(InputsField), Text([rels[i].left, rels[i].right]));
        }
      }
    }
    assert rels[..|rels|] == rels;
  }

  method ValidateInputs(d: Decision, p: Profile, r: Request, o: Orders)
    requires d.Valid() && Enumerates(o.features, p.features.Keys)
    modifies d`admissible, d`reasons
    ensures d.Valid() && d.reasons == old(d.reasons) + InputReasons(p, r, o)
  {
    hide Collect;
    ValidateUnknown(d, p, o.inputs);
    ValidateFeatures(d, p, r, o.features);
    ValidateRelations(d, p, r);
  }

  // ----- interference and versions

  function UnknownMetricReasons(p: Profile, name: string): seq<Reason>
  {
    if name in p.metrics then [] else [Reason(UnknownInterference, Path(InterferenceField) + name, PLAIN)]
  }

  predicate WithinEnvelope(range: Range, v: Float) { v.Finite? && range.minimum <= v.r <= range.maximum }

  function MetricReasons(p: Profile, observed: map<string, Float>, name: string): seq<Reason>
  {
    if name !in p.metrics then []
    else if name !in observed then [Reason(MissingInterference, Path(InterferenceField) + name, PLAIN)]
    else if WithinEnvelope(p.metrics[name], observed[name]) then []
    else [Reason(InterferenceOutOfEnvelope, Path(InterferenceField) + name, PLAIN)]
  }

  function VersionReasons(p: Profile, versions: map<string, string>, component: string): seq<Reason>
  {
    if component !in p.versions then []
    else if component !in versions then [Reason(MissingVersion, Path(VersionField) + component, PLAIN)]
    else
      var words := Text([versions[component], p.versions[component]]);
      match MatchText(versions[component], p.versions[component])
      case Accepted => []
      case Rejected => [Reason(UnsupportedVersion, Path(VersionField) + component, words)]
      case Failed(_) => [Reason(Code.InvalidVersion, Path(VersionField) + component, words)]
  }

  function UnknownMetrics(p: Profile): string -> seq<Reason> { name => UnknownMetricReasons(p, name) }

  function MetricChecks(p: Profile, observed: map<string, Float>): string -> seq<Reason>
  {
    name => MetricReasons(p, observed, name)
  }

  function VersionChecks(p: Profile, versions: map<string, string>): string -> seq<Reason>
  {
    component => VersionReasons(p, versions, component)
  }

  ghost function InterferenceReasons(p: Profile, observed: map<string, Float>, o: Orders): seq<Reason>
  {
    Collect(UnknownMetrics(p), o.observed) + Collect(MetricChecks(p, observed), o.metrics)
  }

  method ValidateUnknownMetrics(d: Decision, p: Profile, order: seq<string>)
    requires d.Valid()
    modifies d`admissible, d`reasons
    ensures d.Valid() && d.reasons == old(d.reasons) + Collect(UnknownMetrics(p), order)
  {
    hide Path;
    for i := 0 to |order|
      invariant d.Valid() && d.reasons == old(d.reasons) + Collect(UnknownMetrics(p), order[..i])
    {
      CollectStep(old(d.reasons), UnknownMetrics(p), order, i);
      if order[i] !in p.metrics {
        d.Reject(UnknownInterference, Path(InterferenceField) + order[i], PLAIN);
      }
    }
    assert order[..|order|] == order;
  }

  method ValidateMetrics(d: Decision, p: Profile, observed: map<string, Float>, order: seq<string>)
    requires d.Valid() && Enumerates(order, p.metrics.Keys)
    modifies d`admissible, d`reasons
    ensures d.Valid() && d.reasons == old(d.reasons) + Collect(MetricChecks(p, observed), order)
  {
    hide Path;
    for i := 0 to |order|
      invariant d.Valid() && d.reasons == old(d.reasons) + Collect(MetricChecks(p, observed), order[..i])
    {
      var name := order[i];
      CollectStep(old(d.reasons), MetricChecks(p, observed), order, i);
      assert MetricChecks(p, observed)(name) == MetricReasons(p, observed, name);
      if name !in observed {
        d.Reject(MissingInterference, Path(InterferenceField) + name, PLAIN);
      } else {
        var v, range := observed[name], p.metrics[name];
        if v.NonFinite? || v.r < range.minimum || v.r > range.maximum {
          d.Reject(InterferenceOutOfEnvelope, Path(InterferenceField) + name, PLAIN);
        }
      }
    }
    assert order[..|order|] == order;
  }

  method ValidateInterference(d: Decision, p: Profile, observed: map<string, Float>, o: Orders)
    requires d.Valid() && Enumerates(o.metrics, p.metrics.Keys)
    modifies d`admissible, d`reasons
    ensures d.Valid() && d.reasons == old(d.reasons) + InterferenceReasons(p, observed, o)
  {
    hide Collect;
    ValidateUnknownMetrics(d, p, o.observed);
    ValidateMetrics(d, p, observed, o.metrics);
  }

  method ValidateVersions(d: Decision, p: Profile, versions: map<string, string>, order: seq<string>)
    requires d.Valid() && Enumerates(order, p.versions.Keys)
    modifies d`admissible, d`reasons
    ensures d.Valid() && d.reasons == old(d.reasons) + Collect(VersionChecks(p, versions), order)
  {
    hide Path;
    hide MatchText;
    for i := 0 to |order|
      invariant d.Valid() && d.reasons == old(d.reasons) + Collect(VersionChecks(p, versions), order[..i])
    {
      var component := order[i];
      CollectStep(old(d.reasons), VersionChecks(p, versions), order, i);
      assert VersionChecks(p, versions)(component) == VersionReasons(p, versions, component);
      if component !in versions {
        d.Reject(MissingVersion, Path(VersionField) + component, PLAIN);
      } else {
        var v, range := versions[component], p.versions[component];
        var matched := MatchVersionRange(v, range);
        if matched.Failed? {
          d.Reject(Code.InvalidVersion, Path(VersionField) + component, Text([v, range]));
        } else if matched.Rejected? {
          d.Reject(UnsupportedVersion, Path(VersionField) + component, Text([v, range]));
        }
      }
    }
    assert order[..|order|] == order;
  }

  // ----- numerical budget

  function NumericalReasons(p: Profile, r: Request): seq<Reason>
  {
    (if p.numericalUpper > r.maxNumericalError
     then [Reason(NumericalBudgetUnsatisfied, Path(NumericalErrorField), PLAIN)] else [])
    + (if p.numericalObserved > p.numericalUpper
       then [Reason(InvalidNumericalCertificate, Path(NumericalField), PLAIN)] else [])
  }

  method ValidateNumerical(d: Decision, p: Profile, r: Request)
    requires d.Valid()
    modifies d`admissible, d`reasons
    ensures d.Valid() && d.reasons == old(d.reasons) + NumericalReasons(p, r)
  {
    hide Path;
    if p.numericalUpper > r.maxNumericalError {
      d.Reject(NumericalBudgetUnsatisfied, Path(NumericalErrorField), PLAIN);
    }
    if p.numericalObserved > p.numericalUpper {
      d.Reject(InvalidNumericalCertificate, Path(NumericalField), PLAIN);
    }
  }

  // ----- model features

  /** names, then those of more that were not seen before. */
  function Union(names: seq<string>, more: seq<string>): seq<string>
  {
    if more == [] then names
    else
      var front := Union(names, more[..|more| - 1]);
      if more[|more| - 1] in front then front else front + [more[|more| - 1]]
  }

  function Names(p: Profile): seq<string> { Union(p.latency.featureOrder, p.ood.features) }

  function MissingReasons(r: Request, observed: map<string, Float>, name: string): seq<Reason>
  {
    if Feature(r.inputs, observed, name).Some? then []
    else
      match Resolve(name)
      case Input(key) => [Reason(ModelFeatureMissing, Path(InputField) + key, PLAIN)]
      case Interference(key) => [Reason(ModelFeatureMissing, Path(InterferenceField) + key, PLAIN)]
      case Other => [Reason(InvalidModelFeature, Path(FeaturesField), Text([name]))]
  }

  function MissingChecks(r: Request, observed: map<string, Float>): string -> seq<Reason>
  {
    name => MissingReasons(r, observed, name)
  }

  /** The available features among names. */
  function Available(r: Request, observed: map<string, Float>, names: seq<string>): map<string, real>
  {
    map name | name in names && Feature(r.inputs, observed, name).Some? :: Feature(r.inputs, observed, name).value
  }

  predicate AllAvailable(r: Request, observed: map<string, Float>, names: seq<string>)
  {
    forall name | name in names :: Feature(r.inputs, observed, name).Some?
  }

  method UnionOf(names: seq<string>, more: seq<string>) returns (all: seq<string>)
    ensures all == Union(names, more)
  {
    all := names;
    var seen := set name | name in names;
    for i := 0 to |more|
      invariant all == Union(names, more[..i])
      invariant forall name :: name in seen <==> name in all
    {
      assert more[..i + 1][..i] == more[..i];
      if more[i] !in seen {
        all := all + [more[i]];
        seen := seen + {more[i]};
      }
    }
    assert more[..|more|] == more;
  }

  method ModelFeature(d: Decision, r: Request, observed: map<string, Float>, name: string) returns (value: Option<real>)
    requires d.Valid()
    modifies d`admissible, d`reasons
    ensures d.Valid() && d.reasons == old(d.reasons) + MissingReasons(r, observed, name)
    ensures value == Feature(r.inputs, observed, name)
  {
    hide Path;
    hide Resolve;
    value := None;
    match Resolve(name)
    case Input(key) =>
      value := NumberAt(r.inputs, key);
      if value.None? {
        d.Reject(ModelFeatureMissing, Path(InputField) + key, PLAIN);
      }
    case Interference(key) =>
      if key !in observed || observed[key].NonFinite? {
        d.Reject(ModelFeatureMissing, Path(InterferenceField) + key, PLAIN);
      } else {
        value := Some(observed[key].r);
      }
    case Other =>
      d.Reject(InvalidModelFeature, Path(FeaturesField), Text([name]));
  }

  lemma AvailableStep(r: Request, observed: map<string, Float>, names: seq<string>, i: nat)
    requires i < |names|
    ensures var v := Feature(r.inputs, observed, names[i]);
            && (v.None? ==> Available(r, observed, names[..i + 1]) == Available(r, observed, names[..i]))
            && (v.Some? ==>
                  Available(r, observed, names[..i + 1]) == Available(r, observed, names[..i])[names[i] := v.value])
    ensures AllAvailable(r, observed, names[..i + 1])
       <==> AllAvailable(r, observed, names[..i]) && Feature(r.inputs, observed, names[i]).Some?
  {}

  method ModelFeatures(d: Decision, p: Profile, r: Request, observed: map<string, Float>)
    returns (out: map<string, real>, ok: bool)
    requires d.Valid()
    modifies d`admissible, d`reasons
    ensures d.Valid() && d.reasons == old(d.reasons) + Collect(MissingChecks(r, observed), Names(p))
    ensures out == Available(r, observed, Names(p))
    ensures ok <==> AllAvailable(r, observed, Names(p))
  {
    hide Feature;
    hide MissingReasons;
    out, ok := map[], true;
    var names := UnionOf(p.latency.featureOrder, p.ood.features);
    for i := 0 to |names|
      invariant d.Valid() && d.reasons == old(d.reasons) + Collect(MissingChecks(r, observed), names[..i])
      invariant out == Available(r, observed, names[..i])
      invariant ok <==> AllAvailable(r, observed, names[..i])
    {
      CollectStep(old(d.reasons), MissingChecks(r, observed), names, i);
      AvailableStep(r, observed, names, i);
      hide Available;
      hide AllAvailable;
      assert MissingChecks(r, observed)(names[i]) == MissingReasons(r, observed, names[i]);
      var value := ModelFeature(d, r, observed, names[i]);
      if value.Some? {
        out := out[names[i] := value.value];
      } else {
        ok := false;
      }
    }
    assert names[..|names|] == names;
  }
}
