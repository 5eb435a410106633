/** The parts of pkg/contract/types.go, value.go and pkg/dra/metadata.go that the planner reads. */
module Profiles {
  import opened Floats
  import opened Texts

  datatype Value = Number(n: real) | Words(s: string) | Flag(b: bool) | Unset

  datatype Kind = NumberKind | IntegerKind | CategoryKind | OtherKind

  datatype FeatureSpec = FeatureSpec(
    kind: Kind, required: bool, minimum: Option<real>, maximum: Option<real>, categories: seq<string>)

  datatype RelationOp = LessThan | AtMost | Equal | AtLeast | GreaterThan | OtherRelation

  datatype Relation = Relation(left: string, op: RelationOp, right: string)

  datatype Range = Range(minimum: real, maximum: real)

  datatype Latency = Latency(
    intercept: real, coefficients: map<string, real>, featureOrder: seq<string>,
    residualUpper: real, ioBudget: real, runtimeJitter: real)

  datatype Ood = Ood(
    required: bool, features: seq<string>, mean: seq<real>, inverse: seq<seq<real>>, threshold: real)

  datatype AssertionOp = Eq | Ne | Gte | Lte | Contains | OtherAssertion

  datatype Assertion = Assertion(attribute: string, op: AssertionOp, value: Value)

  /** A profile; invalid and stale are the errors of ValidateProfile and, at the evaluation's time, CertificateFresh. */
  datatype Profile = Profile(
    name: string, features: map<string, FeatureSpec>, relations: seq<Relation>, metrics: map<string, Range>,
    versions: map<string, string>, numericalUpper: real, numericalObserved: real, latency: Latency, ood: Ood,
    deviceCount: int, assertions: seq<Assertion>, invalid: Option<string>, stale: Option<string>)

  /** A request; invalid is the error of ValidateRequest. */
  datatype Request = Request(
    requiredProfile: string, deadline: real, safetyMargin: real, maxNumericalError: real,
    inputs: map<string, Value>, interference: map<string, Float>, versions: map<string, string>,
    invalid: Option<string>)

  datatype Attribute =
    | IntAttribute(int) | BoolAttribute(bool) | StringAttribute(string) | VersionAttribute(string)
    | IntList(ints: seq<int>) | BoolList(bools: seq<bool>)
    | StringList(strings: seq<string>) | VersionList(versions: seq<string>)

  datatype Device = Device(driver: string, pool: string, name: string, attributes: map<string, Attribute>)

  datatype DeviceRequest = DeviceRequest(name: string, devices: seq<Device>)

  /** Runtime observations; metadata is the list of requests in the device metadata. */
  datatype Evidence = Evidence(
    interference: Option<map<string, Float>>, versions: Option<map<string, string>>,
    metadata: Option<seq<DeviceRequest>>, requestName: string)

  // ----- reading them

  /** Value.Number on a map entry, which is unset when the key is missing. */
  function NumberAt(inputs: map<string, Value>, name: string): Option<real>
  {
    if name in inputs && inputs[name].Number? then Some(inputs[name].n) else None
  }

  predicate Related(op: RelationOp, left: real, right: real)
  {
    match op
    case LessThan => left < right
    case AtMost => left <= right
    case Equal => left == right
    case AtLeast => left >= right
    case GreaterThan => left > right
    case OtherRelation => false
  }

  const MAX_EXACT_INTEGER := 0x1f_ffff_ffff_ffff

  function Scalar(a: Attribute): Option<Value>
  {
    match a
    case IntAttribute(i) => if -MAX_EXACT_INTEGER <= i <= MAX_EXACT_INTEGER then Some(Number(i as real)) else None
    case BoolAttribute(b) => Some(Flag(b))
    case StringAttribute(s) => Some(Words(s))
    case VersionAttribute(s) => Some(Words(s))
    case _ => None
  }

  /** equal and equalValue: unset values equal nothing. */
  predicate SameValue(a: Value, b: Value) { a == b && a != Unset }

  predicate HasValue(a: Attribute, v: Value)
  {
    if Scalar(a).Some? then SameValue(Scalar(a).value, v)
    else
      match v
      case Number(n) => a.IntList? && exists i | 0 <= i < |a.ints| :: a.ints[i] as real == n
      case Flag(b) => a.BoolList? && b in a.bools
      case Words(s) => (a.StringList? && s in a.strings) || (a.VersionList? && s in a.versions)
      case Unset => false
  }

  /** assertAttribute. */
  predicate Satisfies(actual: Attribute, a: Assertion)
  {
    if a.op == Contains then HasValue(actual, a.value)
    else if Scalar(actual).None? then false
    else
      var v := Scalar(actual).value;
      match a.op
      case Eq => SameValue(v, a.value)
      case Ne => !SameValue(v, a.value)
      case Gte => v.Number? && a.value.Number? && v.n >= a.value.n
      case Lte => v.Number? && a.value.Number? && v.n <= a.value.n
      case _ => false
  }

  /** DevicesForRequest. */
  function DevicesFor(requests: seq<DeviceRequest>, name: string): Option<seq<Device>>
  {
    if requests == [] then None
    else if requests[0].name == name then Some(requests[0].devices)
    else DevicesFor(requests[1..], name)
  }

  // ----- model features

  datatype Reference = Input(key: string) | Interference(key: string) | Other

  function Drop(prefix: string, name: string): Option<string>
  {
    if prefix <= name then Some(name[|prefix|..]) else None
  }

  function Resolve(name: string): Reference
  {
    match Drop("input.", name)
    case Some(key) => Input(key)
    case None =>
      match Drop("interference.", name)
      case Some(key) => Interference(key)
      case None => Other
  }

  /** The value of a model feature, when it is available. */
  function Feature(inputs: map<string, Value>, observed: map<string, Float>, name: string): Option<real>
  {
    match Resolve(name)
    case Input(key) => NumberAt(inputs, key)
    case Interference(key) => if key in observed && observed[key].Finite? then Some(observed[key].r) else None
    case Other => None
  }

  /** A feature is read from the input or the observation its prefix names. */
  lemma FeatureMeans(inputs: map<string, Value>, observed: map<string, Float>, key: string)
    ensures Feature(inputs, observed, "input." + key)
         == if key in inputs && inputs[key].Number? then Some(inputs[key].n) else None
    ensures Feature(inputs, observed, "interference." + key)
         == if key in observed && observed[key].Finite? then Some(observed[key].r) else None
  {
    ResolveMeans("input." + key, key);
    ResolveMeans("interference." + key, key);
  }

  lemma ResolveMeans(name: string, key: string)
    ensures Resolve(name) == Input(key) <==> name == "input." + key
    ensures Resolve(name) == Interference(key) <==> name == "interference." + key
    ensures Resolve(name) == Other <==> !("input." <= name) && !("interference." <= name)
  {
    if "input." <= name {
      assert name == "input." + name[|"input."|..];
    }
    if "interference." <= name {
      assert name == "interference." + name[|"interference."|..];
      assert name[2] == 't';
    }
    assert ("input." + key)[|"input."|..] == key && ("interference." + key)[|"interference."|..] == key;
    assert ("interference." + key)[2] == 't' && "input."[2] == 'p';
  }

  /** What the five relations mean, read off the order of the two numbers. */
  lemma RelationsMean(left: real, right: real)
    ensures (set op: RelationOp | Related(op, left, right))
         == if left < right then {LessThan, AtMost}
            else if left > right then {AtLeast, GreaterThan}
            else {AtMost, Equal, AtLeast}
  {}

  /** The devices of the first request with the name. */
  lemma {:induction false} DevicesForMeans(requests: seq<DeviceRequest>, name: string)
    ensures DevicesFor(requests, name).None? <==> forall q | q in requests :: q.name != name
    ensures forall k | 0 <= k < |requests| && requests[k].name == name
                       && (forall j | 0 <= j < k :: requests[j].name != name) ::
              DevicesFor(requests, name) == Some(requests[k].devices)
  {
    if requests != [] {
      DevicesForMeans(requests[1..], name);
      assert requests == [requests[0]] + requests[1..];
      forall k | 0 < k < |requests| && requests[k].name == name && (forall j | 0 <= j < k :: requests[j].name != name)
        ensures DevicesFor(requests, name) == Some(requests[k].devices)
      {
        assert requests[0].name != name && requests[1..][k - 1] == requests[k];
        forall j | 0 <= j < k - 1 ensures requests[1..][j].name != name {
          assert requests[1..][j] == requests[j + 1];
        }
      }
    }
  }

  /** An integer that is exact as a float is compared as a number; any other fails every assertion. */
  lemma IntegersSatisfy(i: int, n: real, attribute: string, op: AssertionOp)
    ensures Satisfies(IntAttribute(i), Assertion(attribute, op, Number(n)))
       <==> -9007199254740991 <= i <= 9007199254740991
            && op in (if i as real < n then {Ne, Lte} else if i as real > n then {Ne, Gte}
                      else {Eq, Gte, Lte, Contains})
  {}

  /** Flags, strings and versions are compared for equality with values of their kind. */
  lemma WordsSatisfy(b: bool, f: bool, s: string, t: string, attribute: string, op: AssertionOp)
    ensures Satisfies(BoolAttribute(b), Assertion(attribute, op, Flag(f)))
       <==> op in (if b == f then {Eq, Contains} else {Ne})
    ensures Satisfies(StringAttribute(s), Assertion(attribute, op, Words(t)))
       <==> op in (if s == t then {Eq, Contains} else {Ne})
    ensures Satisfies(VersionAttribute(s), Assertion(attribute, op, Words(t)))
       <==> op in (if s == t then {Eq, Contains} else {Ne})
  {}

  /** A value of another kind, or none, is only different. */
  lemma OtherKindsSatisfy(actual: Attribute, a: Assertion)
    requires match actual
             case IntAttribute(i) => -9007199254740991 <= i <= 9007199254740991 && !a.value.Number?
             case BoolAttribute(_) => !a.value.Flag?
             case StringAttribute(_) => !a.value.Words?
             case VersionAttribute(_) => !a.value.Words?
             case _ => false
    ensures Satisfies(actual, a) <==> a.op == Ne
  {}

  /** A list satisfies an assertion only by containing a value of its kind. */
  lemma ListsSatisfy(ints: seq<int>, bools: seq<bool>, texts: seq<string>, a: Assertion)
    ensures Satisfies(IntList(ints), a)
       <==> a.op == Contains && a.value.Number? && exists i | i in ints :: i as real == a.value.n
    ensures Satisfies(BoolList(bools), a) <==> a.op == Contains && a.value.Flag? && a.value.b in bools
    ensures Satisfies(StringList(texts), a) <==> a.op == Contains && a.value.Words? && a.value.s in texts
    ensures Satisfies(VersionList(texts), a) <==> a.op == Contains && a.value.Words? && a.value.s in texts
  {
    if a.value.Number? {
      assert (exists i | i in ints :: i as real == a.value.n)
        <==> exists k | 0 <= k < |ints| :: ints[k] as real == a.value.n
      by {
        forall k | 0 <= k < |ints| && ints[k] as real == a.value.n
          ensures exists i | i in ints :: i as real == a.value.n
        {
          assert ints[k] in ints;
        }
      }
    }
  }
}
