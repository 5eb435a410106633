/** pkg/planner/planner.go: rejection reasons and the stable sort that orders them. */
module Reasons {
  import opened Texts

  datatype Code =
    | DraAttributeMismatch | DraAttributeMissing | DraDeviceCountMismatch | DraMetadataRequired | DraRequestMissing
    | EmptyCatalog | InputOutOfRange | InputTypeMismatch | InterferenceOutOfEnvelope | InvalidLatencyBound
    | InvalidModelFeature | InvalidNumericalCertificate | InvalidOodScore | InvalidPhase | InvalidPrediction
    | InvalidProfile | InvalidRequest | InvalidVersion | LatencySloUnsatisfied | MissingInput | MissingInterference
    | MissingVersion | ModelFeatureMissing | NumericalBudgetUnsatisfied | OodFeatureMissing | OodRejected
    | ProfileMismatch | RelationViolation | StaleCertificate | UnknownInput | UnknownInterference | UnseenCategory
    | UnsupportedVersion

  /** The text of a message is not modelled, only the values it is built from. */
  datatype Message = Message(words: seq<string>, numbers: seq<real>)

  datatype Reason = Reason(code: Code, field: string, message: Message)

  function CodeName(c: Code): string
  {
    match c
    case DraAttributeMismatch => "DRA_ATTRIBUTE_MISMATCH"
    case DraAttributeMissing => "DRA_ATTRIBUTE_MISSING"
    case DraDeviceCountMismatch => "DRA_DEVICE_COUNT_MISMATCH"
    case DraMetadataRequired => "DRA_METADATA_REQUIRED"
    case DraRequestMissing => "DRA_REQUEST_MISSING"
    case EmptyCatalog => "EMPTY_CATALOG"
    case InputOutOfRange => "INPUT_OUT_OF_RANGE"
    case InputTypeMismatch => "INPUT_TYPE_MISMATCH"
    case InterferenceOutOfEnvelope => "INTERFERENCE_OUT_OF_ENVELOPE"
    case InvalidLatencyBound => "INVALID_LATENCY_BOUND"
    case InvalidModelFeature => "INVALID_MODEL_FEATURE"
    case InvalidNumericalCertificate => "INVALID_NUMERICAL_CERTIFICATE"
    case InvalidOodScore => "INVALID_OOD_SCORE"
    case InvalidPhase => "INVALID_PHASE"
    case InvalidPrediction => "INVALID_PREDICTION"
    case InvalidProfile => "INVALID_PROFILE"
    case InvalidRequest => "INVALID_REQUEST"
    case InvalidVersion => "INVALID_VERSION"
    case LatencySloUnsatisfied => "LATENCY_SLO_UNSATISFIED"
    case MissingInput => "MISSING_INPUT"
    case MissingInterference => "MISSING_INTERFERENCE"
    case MissingVersion => "MISSING_VERSION"
    case ModelFeatureMissing => "MODEL_FEATURE_MISSING"
    case NumericalBudgetUnsatisfied => "NUMERICAL_BUDGET_UNSATISFIED"
    case OodFeatureMissing => "OOD_FEATURE_MISSING"
    case OodRejected => "OOD_REJECTED"
    case ProfileMismatch => "PROFILE_MISMATCH"
    case RelationViolation => "RELATION_VIOLATION"
    case StaleCertificate => "STALE_CERTIFICATE"
    case UnknownInput => "UNKNOWN_INPUT"
    case UnknownInterference => "UNKNOWN_INTERFERENCE"
    case UnseenCategory => "UNSEEN_CATEGORY"
    case UnsupportedVersion => "UNSUPPORTED_VERSION"
  }

  /** What reasons are sorted by. */
  datatype Key = Key(code: string, field: string)

  function KeyOf(r: Reason): Key { Key(CodeName(r.code), r.field) }

  predicate KeyLess(a: Key, b: Key)
  {
    if a.code == b.code then Less(a.field, b.field) else Less(a.code, b.code)
  }

  lemma KeyOrder(a: Key, b: Key)
    ensures a == b ==> !KeyLess(a, b)
    ensures a != b ==> KeyLess(a, b) != KeyLess(b, a)
  {
    LessTotal(a.code, b.code);
    LessTotal(a.field, b.field);
  }

  lemma KeyTransitive(a: Key, b: Key, c: Key)
    requires !KeyLess(b, a) && !KeyLess(c, b)
    ensures !KeyLess(c, a)
  {
    hide Less;
    LessTotal(a.code, b.code);
    LessTotal(b.code, c.code);
    LessTotal(a.code, c.code);
    LessTotal(a.field, b.field);
    LessTotal(b.field, c.field);
    LessTotal(a.field, c.field);
    if Less(c.code, a.code) && Less(a.code, b.code) {
      LessTransitive(c.code, a.code, b.code);
    }
    if Less(c.field, a.field) && Less(a.field, b.field) {
      LessTransitive(c.field, a.field, b.field);
    }
  }

  // ----- stable sorting

  ghost predicate Sorted(rs: seq<Reason>)
  {
    forall i, j | 0 <= i < j < |rs| :: !KeyLess(KeyOf(rs[j]), KeyOf(rs[i]))
  }

  /** Sorted by the text of the code, and by the field where the codes are the same. */
  lemma SortedIff(rs: seq<Reason>)
    ensures Sorted(rs) <==> forall i, j | 0 <= i < j < |rs| ::
              var a, b := rs[i], rs[j];
              if CodeName(a.code) == CodeName(b.code) then a.field == b.field || Before(a.field, b.field)
              else Before(CodeName(a.code), CodeName(b.code))
  {
    hide CodeName;
    hide Less;
    hide Before;
    forall i, j | 0 <= i < j < |rs|
      ensures var a, b := rs[i], rs[j];
              !KeyLess(KeyOf(b), KeyOf(a))
              <==> if CodeName(a.code) == CodeName(b.code) then a.field == b.field || Before(a.field, b.field)
                   else Before(CodeName(a.code), CodeName(b.code))
    {
      var a, b := rs[i], rs[j];
      LessIsBefore(a.field, b.field);
      LessIsBefore(CodeName(a.code), CodeName(b.code));
      LessTotal(a.field, b.field);
      LessTotal(CodeName(a.code), CodeName(b.code));
    }
  }

  /** The reasons with key k, in order. */
  ghost function With(rs: seq<Reason>, k: Key): (f: seq<Reason>)
    ensures forall r | r in f :: r in rs && KeyOf(r) == k
    ensures f == [] <==> forall r | r in rs :: KeyOf(r) != k
  {
    if rs == [] then []
    else if KeyOf(rs[0]) == k then [rs[0]] + With(rs[1..], k)
    else With(rs[1..], k)
  }

  /** The two lists agree up to reordering reasons of different keys. */
  ghost predicate SameByKey(a: seq<Reason>, b: seq<Reason>) { forall k :: With(a, k) == With(b, k) }

  lemma {:induction false} WithAppend(a: seq<Reason>, b: seq<Reason>, k: Key)
    ensures With(a + b, k) == With(a, k) + With(b, k)
  {
    hide KeyOf;
    if a == [] {
      assert a + b == b;
    } else {
      assert (a + b)[1..] == a[1..] + b;
      WithAppend(a[1..], b, k);
    }
  }

  lemma SameByKeyAppend(a: seq<Reason>, b: seq<Reason>, c: seq<Reason>, d: seq<Reason>)
    requires SameByKey(a, c) && SameByKey(b, d)
    ensures SameByKey(a + b, c + d)
  {
    hide With;
    forall k ensures With(a + b, k) == With(c + d, k) {
      WithAppend(a, b, k);
      WithAppend(c, d, k);
    }
  }

  /** A stable sort is determined by the lists of equal keys: sorted lists that agree by key are equal. */
  lemma {:induction false} SortedUnique(a: seq<Reason>, b: seq<Reason>)
    requires Sorted(a) && Sorted(b) && SameByKey(a, b)
    ensures a == b
  {
    hide KeyOf;
    hide KeyLess;
    if a == [] {
      assert forall k :: With(a, k) == [];
      if b != [] {
        HasKey(b);
      }
    } else {
      SameHead(a, b);
      SameTail(a, b);
      SortedUnique(a[1..], b[1..]);
      assert a == [a[0]] + a[1..] && b == [b[0]] + b[1..];
    }
  }

  lemma HasKey(rs: seq<Reason>)
    requires rs != []
    ensures exists k :: With(rs, k) != []
  {
    assert With(rs, KeyOf(rs[0])) != [];
  }

  lemma SameTail(a: seq<Reason>, b: seq<Reason>)
    requires a != [] && b != [] && a[0] == b[0] && SameByKey(a, b)
    ensures SameByKey(a[1..], b[1..])
  {
    hide KeyOf;
    forall j ensures With(a[1..], j) == With(b[1..], j) {
      assert With(a, j) == With(b, j);
      if KeyOf(a[0]) == j {
        assert With(a, j)[1..] == With(a[1..], j);
        assert With(b, j)[1..] == With(b[1..], j);
      }
    }
  }

  lemma SameHead(a: seq<Reason>, b: seq<Reason>)
    requires Sorted(a) && Sorted(b) && SameByKey(a, b) && a != []
    ensures b != [] && a[0] == b[0]
  {
    hide KeyOf;
    hide KeyLess;
    var k := KeyOf(a[0]);
    assert With(a, k) == With(b, k) && With(a, k) != [];
    var m := KeyOf(b[0]);
    assert With(a, m) == With(b, m) && With(b, m) != [];
    var x :| x in b && KeyOf(x) == k;
    var y :| y in a && KeyOf(y) == m;
    KeyOrder(k, m);
    assert With(a, k)[0] == a[0];
    assert k == m ==> With(b, k)[0] == b[0];
  }

  /** sort.SliceStable with the planner's comparison, as insertion before the first key not below. */
  function Insert(r: Reason, rs: seq<Reason>): seq<Reason>
  {
    if rs == [] || !KeyLess(KeyOf(rs[0]), KeyOf(r)) then [r] + rs else [rs[0]] + Insert(r, rs[1..])
  }

  function StableSort(rs: seq<Reason>): seq<Reason>
  {
    if rs == [] then [] else Insert(rs[0], StableSort(rs[1..]))
  }

  lemma {:induction false} InsertWith(r: Reason, rs: seq<Reason>, k: Key)
    ensures With(Insert(r, rs), k) == (if KeyOf(r) == k then [r] else []) + With(rs, k)
  {
    hide KeyOf;
    hide KeyLess;
    if rs == [] || !KeyLess(KeyOf(rs[0]), KeyOf(r)) {
      assert ([r] + rs)[1..] == rs;
    } else {
      KeyOrder(KeyOf(rs[0]), KeyOf(r));
      InsertWith(r, rs[1..], k);
      assert Insert(r, rs)[1..] == Insert(r, rs[1..]);
    }
  }

  lemma {:induction false} InsertSorted(r: Reason, rs: seq<Reason>)
    requires Sorted(rs)
    ensures Sorted(Insert(r, rs))
    ensures |Insert(r, rs)| == |rs| + 1 && (Insert(r, rs)[0] == r || (rs != [] && Insert(r, rs)[0] == rs[0]))
  {
    hide KeyOf;
    hide KeyLess;
    if rs == [] {
    } else if !KeyLess(KeyOf(rs[0]), KeyOf(r)) {
      forall j | 0 <= j < |rs| ensures !KeyLess(KeyOf(rs[j]), KeyOf(r)) {
        if j > 0 {
          KeyTransitive(KeyOf(r), KeyOf(rs[0]), KeyOf(rs[j]));
        }
      }
    } else {
      var t := Insert(r, rs[1..]);
      InsertSorted(r, rs[1..]);
      KeyOrder(KeyOf(rs[0]), KeyOf(r));
      forall j | 0 <= j < |t| ensures !KeyLess(KeyOf(t[j]), KeyOf(rs[0])) {
        if j > 0 {
          KeyTransitive(KeyOf(rs[0]), KeyOf(t[0]), KeyOf(t[j]));
        }
      }
    }
  }

  /** The sort sorts, keeps the order of equal keys, and drops nothing. */
  lemma {:induction false} StableSortSpec(rs: seq<Reason>)
    ensures Sorted(StableSort(rs)) && SameByKey(StableSort(rs), rs) && |StableSort(rs)| == |rs|
  {
    hide KeyOf;
    hide KeyLess;
    if rs != [] {
      StableSortSpec(rs[1..]);
      InsertSorted(rs[0], StableSort(rs[1..]));
      forall k ensures With(StableSort(rs), k) == With(rs, k) {
        InsertWith(rs[0], StableSort(rs[1..]), k);
        assert With(StableSort(rs[1..]), k) == With(rs[1..], k);
      }
    }
  }

  /** Lists that agree by key sort to the same list. */
  lemma StableSortAgrees(a: seq<Reason>, b: seq<Reason>)
    requires SameByKey(a, b)
    ensures StableSort(a) == StableSort(b)
  {
    hide With;
    StableSortSpec(a);
    StableSortSpec(b);
    forall k ensures With(StableSort(a), k) == With(StableSort(b), k) {
      assert With(StableSort(a), k) == With(a, k) && With(StableSort(b), k) == With(b, k) && With(a, k) == With(b, k);
    }
    SortedUnique(StableSort(a), StableSort(b));
  }

  // ----- reasons collected in a loop

  /** What a loop over ks appends, when f is what each iteration appends. */
  ghost function Collect<T(!new)>(f: T -> seq<Reason>, ks: seq<T>): seq<Reason>
  {
    if ks == [] then [] else Collect(f, ks[..|ks| - 1]) + f(ks[|ks| - 1])
  }

  lemma {:induction false} CollectEmpty<T(!new)>(f: T -> seq<Reason>, ks: seq<T>)
    ensures Collect(f, ks) == [] <==> forall k | k in ks :: f(k) == []
  {
    if ks != [] {
      CollectEmpty(f, ks[..|ks| - 1]);
      assert ks == ks[..|ks| - 1] + [ks[|ks| - 1]];
    }
  }

  /** One step of such a loop, started with the reasons before. */
  lemma CollectStep<T(!new)>(before: seq<Reason>, f: T -> seq<Reason>, ks: seq<T>, i: nat)
    requires i < |ks|
    ensures before + Collect(f, ks[..i + 1]) == before + Collect(f, ks[..i]) + f(ks[i])
  {
    assert ks[..i + 1][..i] == ks[..i];
  }

  predicate Distinct<T(==)>(ks: seq<T>) { forall i, j | 0 <= i < j < |ks| :: ks[i] != ks[j] }

  /** ks is one of the orders in which a map with these keys can be ranged over. */
  predicate Enumerates<T(==)>(ks: seq<T>, keys: set<T>)
  {
    Distinct(ks) && (forall k | k in ks :: k in keys) && (forall k | k in keys :: k in ks)
  }

  /** Every reason for name carries the field prefix + name. */
  ghost predicate Tagged(f: string -> seq<Reason>, prefix: string)
  {
    forall name, r | r in f(name) :: r.field == prefix + name
  }

  lemma AppendInjective(prefix: string, a: string, b: string)
    requires prefix + a == prefix + b
    ensures a == b
  {
    assert (prefix + a)[|prefix|..] == a && (prefix + b)[|prefix|..] == b;
  }

  /** In a tagged loop, all reasons of one key come from one iteration. */
  lemma {:induction false} CollectWith(f: string -> seq<Reason>, prefix: string, ks: seq<string>, name: string, k: Key)
    requires Tagged(f, prefix) && Distinct(ks) && k.field == prefix + name
    ensures With(Collect(f, ks), k) == if name in ks then With(f(name), k) else []
  {
    assert With([], k) == [];
    hide With;
    if ks != [] {
      var front, last := ks[..|ks| - 1], ks[|ks| - 1];
      assert ks == front + [last];
      CollectWith(f, prefix, front, name, k);
      WithAppend(Collect(f, front), f(last), k);
      if last != name && With(f(last), k) != [] {
        var r := With(f(last), k)[0];
        assert r in f(last) && r.field == prefix + name;
        AppendInjective(prefix, last, name);
      }
    }
  }

  lemma {:induction false} CollectFields(f: string -> seq<Reason>, prefix: string, ks: seq<string>, r: Reason)
    requires Tagged(f, prefix) && r in Collect(f, ks)
    ensures |r.field| >= |prefix| && r.field == prefix + r.field[|prefix|..]
  {
    var front, last := ks[..|ks| - 1], ks[|ks| - 1];
    if r in f(last) {
      assert (prefix + last)[|prefix|..] == last;
    } else {
      CollectFields(f, prefix, front, r);
    }
  }

  /** A tagged loop over a map appends the same reasons, by key, in every iteration order. */
  lemma IterationOrder(f: string -> seq<Reason>, prefix: string, keys: set<string>, ks: seq<string>, js: seq<string>)
    requires Tagged(f, prefix) && Enumerates(ks, keys) && Enumerates(js, keys)
    ensures SameByKey(Collect(f, ks), Collect(f, js))
  {
    forall k ensures With(Collect(f, ks), k) == With(Collect(f, js), k) {
      if |k.field| >= |prefix| && k.field == prefix + k.field[|prefix|..] {
        var name := k.field[|prefix|..];
        CollectWith(f, prefix, ks, name, k);
        CollectWith(f, prefix, js, name, k);
      } else {
        OtherFields(f, prefix, ks, k);
        OtherFields(f, prefix, js, k);
      }
    }
  }

  lemma OtherFields(f: string -> seq<Reason>, prefix: string, ks: seq<string>, k: Key)
    requires Tagged(f, prefix)
    requires !(|k.field| >= |prefix| && k.field == prefix + k.field[|prefix|..])
    ensures With(Collect(f, ks), k) == []
  {
    forall r | r in Collect(f, ks) ensures KeyOf(r) != k {
      CollectFields(f, prefix, ks, r);
    }
  }
}
