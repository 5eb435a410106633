/** pkg/statecheck/statecheck.go: the lifecycle trace checker. */
module StateCheck {
  import opened Floats

  datatype EventType = Publish | Revoke | DeviceUpdate | Admit | Dispatch | Complete | Unknown(name: string)

  /** The violated invariant. */
  datatype Rule =
    | TraceWellFormed | NoUncertifiedDispatch | NoStaleProfileReuse | NoPerformanceResurrection
    | AllocationNonReinterpretation | NoNumericalDowngrade

  /** One constructor per message text. */
  datatype Message =
    | NilTrace | UnknownEventType(name: string)
    | MissingPublishFields | BadPublishBound | ActiveRepublished | RevokedDigestRepublished
    | RevokeUnknownProfile | UpdateUnknownProfile | EmptyFingerprint
    | AdmitInactiveProfile | EmptyRequest | BadBudget | AdmittedTwice
    | NoAdmission | BadDispatchBound | DispatchInactiveProfile
    | IdentityDiffers | DeviceChanged | PrecisionDiffers | BudgetExceeded
    | CompleteUnknownRequest

  datatype Event = Event(
    typ: EventType, profile: string, request: string, contractDigest: string, artifactDigest: string,
    deviceFingerprint: string, precision: string, numericalUpperBound: Float, numericalBudget: Float)

  datatype Violation = Violation(index: int, rule: Rule, message: Message)

  datatype Verdict = Verdict(valid: bool, violations: seq<Violation>)

  datatype ProfileState = ProfileState(
    contract: string, artifact: string, device: string, precision: string, numerical: real, active: bool)

  datatype Admission = Admission(
    profile: string, contract: string, artifact: string, device: string, precision: string, numericalBudget: real)

  datatype State = State(
    profiles: map<string, ProfileState>, admissions: map<string, Admission>, tombstones: set<string>)

  /** A violated rule and its message, before the index is attached. */
  datatype Finding = Finding(rule: Rule, message: Message)

  datatype Trace = Nil | Events(events: seq<Event>)

  const INITIAL := State(map[], map[], {})

  predicate FiniteNonNegative(v: Float) { v.Finite? && v.r >= 0.0 }

  // ----- one event as a function of the state

  predicate PublishFields(e: Event)
  {
    && e.profile != "" && e.contractDigest != "" && e.artifactDigest != ""
    && e.deviceFingerprint != "" && e.precision != ""
  }

  function PublishStep(st: State, e: Event): (State, seq<Finding>)
  {
    if !PublishFields(e) then
      (st, [Finding(TraceWellFormed, MissingPublishFields)])
    else if !FiniteNonNegative(e.numericalUpperBound) then
      (st, [Finding(TraceWellFormed, BadPublishBound)])
    else if e.profile in st.profiles && st.profiles[e.profile].active then
      (st, [Finding(NoStaleProfileReuse, ActiveRepublished)])
    else
      var p := ProfileState(e.contractDigest, e.artifactDigest, e.deviceFingerprint, e.precision,
                            e.numericalUpperBound.r, true);
      (st.(profiles := st.profiles[e.profile := p]),
       if e.contractDigest in st.tombstones
       then [Finding(NoPerformanceResurrection, RevokedDigestRepublished)]
       else [])
  }

  function RevokeStep(st: State, e: Event): (State, seq<Finding>)
  {
    if e.profile !in st.profiles then (st, [Finding(TraceWellFormed, RevokeUnknownProfile)])
    else
      var p := st.profiles[e.profile];
      (st.(profiles := st.profiles[e.profile := p.(active := false)], tombstones := st.tombstones + {p.contract}), [])
  }

  function DeviceStep(st: State, e: Event): (State, seq<Finding>)
  {
    if e.profile !in st.profiles then (st, [Finding(TraceWellFormed, UpdateUnknownProfile)])
    else if e.deviceFingerprint == "" then (st, [Finding(TraceWellFormed, EmptyFingerprint)])
    else
      var p := st.profiles[e.profile];
      (st.(profiles := st.profiles[e.profile := p.(device := e.deviceFingerprint)]), [])
  }

  function AdmitStep(st: State, e: Event): (State, seq<Finding>)
  {
    if e.profile !in st.profiles || !st.profiles[e.profile].active then
      (st, [Finding(NoUncertifiedDispatch, AdmitInactiveProfile)])
    else if e.request == "" then (st, [Finding(TraceWellFormed, EmptyRequest)])
    else if !FiniteNonNegative(e.numericalBudget) then
      (st, [Finding(TraceWellFormed, BadBudget)])
    else if e.request in st.admissions then
      (st, [Finding(TraceWellFormed, AdmittedTwice)])
    else
      var p := st.profiles[e.profile];
      var a := Admission(e.profile, p.contract, p.artifact, p.device, p.precision, e.numericalBudget.r);
      (st.(admissions := st.admissions[e.request := a]), [])
  }

  /** The four independent identity checks of a dispatch. */
  function DispatchFindings(p: ProfileState, a: Admission, e: Event): seq<Finding>
    requires e.numericalUpperBound.Finite?
  {
    (if p.contract != a.contract || e.contractDigest != a.contract
        || p.artifact != a.artifact || e.artifactDigest != a.artifact
     then [Finding(NoStaleProfileReuse, IdentityDiffers)] else [])
    + (if p.device != a.device || e.deviceFingerprint != a.device
       then [Finding(AllocationNonReinterpretation, DeviceChanged)] else [])
    + (if p.precision != a.precision || e.precision != a.precision
       then [Finding(NoNumericalDowngrade, PrecisionDiffers)] else [])
    + (if p.numerical > a.numericalBudget || e.numericalUpperBound.r > a.numericalBudget
       then [Finding(NoNumericalDowngrade, BudgetExceeded)] else [])
  }

  function DispatchStep(st: State, e: Event): seq<Finding>
  {
    if e.request !in st.admissions then [Finding(NoUncertifiedDispatch, NoAdmission)]
    else if !FiniteNonNegative(e.numericalUpperBound) then
      [Finding(TraceWellFormed, BadDispatchBound)]
    else
      var a := st.admissions[e.request];
      if a.profile !in st.profiles || !st.profiles[a.profile].active then
        [Finding(NoStaleProfileReuse, DispatchInactiveProfile)]
      else DispatchFindings(st.profiles[a.profile], a, e)
  }

  function CompleteStep(st: State, e: Event): (State, seq<Finding>)
  {
    if e.request !in st.admissions then (st, [Finding(TraceWellFormed, CompleteUnknownRequest)])
    else (st.(admissions := st.admissions - {e.request}), [])
  }

  function Step(st: State, e: Event): (State, seq<Finding>)
  {
    if e.typ.Publish? then PublishStep(st, e)
    else if e.typ.Revoke? then RevokeStep(st, e)
    else if e.typ.DeviceUpdate? then DeviceStep(st, e)
    else if e.typ.Admit? then AdmitStep(st, e)
    else if e.typ.Dispatch? then (st, DispatchStep(st, e))
    else if e.typ.Complete? then CompleteStep(st, e)
    else (st, [Finding(TraceWellFormed, UnknownEventType(e.typ.name))])
  }

  function Tagged(i: int, fs: seq<Finding>): (vs: seq<Violation>)
    ensures |vs| == |fs|
  {
    seq(|fs|, k requires 0 <= k < |fs| => Violation(i, fs[k].rule, fs[k].message))
  }

  /** The state after the first n events. */
  function StateAt(h: seq<Event>, n: nat): State
    requires n <= |h|
  {
    if n == 0 then INITIAL else Step(StateAt(h, n - 1), h[n - 1]).0
  }

  /** What the checker reports at event i. */
  function FindingsAt(h: seq<Event>, i: nat): seq<Finding>
    requires i < |h|
  {
    Step(StateAt(h, i), h[i]).1
  }

  /** The violations reported over the first n events. */
  function ViolationsAt(h: seq<Event>, n: nat): seq<Violation>
    requires n <= |h|
  {
    if n == 0 then [] else ViolationsAt(h, n - 1) + Tagged(n - 1, FindingsAt(h, n - 1))
  }

  // ----- the code

  /** One pass over the trace with three maps, recovering after every violation. */
  method Check(t: Trace) returns (r: Verdict)
    ensures t.Nil? ==> r == Verdict(false, [Violation(-1, TraceWellFormed, NilTrace)])
    ensures t.Events? ==> r.violations == ViolationsAt(t.events, |t.events|)
    ensures r.valid <==> r.violations == []
  {
    if t.Nil? {
      return Verdict(false, [Violation(-1, TraceWellFormed, NilTrace)]);
    }
    var profiles: map<string, ProfileState> := map[];
    var admissions: map<string, Admission> := map[];
    var tombstones: set<string> := {};
    var violations: seq<Violation> := [];
    for i := 0 to |t.events|
      invariant State(profiles, admissions, tombstones) == StateAt(t.events, i)
      invariant violations == ViolationsAt(t.events, i)
    {
      var e := t.events[i];
      ghost var st := State(profiles, admissions, tombstones);
      var found: seq<Finding> := [];
      match e.typ {
        case Publish =>
          profiles, found := CheckPublish(profiles, admissions, tombstones, e);
        case Revoke =>
          if e.profile !in profiles {
            found := [Finding(TraceWellFormed, RevokeUnknownProfile)];
          } else {
            var p := profiles[e.profile];
            profiles := profiles[e.profile := p.(active := false)];
            tombstones := tombstones + {p.contract};
          }
        case DeviceUpdate =>
          if e.profile !in profiles {
            found := [Finding(TraceWellFormed, UpdateUnknownProfile)];
          } else if e.deviceFingerprint == "" {
            found := [Finding(TraceWellFormed, EmptyFingerprint)];
          } else {
            var p := profiles[e.profile];
            profiles := profiles[e.profile := p.(device := e.deviceFingerprint)];
          }
        case Admit =>
          admissions, found := CheckAdmit(profiles, admissions, tombstones, e);
        case Dispatch =>
          found := CheckDispatch(profiles, admissions, tombstones, e);
        case Complete =>
          if e.request !in admissions {
            found := [Finding(TraceWellFormed, CompleteUnknownRequest)];
          } else {
            admissions := admissions - {e.request};
          }
        case Unknown(name) =>
          found := [Finding(TraceWellFormed, UnknownEventType(name))];
      }
      assert (State(profiles, admissions, tombstones), found) == Step(st, e);
      violations := violations + Tagged(i, found);
    }
    return Verdict(violations == [], violations);
  }

  method CheckPublish(profiles: map<string, ProfileState>, ghost admissions: map<string, Admission>,
                 tombstones: set<string>, e: Event)
    returns (profiles': map<string, ProfileState>, found: seq<Finding>)
    ensures (State(profiles', admissions, tombstones), found)
         == PublishStep(State(profiles, admissions, tombstones), e)
  {
    profiles', found := profiles, [];
    if e.profile == "" || e.contractDigest == "" || e.artifactDigest == ""
       || e.deviceFingerprint == "" || e.precision == ""
    {
      found := [Finding(TraceWellFormed, MissingPublishFields)];
      return;
    }
    if !FiniteNonNegative(e.numericalUpperBound) {
      found := [Finding(TraceWellFormed, BadPublishBound)];
      return;
    }
    if e.profile in profiles && profiles[e.profile].active {
      found := [Finding(NoStaleProfileReuse, ActiveRepublished)];
      return;
    }
    if e.contractDigest in tombstones {
      found := [Finding(NoPerformanceResurrection, RevokedDigestRepublished)];
    }
    profiles' := profiles[e.profile := ProfileState(e.contractDigest, e.artifactDigest, e.deviceFingerprint,
                                                    e.precision, e.numericalUpperBound.r, true)];
  }

  method CheckAdmit(profiles: map<string, ProfileState>, admissions: map<string, Admission>,
               ghost tombstones: set<string>, e: Event)
    returns (admissions': map<string, Admission>, found: seq<Finding>)
    ensures (State(profiles, admissions', tombstones), found) == AdmitStep(State(profiles, admissions, tombstones), e)
  {
    admissions', found := admissions, [];
    if e.profile !in profiles || !profiles[e.profile].active {
      found := [Finding(NoUncertifiedDispatch, AdmitInactiveProfile)];
      return;
    }
    if e.request == "" {
      found := [Finding(TraceWellFormed, EmptyRequest)];
      return;
    }
    if !FiniteNonNegative(e.numericalBudget) {
      found := [Finding(TraceWellFormed, BadBudget)];
      return;
    }
    if e.request in admissions {
      found := [Finding(TraceWellFormed, AdmittedTwice)];
      return;
    }
    var p := profiles[e.profile];
    admissions' := admissions[e.request := Admission(e.profile, p.contract, p.artifact, p.device, p.precision,
                                                     e.numericalBudget.r)];
  }

  method CheckDispatch(profiles: map<string, ProfileState>, admissions: map<string, Admission>,
                  ghost tombstones: set<string>, e: Event) returns (found: seq<Finding>)
    ensures found == DispatchStep(State(profiles, admissions, tombstones), e)
  {
    found := [];
    if e.request !in admissions {
      return [Finding(NoUncertifiedDispatch, NoAdmission)];
    }
    var a := admissions[e.request];
    if !FiniteNonNegative(e.numericalUpperBound) {
      return [Finding(TraceWellFormed, BadDispatchBound)];
    }
    if a.profile !in profiles || !profiles[a.profile].active {
      return [Finding(NoStaleProfileReuse, DispatchInactiveProfile)];
    }
    var p := profiles[a.profile];
    if p.contract != a.contract || e.contractDigest != a.contract
       || p.artifact != a.artifact || e.artifactDigest != a.artifact
    {
      found := found + [Finding(NoStaleProfileReuse, IdentityDiffers)];
    }
    if p.device != a.device || e.deviceFingerprint != a.device {
      found := found + [Finding(AllocationNonReinterpretation, DeviceChanged)];
    }
    if p.precision != a.precision || e.precision != a.precision {
      found := found + [Finding(NoNumericalDowngrade, PrecisionDiffers)];
    }
    if p.numerical > a.numericalBudget || e.numericalUpperBound.r > a.numericalBudget {
      found := found + [Finding(NoNumericalDowngrade, BudgetExceeded)];
    }
  }
}
