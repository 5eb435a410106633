/**
 Exactly what the lifecycle checker reports: for every event, from the history alone, which rules with which
 messages, and nothing else; each once, in the order of the events.
 */
module LifecycleReports {
  import opened StateCheck
  import opened StateHistory

  /** The violations of the whole trace. */
  function All(h: History): seq<Violation> { ViolationsAt(h, |h|) }

  lemma {:induction false} MemberIff(h: History, n: nat, v: Violation)
    requires n <= |h|
    ensures v in ViolationsAt(h, n) <==> 0 <= v.index < n && Finding(v.rule, v.message) in FindingsAt(h, v.index)
  {
    hide FindingsAt;
    if n > 0 {
      MemberIff(h, n - 1, v);
      TaggedMember(n - 1, FindingsAt(h, n - 1), v);
    }
  }

  lemma TaggedMember(i: int, fs: seq<Finding>, v: Violation)
    ensures v in Tagged(i, fs) <==> v.index == i && Finding(v.rule, v.message) in fs
  {
    if v.index == i && Finding(v.rule, v.message) in fs {
      var k :| 0 <= k < |fs| && fs[k] == Finding(v.rule, v.message);
      assert Tagged(i, fs)[k] == v;
    }
  }

  /** What the checks read of the state at event i. */
  lemma StateRead(h: History, i: nat, p: string, r: string, c: string)
    requires i <= |h|
    ensures var st := StateAt(h, i);
            && (p in st.profiles <==> Known(h, p, i)) && (Active(h, p, i) ==> Known(h, p, i))
            && (p in st.profiles ==> (st.profiles[p].active <==> Active(h, p, i)))
            && (r in st.admissions <==> Live(h, r, i)) && (c in st.tombstones <==> Tombstoned(h, c, i))
  {
    hide Active;
    hide Known;
    hide Live;
    hide Tombstoned;
    StateAgrees(h, i);
    assert ProfileAgrees(h, i, StateAt(h, i).profiles, p);
    assert AdmissionAgrees(h, i, StateAt(h, i).admissions, r);
    KnownHasLatest(h, p, i);
  }

  // ----- publications

  /** A publication is malformed, or republishes an active profile, or resurrects a revoked digest. */
  lemma PublishReported(h: History, i: nat, rule: Rule, message: Message)
    requires i < |h| && h[i].typ.Publish?
    ensures var e := h[i];
            var missing := e.profile == "" || e.contractDigest == "" || e.artifactDigest == ""
                           || e.deviceFingerprint == "" || e.precision == "";
            var bad := e.numericalUpperBound.NonFinite? || e.numericalUpperBound.r < 0.0;
            Violation(i, rule, message) in All(h)
            <==> || (rule == TraceWellFormed && message == MissingPublishFields && missing)
                 || (rule == TraceWellFormed && message == BadPublishBound && !missing && bad)
                 || (rule == NoStaleProfileReuse && message == ActiveRepublished
                     && !missing && !bad && Active(h, e.profile, i))
                 || (rule == NoPerformanceResurrection && message == RevokedDigestRepublished
                     && !missing && !bad && !Active(h, e.profile, i) && Tombstoned(h, e.contractDigest, i))
  {
    hide Active;
    hide Known;
    hide Live;
    hide Tombstoned;
    hide RevokeStep;
    hide DeviceStep;
    hide AdmitStep;
    hide DispatchStep;
    hide CompleteStep;
    MemberIff(h, |h|, Violation(i, rule, message));
    hide ViolationsAt;
    StateRead(h, i, h[i].profile, h[i].request, h[i].contractDigest);
    hide StateAt;
  }

  // ----- revocations, device updates, completions, unknown events

  /** A revocation of a profile that was never published. */
  lemma RevokeReported(h: History, i: nat, rule: Rule, message: Message)
    requires i < |h| && h[i].typ.Revoke?
    ensures Violation(i, rule, message) in All(h)
       <==> rule == TraceWellFormed && message == RevokeUnknownProfile && !Known(h, h[i].profile, i)
  {
    hide Active;
    hide Known;
    hide Live;
    hide Tombstoned;
    hide PublishStep;
    hide DeviceStep;
    hide AdmitStep;
    hide DispatchStep;
    hide CompleteStep;
    MemberIff(h, |h|, Violation(i, rule, message));
    hide ViolationsAt;
    StateRead(h, i, h[i].profile, h[i].request, h[i].contractDigest);
    hide StateAt;
  }

  /** A device update of a profile that was never published, or to an empty fingerprint. */
  lemma DeviceReported(h: History, i: nat, rule: Rule, message: Message)
    requires i < |h| && h[i].typ.DeviceUpdate?
    ensures Violation(i, rule, message) in All(h)
       <==> || (rule == TraceWellFormed && message == UpdateUnknownProfile && !Known(h, h[i].profile, i))
            || (rule == TraceWellFormed && message == EmptyFingerprint
                && Known(h, h[i].profile, i) && h[i].deviceFingerprint == "")
  {
    hide Active;
    hide Known;
    hide Live;
    hide Tombstoned;
    hide PublishStep;
    hide RevokeStep;
    hide AdmitStep;
    hide DispatchStep;
    hide CompleteStep;
    MemberIff(h, |h|, Violation(i, rule, message));
    hide ViolationsAt;
    StateRead(h, i, h[i].profile, h[i].request, h[i].contractDigest);
    hide StateAt;
  }

  /** A completion of a request that is not live, and an event of an unknown type. */
  lemma OtherReported(h: History, i: nat, rule: Rule, message: Message)
    requires i < |h| && (h[i].typ.Complete? || h[i].typ.Unknown?)
    ensures Violation(i, rule, message) in All(h)
       <==> rule == TraceWellFormed &&
            match h[i].typ
            case Unknown(name) => message == UnknownEventType(name)
            case _ => message == CompleteUnknownRequest && !Live(h, h[i].request, i)
  {
    hide Active;
    hide Known;
    hide Live;
    hide Tombstoned;
    hide PublishStep;
    hide RevokeStep;
    hide DeviceStep;
    hide AdmitStep;
    hide DispatchStep;
    MemberIff(h, |h|, Violation(i, rule, message));
    hide ViolationsAt;
    StateRead(h, i, h[i].profile, h[i].request, h[i].contractDigest);
    hide StateAt;
  }

  // ----- admissions and dispatches

  lemma AdmitFindings(st: State, e: Event)
    requires e.typ.Admit?
    ensures Step(st, e).1
         == if e.profile !in st.profiles || !st.profiles[e.profile].active
            then [Finding(NoUncertifiedDispatch, AdmitInactiveProfile)]
            else if e.request == "" then [Finding(TraceWellFormed, EmptyRequest)]
            else if e.numericalBudget.NonFinite? || e.numericalBudget.r < 0.0
            then [Finding(TraceWellFormed, BadBudget)]
            else if e.request in st.admissions then [Finding(TraceWellFormed, AdmittedTwice)]
            else []
  {}

  /** An admission under an inactive profile, without a request or a budget, or of a request that is live. */
  lemma AdmitReported(h: History, i: nat, rule: Rule, message: Message)
    requires i < |h| && h[i].typ.Admit?
    ensures var e, active := h[i], Active(h, h[i].profile, i);
            var bad := e.numericalBudget.NonFinite? || e.numericalBudget.r < 0.0;
            Violation(i, rule, message) in All(h)
            <==> || (rule == NoUncertifiedDispatch && message == AdmitInactiveProfile && !active)
                 || (rule == TraceWellFormed && message == EmptyRequest && active && e.request == "")
                 || (rule == TraceWellFormed && message == BadBudget && active && e.request != "" && bad)
                 || (rule == TraceWellFormed && message == AdmittedTwice
                     && active && e.request != "" && !bad && Live(h, e.request, i))
  {
    hide Active;
    hide Known;
    hide Live;
    hide Tombstoned;
    MemberIff(h, |h|, Violation(i, rule, message));
    hide ViolationsAt;
    StateRead(h, i, h[i].profile, h[i].request, h[i].contractDigest);
    hide StateAt;
    AdmitFindings(StateAt(h, i), h[i]);
    hide Step;
  }

  /** A dispatch of a request that is not live. */
  lemma UnadmittedReported(h: History, i: nat, rule: Rule, message: Message)
    requires i < |h| && h[i].typ.Dispatch? && !Live(h, h[i].request, i)
    ensures Violation(i, rule, message) in All(h) <==> rule == NoUncertifiedDispatch && message == NoAdmission
  {
    hide Active;
    hide Known;
    hide Live;
    hide Tombstoned;
    hide PublishStep;
    hide RevokeStep;
    hide DeviceStep;
    hide AdmitStep;
    hide CompleteStep;
    MemberIff(h, |h|, Violation(i, rule, message));
    hide ViolationsAt;
    StateRead(h, i, h[i].profile, h[i].request, h[i].contractDigest);
    hide StateAt;
  }

  /** What a dispatch is compared with: the live admission, and its profile's publication and device then and now. */
  datatype Record = Record(admit: nat, before: nat, now: nat, deviceBefore: nat, deviceNow: nat)

  ghost predicate Recalls(h: History, i: nat, c: Record)
    requires i < |h|
  {
    && Live(h, h[i].request, i) && c.admit == LatestAdmit(h, h[i].request, i)
    && var p := h[c.admit].profile;
    && c.before == LatestPublish(h, p, c.admit) && c.deviceBefore == LatestDevice(h, p, c.admit)
    && c.now == LatestPublish(h, p, i) && c.deviceNow == LatestDevice(h, p, i)
  }

  /** A live request has all five. */
  lemma RecordExists(h: History, i: nat) returns (c: Record)
    requires i < |h| && Live(h, h[i].request, i)
    ensures Recalls(h, i, c)
    ensures GoodPublish(h[c.before]) && GoodPublish(h[c.now]) && GoodAdmit(h, c.admit)
    ensures h[c.before].profile == h[c.now].profile == h[c.admit].profile && h[c.admit].request == h[i].request
  {
    hide Live;
    hide Known;
    var r := h[i].request;
    LiveHasLatest(h, r, i);
    LatestRange(h, r, i);
    var j := LatestAdmit(h, r, i);
    var p := h[j].profile;
    KnownHasLatest(h, p, j);
    KnownStays(h, p, j, i);
    KnownHasLatest(h, p, i);
    LatestRange(h, p, j);
    LatestRange(h, p, i);
    c := Record(j, LatestPublish(h, p, j), LatestPublish(h, p, i), LatestDevice(h, p, j), LatestDevice(h, p, i));
  }

  lemma KnownStays(h: History, p: string, j: nat, i: nat)
    requires j <= i <= |h| && Known(h, p, j)
    ensures Known(h, p, i)
  {}

  /** The admission and the current publication, as the checker keeps them. */
  ghost function Admitted(h: History, c: Record): Admission
    requires c.admit < |h| && c.before < |h| && c.deviceBefore < |h| && h[c.admit].numericalBudget.Finite?
  {
    Admission(h[c.admit].profile, h[c.before].contractDigest, h[c.before].artifactDigest,
              h[c.deviceBefore].deviceFingerprint, h[c.before].precision, h[c.admit].numericalBudget.r)
  }

  ghost function Current(h: History, i: nat, c: Record): ProfileState
    requires i <= |h| && c.admit < |h| && c.now < |h| && c.deviceNow < |h| && h[c.now].numericalUpperBound.Finite?
  {
    ProfileState(h[c.now].contractDigest, h[c.now].artifactDigest, h[c.deviceNow].deviceFingerprint,
                 h[c.now].precision, h[c.now].numericalUpperBound.r, Active(h, h[c.admit].profile, i))
  }

  /** The checker compares exactly these. */
  lemma RecordIsState(h: History, i: nat, c: Record)
    requires i < |h| && Recalls(h, i, c)
    ensures GoodPublish(h[c.now]) && GoodAdmit(h, c.admit)
    ensures var st, e, p := StateAt(h, i), h[i], h[c.admit].profile;
            && e.request in st.admissions && st.admissions[e.request] == Admitted(h, c)
            && p in st.profiles && st.profiles[p] == Current(h, i, c)
  {
    hide Live;
    hide Known;
    hide Active;
    var d := RecordExists(h, i);
    assert d == c;
    var p := h[c.admit].profile;
    StateAgrees(h, i);
    hide StateAt;
    assert AdmissionAgrees(h, i, StateAt(h, i).admissions, h[i].request);
    assert ProfileAgrees(h, i, StateAt(h, i).profiles, p);
    KnownHasLatest(h, p, i);
  }

  /** What a dispatch of a live request is reported for. */
  lemma DispatchRead(h: History, i: nat, c: Record)
    requires i < |h| && h[i].typ.Dispatch? && Recalls(h, i, c)
    ensures GoodPublish(h[c.now]) && GoodAdmit(h, c.admit)
    ensures var e := h[i];
            FindingsAt(h, i)
            == if !FiniteNonNegative(e.numericalUpperBound) then [Finding(TraceWellFormed, BadDispatchBound)]
               else if !Active(h, h[c.admit].profile, i) then [Finding(NoStaleProfileReuse, DispatchInactiveProfile)]
               else DispatchFindings(Current(h, i, c), Admitted(h, c), e)
  {
    hide PublishStep;
    hide RevokeStep;
    hide DeviceStep;
    hide AdmitStep;
    hide CompleteStep;
    hide DispatchFindings;
    hide Active;
    RecordIsState(h, i, c);
    hide StateAt;
    hide Recalls;
  }

  /**
   A dispatch of a live request: a bad bound, an inactive profile, or else each of the four differences
   from what was admitted, independently of the others.
   */
  lemma DispatchReported(h: History, i: nat, rule: Rule, message: Message, c: Record)
    requires i < |h| && h[i].typ.Dispatch? && Recalls(h, i, c)
    ensures var e, admit, before, now := h[i], h[c.admit], h[c.before], h[c.now];
            var wasOn, isOn := h[c.deviceBefore].deviceFingerprint, h[c.deviceNow].deviceFingerprint;
            var bad := e.numericalUpperBound.NonFinite? || e.numericalUpperBound.r < 0.0;
            var compared := !bad && Active(h, admit.profile, i);
            Violation(i, rule, message) in All(h)
            <==> || (rule == TraceWellFormed && message == BadDispatchBound && bad)
                 || (rule == NoStaleProfileReuse && message == DispatchInactiveProfile
                     && !bad && !Active(h, admit.profile, i))
                 || (rule == NoStaleProfileReuse && message == IdentityDiffers && compared
                     && !(now.contractDigest == before.contractDigest == e.contractDigest
                          && now.artifactDigest == before.artifactDigest == e.artifactDigest))
                 || (rule == AllocationNonReinterpretation && message == DeviceChanged && compared
                     && !(isOn == wasOn == e.deviceFingerprint))
                 || (rule == NoNumericalDowngrade && message == PrecisionDiffers && compared
                     && !(now.precision == before.precision == e.precision))
                 || (rule == NoNumericalDowngrade && message == BudgetExceeded && compared
                     && now.numericalUpperBound.Finite? && admit.numericalBudget.Finite?
                     && (now.numericalUpperBound.r > admit.numericalBudget.r
                         || e.numericalUpperBound.r > admit.numericalBudget.r))
  {
    hide FindingsAt;
    hide Active;
    MemberIff(h, |h|, Violation(i, rule, message));
    hide ViolationsAt;
    DispatchRead(h, i, c);
    hide Recalls;
    if FiniteNonNegative(h[i].numericalUpperBound) && Active(h, h[c.admit].profile, i) {
      DispatchMember(Current(h, i, c), Admitted(h, c), h[i], Finding(rule, message));
      hide DispatchFindings;
    }
  }

  lemma DispatchMember(p: ProfileState, a: Admission, e: Event, f: Finding)
    requires e.numericalUpperBound.Finite?
    ensures f in DispatchFindings(p, a, e)
       <==> || (f == Finding(NoStaleProfileReuse, IdentityDiffers)
                && !(p.contract == a.contract == e.contractDigest && p.artifact == a.artifact == e.artifactDigest))
            || (f == Finding(AllocationNonReinterpretation, DeviceChanged)
                && !(p.device == a.device == e.deviceFingerprint))
            || (f == Finding(NoNumericalDowngrade, PrecisionDiffers)
                && !(p.precision == a.precision == e.precision))
            || (f == Finding(NoNumericalDowngrade, BudgetExceeded)
                && (p.numerical > a.numericalBudget || e.numericalUpperBound.r > a.numericalBudget))
  {}

  /** How many differences a compared dispatch is reported for; every other event has at most one finding. */
  lemma FindingCount(h: History, i: nat, c: Record)
    requires i < |h|
    ensures !h[i].typ.Dispatch? ==> |FindingsAt(h, i)| <= 1
    ensures h[i].typ.Dispatch? && !Live(h, h[i].request, i) ==> |FindingsAt(h, i)| == 1
    ensures h[i].typ.Dispatch? && Recalls(h, i, c) ==>
      var e, admit, before, now := h[i], h[c.admit], h[c.before], h[c.now];
      var wasOn, isOn := h[c.deviceBefore].deviceFingerprint, h[c.deviceNow].deviceFingerprint;
      && now.numericalUpperBound.Finite? && admit.numericalBudget.Finite?
      && |FindingsAt(h, i)|
         == if e.numericalUpperBound.NonFinite? || e.numericalUpperBound.r < 0.0 || !Active(h, admit.profile, i) then 1
            else (if now.contractDigest == before.contractDigest == e.contractDigest
                     && now.artifactDigest == before.artifactDigest == e.artifactDigest then 0 else 1)
                 + (if isOn == wasOn == e.deviceFingerprint then 0 else 1)
                 + (if now.precision == before.precision == e.precision then 0 else 1)
                 + (if now.numericalUpperBound.r > admit.numericalBudget.r
                       || e.numericalUpperBound.r > admit.numericalBudget.r then 1 else 0)
  {
    hide Live;
    hide Active;
    StateRead(h, i, h[i].profile, h[i].request, h[i].contractDigest);
    if h[i].typ.Dispatch? && Recalls(h, i, c) {
      DispatchRead(h, i, c);
      hide FindingsAt;
    }
    hide StateAt;
    hide Recalls;
  }

  // ----- each once, in order

  lemma DistinctFindings(h: History, i: nat)
    requires i < |h|
    ensures var fs := FindingsAt(h, i); forall a, b | 0 <= a < b < |fs| :: fs[a] != fs[b]
  {
    hide StateAt;
  }

  /** Distinct, with indices below n that never fall. */
  ghost predicate Ordered(vs: seq<Violation>, n: int)
  {
    && (forall a | 0 <= a < |vs| :: 0 <= vs[a].index < n)
    && forall a, b | 0 <= a < b < |vs| :: vs[a] != vs[b] && vs[a].index <= vs[b].index
  }

  lemma OrderedAppend(vs: seq<Violation>, fs: seq<Finding>, n: int)
    requires 0 <= n && Ordered(vs, n) && forall a, b | 0 <= a < b < |fs| :: fs[a] != fs[b]
    ensures Ordered(vs + Tagged(n, fs), n + 1)
  {
    var ws := Tagged(n, fs);
    forall a, b | 0 <= a < b < |ws| ensures ws[a] != ws[b] {
      assert fs[a] != fs[b];
    }
  }

  /** No violation is reported twice, and violations come in the order of the events. */
  lemma {:induction false} ReportedOnce(h: History, n: nat)
    requires n <= |h|
    ensures Ordered(ViolationsAt(h, n), n)
  {
    hide FindingsAt;
    hide Tagged;
    if n == 0 {
      assert ViolationsAt(h, 0) == [];
    } else {
      hide Ordered;
      ReportedOnce(h, n - 1);
      DistinctFindings(h, n - 1);
      OrderedAppend(ViolationsAt(h, n - 1), FindingsAt(h, n - 1), n - 1);
    }
  }
}
