/** What a valid lifecycle trace guarantees over the whole run. */
module Lifecycle {
  import opened Floats
  import opened StateCheck
  import opened StateHistory

  // ----- validity as a predicate over the history

  /** Same publication, device, precision and budget at dispatch i as at admission j. */
  ghost predicate SameIdentity(h: History, i: nat, j: nat)
    requires j < i < |h| && h[i].numericalUpperBound.Finite? && h[j].numericalBudget.Finite?
    requires LatestPublish(h, h[j].profile, j) >= 0 && LatestDevice(h, h[j].profile, j) >= 0
    requires LatestPublish(h, h[j].profile, i) >= 0 && LatestDevice(h, h[j].profile, i) >= 0
    requires h[LatestPublish(h, h[j].profile, i)].numericalUpperBound.Finite?
  {
    var e, p := h[i], h[j].profile;
    var before, now := h[LatestPublish(h, p, j)], h[LatestPublish(h, p, i)];
    && now.contractDigest == before.contractDigest == e.contractDigest
    && now.artifactDigest == before.artifactDigest == e.artifactDigest
    && h[LatestDevice(h, p, i)].deviceFingerprint == h[LatestDevice(h, p, j)].deviceFingerprint == e.deviceFingerprint
    && now.precision == before.precision == e.precision
    && now.numericalUpperBound.r <= h[j].numericalBudget.r
    && e.numericalUpperBound.r <= h[j].numericalBudget.r
  }

  ghost predicate DispatchOk(h: History, i: nat)
    requires i < |h|
  {
    Live(h, h[i].request, i) && FiniteNonNegative(h[i].numericalUpperBound) &&
    (LiveHasLatest(h, h[i].request, i);
     var j := LatestAdmit(h, h[i].request, i);
     LatestRange(h, h[i].request, i);
     Active(h, h[j].profile, i) &&
     (KnownHasLatest(h, h[j].profile, i);
      KnownHasLatest(h, h[j].profile, j);
      LatestRange(h, h[j].profile, i);
      SameIdentity(h, i, j)))
  }

  /** Event i obeys every rule, judged from the events before it. */
  ghost predicate EventOk(h: History, i: nat)
    requires i < |h|
  {
    match h[i].typ
    case Publish => GoodPublish(h[i]) && !Active(h, h[i].profile, i) && !Tombstoned(h, h[i].contractDigest, i)
    case Revoke => Known(h, h[i].profile, i)
    case DeviceUpdate => Known(h, h[i].profile, i) && h[i].deviceFingerprint != ""
    case Admit => GoodAdmit(h, i) && !Live(h, h[i].request, i)
    case Dispatch => DispatchOk(h, i)
    case Complete => Live(h, h[i].request, i)
    case Unknown(_) => false
  }

  lemma DispatchFindingsEmpty(p: ProfileState, a: Admission, e: Event)
    requires e.numericalUpperBound.Finite?
    ensures DispatchFindings(p, a, e) == [] <==>
              && p.contract == a.contract == e.contractDigest && p.artifact == a.artifact == e.artifactDigest
              && p.device == a.device == e.deviceFingerprint && p.precision == a.precision == e.precision
              && p.numerical <= a.numericalBudget && e.numericalUpperBound.r <= a.numericalBudget
  {}

  lemma DispatchFindingsIff(h: History, i: nat, st: State)
    requires i < |h| && Agrees(h, i, st)
    ensures DispatchStep(st, h[i]) == [] <==> DispatchOk(h, i)
  {
    hide Live;
    hide Active;
    hide Known;
    hide DispatchFindings;
    var e := h[i];
    assert AdmissionAgrees(h, i, st.admissions, e.request);
    if e.request in st.admissions && FiniteNonNegative(e.numericalUpperBound) {
      LatestRange(h, e.request, i);
      var j := LatestAdmit(h, e.request, i);
      var a := st.admissions[e.request];
      assert ProfileAgrees(h, i, st.profiles, a.profile);
      KnownHasLatest(h, h[j].profile, i);
      KnownHasLatest(h, h[j].profile, j);
      LatestRange(h, h[j].profile, i);
      if a.profile in st.profiles && st.profiles[a.profile].active {
        DispatchFindingsEmpty(st.profiles[a.profile], a, e);
      }
    }
  }

  /** The checker is silent at event i exactly when the event obeys the rules. */
  lemma SilentIffOk(h: History, i: nat)
    requires i < |h|
    ensures FindingsAt(h, i) == [] <==> EventOk(h, i)
  {
    hide Live;
    hide Active;
    hide Known;
    hide Tombstoned;
    StateAgrees(h, i);
    var st, e := StateAt(h, i), h[i];
    assert ProfileAgrees(h, i, st.profiles, e.profile);
    assert AdmissionAgrees(h, i, st.admissions, e.request);
    KnownHasLatest(h, e.profile, i);
    if e.typ.Dispatch? {
      DispatchFindingsIff(h, i, st);
    } else if e.typ.Admit? {
      GoodAdmitMeaning(h, i, st);
    }
  }

  /** Valid exactly when every event satisfies the history predicate. */
  lemma {:induction false} ValidIffAllOk(h: History, n: nat)
    requires n <= |h|
    ensures ViolationsAt(h, n) == [] <==> forall i | 0 <= i < n :: EventOk(h, i)
  {
    hide EventOk;
    hide FindingsAt;
    if n > 0 {
      ValidIffAllOk(h, n - 1);
      SilentIffOk(h, n - 1);
    }
  }

  lemma {:induction false} PrefixState(h: History, g: History, n: nat)
    requires n <= |h| && h <= g
    ensures StateAt(h, n) == StateAt(g, n)
    ensures ViolationsAt(h, n) == ViolationsAt(g, n)
  {
    hide Step;
    if n > 0 {
      PrefixState(h, g, n - 1);
    }
  }

  lemma {:induction false} ViolationsGrow(h: History, m: nat, n: nat)
    requires m <= n <= |h|
    ensures ViolationsAt(h, m) <= ViolationsAt(h, n)
  {
    hide FindingsAt;
    if m < n {
      ViolationsGrow(h, m, n - 1);
    }
  }

  /** The violations of a prefix are a prefix of the violations of the whole trace. */
  lemma PrefixViolations(h: History, g: History)
    requires h <= g
    ensures ViolationsAt(h, |h|) <= ViolationsAt(g, |g|)
  {
    PrefixState(h, g, |h|);
    ViolationsGrow(g, |h|, |g|);
  }

  // ----- no dispatch after a revocation

  ghost predicate AllOk(h: History)
  {
    forall i | 0 <= i < |h| :: EventOk(h, i)
  }

  /** While p stays active nothing replaces its publication. */
  lemma {:induction false} PublicationStable(h: History, p: string, j: nat, k: nat)
    requires j <= k <= |h| && Active(h, p, j) && !RevokedBetween(h, p, j - 1, k)
    ensures LatestPublish(h, p, k) == LatestPublish(h, p, j) && Active(h, p, k)
  {
    hide Active;
    if j < k {
      RevokedStep(h, p, j - 1, k - 1);
      PublicationStable(h, p, j, k - 1);
      ActiveStep(h, p, k - 1);
    }
  }

  /** A profile that became active again was published again. */
  lemma {:induction false} RepublishedSince(h: History, p: string, k: nat, i: nat)
    requires k <= i <= |h| && !Active(h, p, k) && Active(h, p, i)
    ensures LatestPublish(h, p, i) >= k && TakesEffect(h, LatestPublish(h, p, i))
    ensures h[LatestPublish(h, p, i)].profile == p
  {
    hide Active;
    hide GoodPublish;
    if k < i {
      ActiveStep(h, p, i - 1);
      if !TakesEffect(h, i - 1) || h[i - 1].profile != p {
        RepublishedSince(h, p, k, i - 1);
      }
    }
  }

  lemma {:induction false} FirstRevocation(h: History, p: string, j: nat, i: nat) returns (k: nat)
    requires i <= |h| && RevokedBetween(h, p, j - 1, i)
    ensures j <= k < i && h[k].typ.Revoke? && h[k].profile == p && !RevokedBetween(h, p, j - 1, k)
    decreases i
  {
    RevokedStep(h, p, j - 1, i - 1);
    if RevokedBetween(h, p, j - 1, i - 1) {
      k := FirstRevocation(h, p, j, i - 1);
    } else {
      k := i - 1;
    }
  }

  lemma {:induction false} TombstonesStay(h: History, c: string, k: nat, i: nat)
    requires k <= i <= |h| && Tombstoned(h, c, k)
    ensures Tombstoned(h, c, i)
  {}

  /**
   In a valid trace no dispatched request's profile was revoked between its live
   admission and the dispatch, not even when it was republished in between.
   */
  lemma NoRevocationBeforeDispatch(h: History, i: nat)
    requires i < |h| && h[i].typ.Dispatch? && AllOk(h)
    ensures LatestAdmit(h, h[i].request, i) >= 0
    ensures var j := LatestAdmit(h, h[i].request, i);
            forall k | j <= k < i :: !(h[k].typ.Revoke? && h[k].profile == h[j].profile)
  {
    hide Active;
    hide Live;
    hide Known;
    hide Tombstoned;
    assert EventOk(h, i);
    LiveHasLatest(h, h[i].request, i);
    var j := LatestAdmit(h, h[i].request, i);
    LatestRange(h, h[i].request, i);
    var p := h[j].profile;
    KnownHasLatest(h, p, j);
    KnownHasLatest(h, p, i);
    if k' :| j <= k' < i && h[k'].typ.Revoke? && h[k'].profile == p {
      assert RevokedBetween(h, p, j - 1, i);
      var k := FirstRevocation(h, p, j, i);
      PublicationStable(h, p, j, k);
      RevocationForbidsDispatch(h, p, j, k, i);
      assert false;
    }
  }

  /** The contradiction: the admitted contract is tombstoned, so its republication was not silent. */
  lemma RevocationForbidsDispatch(h: History, p: string, j: nat, k: nat, i: nat)
    requires j <= k < i <= |h| && h[k].typ.Revoke? && h[k].profile == p
    requires Active(h, p, j) && Active(h, p, i) && LatestPublish(h, p, j) >= 0
    requires LatestPublish(h, p, k) == LatestPublish(h, p, j)
    requires LatestPublish(h, p, i) >= 0
    requires h[LatestPublish(h, p, i)].contractDigest == h[LatestPublish(h, p, j)].contractDigest
    ensures !AllOk(h)
  {
    hide Active;
    var c := h[LatestPublish(h, p, j)].contractDigest;
    assert RevokesDigest(h, c, k);
    assert Tombstoned(h, c, k + 1);
    ActiveStep(h, p, k);
    RepublishedSince(h, p, k + 1, i);
    var m := LatestPublish(h, p, i);
    TombstonesStay(h, c, k + 1, m);
    assert !EventOk(h, m);
  }

  // ----- revoked digests

  /** No two profiles ever publish the same contract digest. */
  ghost predicate DistinctDigests(h: History)
  {
    forall a, b | 0 <= a < |h| && 0 <= b < |h| && GoodPublish(h[a]) && GoodPublish(h[b])
                  && h[a].contractDigest == h[b].contractDigest :: h[a].profile == h[b].profile
  }

  /**
   In a valid trace a dispatch happens under a revoked digest exactly when some
   other profile carrying the same digest was revoked.
   */
  lemma RevokedDigestDispatchIff(h: History, i: nat)
    requires i < |h| && h[i].typ.Dispatch? && AllOk(h)
    ensures LatestAdmit(h, h[i].request, i) >= 0
    ensures var c, p := h[i].contractDigest, h[LatestAdmit(h, h[i].request, i)].profile;
            Tombstoned(h, c, i) <==> exists k :: 0 <= k < i && RevokesDigest(h, c, k) && h[k].profile != p
  {
    hide Active;
    hide Live;
    hide Known;
    assert EventOk(h, i);
    var c := h[i].contractDigest;
    LiveHasLatest(h, h[i].request, i);
    var j := LatestAdmit(h, h[i].request, i);
    LatestRange(h, h[i].request, i);
    var p := h[j].profile;
    KnownHasLatest(h, p, i);
    forall k | 0 <= k < i && RevokesDigest(h, c, k)
      ensures h[k].profile != p
    {
      if h[k].profile == p {
        RevocationForbidsPublication(h, p, c, k, i);
        assert false;
      }
    }
  }

  /** With distinct digests a valid trace never dispatches under a revoked digest. */
  lemma NoDispatchUnderRevokedDigest(h: History, i: nat)
    requires i < |h| && h[i].typ.Dispatch? && AllOk(h) && DistinctDigests(h)
    ensures !Tombstoned(h, h[i].contractDigest, i)
  {
    hide Active;
    hide Live;
    hide Known;
    assert EventOk(h, i);
    var c := h[i].contractDigest;
    RevokedDigestDispatchIff(h, i);
    var j := LatestAdmit(h, h[i].request, i);
    LatestRange(h, h[i].request, i);
    KnownHasLatest(h, h[j].profile, i);
    LatestRange(h, h[j].profile, i);
    var m := LatestPublish(h, h[j].profile, i);
    forall k | 0 <= k < i && RevokesDigest(h, c, k)
      ensures h[k].profile == h[j].profile
    {
      LatestRange(h, h[k].profile, k);
      assert GoodPublish(h[m]) && GoodPublish(h[LatestPublish(h, h[k].profile, k)]);
    }
  }

  lemma RevocationForbidsPublication(h: History, p: string, c: string, k: nat, i: nat)
    requires k < i <= |h| && RevokesDigest(h, c, k) && h[k].profile == p
    requires Active(h, p, i) && LatestPublish(h, p, i) >= 0 && h[LatestPublish(h, p, i)].contractDigest == c
    ensures !AllOk(h)
  {
    hide Active;
    ActiveStep(h, p, k);
    RepublishedSince(h, p, k + 1, i);
    var m := LatestPublish(h, p, i);
    assert Tombstoned(h, c, m);
    assert !EventOk(h, m);
  }

  // ----- the device between an admission and its dispatch

  /** The current device of p after the first m events is x. */
  ghost predicate DeviceIs(h: History, p: string, m: nat, x: string)
    requires m <= |h|
  {
    LatestDevice(h, p, m) >= 0 && h[LatestDevice(h, p, m)].deviceFingerprint == x
  }

  ghost predicate UpdatesTo(h: History, p: string, k: nat)
    requires k < |h|
  {
    h[k].typ.DeviceUpdate? && h[k].profile == p
  }

  /** While p stays active only device updates change its device. */
  lemma DeviceStep(h: History, p: string, m: nat)
    requires m < |h| && Active(h, p, m) && EventOk(h, m)
    ensures UpdatesTo(h, p, m) ==> LatestDevice(h, p, m + 1) == m
    ensures !UpdatesTo(h, p, m) ==> LatestDevice(h, p, m + 1) == LatestDevice(h, p, m)
  {
    hide Active;
    hide Known;
    hide Live;
    hide Tombstoned;
  }

  lemma {:induction false} DeviceStable(h: History, p: string, j: nat, m: nat, x: string)
    requires j <= m <= |h| && AllOk(h) && Active(h, p, j) && !RevokedBetween(h, p, j - 1, m) && DeviceIs(h, p, j, x)
    requires forall k | j <= k < m && UpdatesTo(h, p, k) :: h[k].deviceFingerprint == x
    ensures DeviceIs(h, p, m, x)
  {
    hide Active;
    hide EventOk;
    hide LatestDevice;
    if j < m {
      RevokedStep(h, p, j - 1, m - 1);
      DeviceStable(h, p, j, m - 1, x);
      PublicationStable(h, p, j, m - 1);
      DeviceStep(h, p, m - 1);
    }
  }

  /**
   In a valid trace the device of a dispatched request's profile was the dispatch's device at every moment
   from the admission on, exactly when no device update in between named another one.
   */
  lemma DeviceKeptIff(h: History, i: nat)
    requires i < |h| && h[i].typ.Dispatch? && AllOk(h)
    ensures LatestAdmit(h, h[i].request, i) >= 0
    ensures var j := LatestAdmit(h, h[i].request, i);
            var p, x := h[j].profile, h[i].deviceFingerprint;
            (forall m | j <= m <= i :: DeviceIs(h, p, m, x))
            <==> forall k | j <= k < i && UpdatesTo(h, p, k) :: h[k].deviceFingerprint == x
  {
    hide Active;
    hide Live;
    hide Known;
    hide Tombstoned;
    NoRevocationBeforeDispatch(h, i);
    assert EventOk(h, i);
    var j := LatestAdmit(h, h[i].request, i);
    var p, x := h[j].profile, h[i].deviceFingerprint;
    LatestRange(h, h[i].request, i);
    KnownHasLatest(h, p, j);
    KnownHasLatest(h, p, i);
    assert DeviceIs(h, p, j, x);
    hide EventOk;
    if forall k | j <= k < i && UpdatesTo(h, p, k) :: h[k].deviceFingerprint == x {
      forall m | j <= m <= i ensures DeviceIs(h, p, m, x) {
        DeviceStable(h, p, j, m, x);
      }
    }
    if forall m | j <= m <= i :: DeviceIs(h, p, m, x) {
      forall k | j <= k < i && UpdatesTo(h, p, k) ensures h[k].deviceFingerprint == x {
        PublicationStable(h, p, j, k);
        DeviceStep(h, p, k);
        assert DeviceIs(h, p, k + 1, x);
      }
    }
  }

  // ----- what the rules do not promise

  function PublishOf(profile: string, digest: string, device: string): Event
  {
    Event(Publish, profile, "", digest, "a", device, "f", Finite(0.0), NonFinite)
  }

  function Named(typ: EventType, profile: string, request: string, device: string): Event
  {
    Event(typ, profile, request, "c", "a", device, "f", Finite(0.0), Finite(0.0))
  }

  /** Profiles p and q share digest c; p dispatches after c was revoked through q. */
  function SharedDigestTrace(): History
  {
    [PublishOf("p", "c", "d"), PublishOf("q", "c", "d"), Named(Revoke, "q", "", ""),
     Named(Admit, "p", "r", ""), Named(Dispatch, "", "r", "d")]
  }

  lemma SharedDigestStates()
    ensures ViolationsAt(SharedDigestTrace(), 5) == []
    ensures StateAt(SharedDigestTrace(), 4).tombstones == {"c"}
  {}

  /** Distinct digests are needed: this valid trace dispatches under a revoked digest. */
  lemma SharedDigestIsDispatched()
    ensures var h := SharedDigestTrace();
            ViolationsAt(h, 5) == [] && h[4].typ.Dispatch? && Tombstoned(h, h[4].contractDigest, 4)
  {
    hide ViolationsAt;
    hide StateAt;
    hide Tombstoned;
    SharedDigestStates();
    StateAgrees(SharedDigestTrace(), 4);
  }

  /** The profile leaves device d after the admission and is back before the dispatch. */
  function ChangeAndBackTrace(): History
  {
    [PublishOf("p", "c", "d"), Named(Admit, "p", "r", ""), Named(DeviceUpdate, "p", "", "x"),
     Named(DeviceUpdate, "p", "", "d"), Named(Dispatch, "", "r", "d")]
  }

  /** So the condition of DeviceKeptIff can fail in a valid trace. */
  lemma ChangeAndBackIsValid()
    ensures var h := ChangeAndBackTrace();
            ViolationsAt(h, 5) == [] && h[4].typ.Dispatch? && UpdatesTo(h, h[1].profile, 2)
            && h[2].deviceFingerprint != h[4].deviceFingerprint
  {
    var h := ChangeAndBackTrace();
    var published := ProfileState("c", "a", "d", "f", 0.0, true);
    var admitted := Admission("p", "c", "a", "d", "f", 0.0);
    var away := published.(device := "x");
    assert map["p" := published]["p" := away] == map["p" := away];
    assert map["p" := away]["p" := published] == map["p" := published];
    SilentStep(h, 0, State(map["p" := published], map[], {}));
    SilentStep(h, 1, State(map["p" := published], map["r" := admitted], {}));
    SilentStep(h, 2, State(map["p" := away], map["r" := admitted], {}));
    SilentStep(h, 3, State(map["p" := published], map["r" := admitted], {}));
    SilentStep(h, 4, State(map["p" := published], map["r" := admitted], {}));
  }

  /** One silent step of a concrete run. */
  lemma SilentStep(h: History, n: nat, st: State)
    requires n < |h| && ViolationsAt(h, n) == [] && Step(StateAt(h, n), h[n]) == (st, [])
    ensures StateAt(h, n + 1) == st && ViolationsAt(h, n + 1) == []
  {}

  lemma {:induction false} DevicesNamed(h: History, n: nat)
    requires n <= |h|
    ensures forall p | p in StateAt(h, n).profiles :: StateAt(h, n).profiles[p].device != ""
  {
    if n > 0 {
      DevicesNamed(h, n - 1);
    }
  }

  /**
   * The device check compares two states only: after any trace, moving a published profile to another
   * device and back is reported by nothing and leaves no mark on the state that later events are checked in.
   */
  lemma DeviceChangeAndBackIsForgotten(h: History, p: string, x: string, away: Event, back: Event)
    requires p in StateAt(h, |h|).profiles && x != ""
    requires away.typ.DeviceUpdate? && away.profile == p && away.deviceFingerprint == x
    requires back.typ.DeviceUpdate? && back.profile == p
    requires back.deviceFingerprint == StateAt(h, |h|).profiles[p].device
    ensures var g := h + [away, back];
            StateAt(g, |g|) == StateAt(h, |h|) && ViolationsAt(g, |g|) == ViolationsAt(h, |h|)
  {
    var g, n := h + [away, back], |h|;
    var st := StateAt(h, n);
    DevicesNamed(h, n);
    PrefixState(h, g, n);
    assert g[n] == away && g[n + 1] == back;
    hide StateAt;
    hide ViolationsAt;
    hide Step;
    OneStep(g, n);
    OneStep(g, n + 1);
    UpdateStep(st, away);
    var moved := Step(st, away).0;
    UpdateStep(moved, back);
    assert Step(moved, back).0.profiles == st.profiles;
  }

  lemma UpdateStep(st: State, e: Event)
    requires e.typ.DeviceUpdate? && e.profile in st.profiles && e.deviceFingerprint != ""
    ensures var p := st.profiles[e.profile].(device := e.deviceFingerprint);
            Step(st, e) == (st.(profiles := st.profiles[e.profile := p]), [])
  {}

  lemma OneStep(h: History, n: nat)
    requires n < |h|
    ensures StateAt(h, n + 1) == Step(StateAt(h, n), h[n]).0
    ensures Step(StateAt(h, n), h[n]).1 == [] ==> ViolationsAt(h, n + 1) == ViolationsAt(h, n)
  {}
}
