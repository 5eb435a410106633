/**
 The lifecycle rules as statements about the history alone, with no maps: what is
 published, revoked, admitted or completed before an event decides it.
 */
module StateHistory {
  import opened StateCheck

  type History = seq<Event>

  // ----- history predicates; i is the number of events already seen

  predicate GoodPublish(e: Event)
  {
    e.typ.Publish? && PublishFields(e) && FiniteNonNegative(e.numericalUpperBound)
  }

  /** p was published at some point. */
  ghost predicate Known(h: History, p: string, i: nat)
    requires i <= |h|
  {
    exists j :: 0 <= j < i && GoodPublish(h[j]) && h[j].profile == p
  }

  ghost predicate RevokedBetween(h: History, p: string, j: int, i: nat)
    requires i <= |h| && j >= -1
  {
    exists k :: j < k < i && h[k].typ.Revoke? && h[k].profile == p
  }

  /** p was published and not revoked since. */
  ghost predicate Active(h: History, p: string, i: nat)
    requires i <= |h|
  {
    exists j :: 0 <= j < i && GoodPublish(h[j]) && h[j].profile == p && !RevokedBetween(h, p, j, i)
  }

  /** A publication that takes effect: well formed, and the profile is not active. */
  ghost predicate TakesEffect(h: History, j: nat)
    requires j < |h|
  {
    GoodPublish(h[j]) && !Active(h, h[j].profile, j)
  }

  /** The latest effective publication of p, or -1. */
  ghost function LatestPublish(h: History, p: string, i: nat): (j: int)
    requires i <= |h|
    ensures -1 <= j < i
  {
    if i == 0 then -1
    else if TakesEffect(h, i - 1) && h[i - 1].profile == p then i - 1
    else LatestPublish(h, p, i - 1)
  }

  ghost predicate SetsDevice(h: History, p: string, j: nat)
    requires j < |h|
  {
    && h[j].profile == p
    && (TakesEffect(h, j) || (h[j].typ.DeviceUpdate? && h[j].deviceFingerprint != "" && Known(h, p, j)))
  }

  /** The latest event that set the device of p, or -1. */
  ghost function LatestDevice(h: History, p: string, i: nat): (j: int)
    requires i <= |h|
    ensures -1 <= j < i
  {
    if i == 0 then -1 else if SetsDevice(h, p, i - 1) then i - 1 else LatestDevice(h, p, i - 1)
  }

  /** Digest c was the current publication of a profile at one of its revocations. */
  ghost predicate Tombstoned(h: History, c: string, i: nat)
    requires i <= |h|
  {
    exists k :: 0 <= k < i && RevokesDigest(h, c, k)
  }

  ghost predicate RevokesDigest(h: History, c: string, k: nat)
    requires k < |h|
  {
    && h[k].typ.Revoke? && LatestPublish(h, h[k].profile, k) >= 0
    && h[LatestPublish(h, h[k].profile, k)].contractDigest == c
  }

  ghost predicate GoodAdmit(h: History, j: nat)
    requires j < |h|
  {
    h[j].typ.Admit? && Active(h, h[j].profile, j) && h[j].request != "" && FiniteNonNegative(h[j].numericalBudget)
  }

  ghost predicate CompletedBetween(h: History, r: string, j: int, i: nat)
    requires i <= |h| && j >= -1
  {
    exists k :: j < k < i && h[k].typ.Complete? && h[k].request == r
  }

  /** r was admitted and has not completed since. */
  ghost predicate Live(h: History, r: string, i: nat)
    requires i <= |h|
  {
    exists j :: 0 <= j < i && GoodAdmit(h, j) && h[j].request == r && !CompletedBetween(h, r, j, i)
  }

  /** The latest admission of r that took effect, or -1. */
  ghost function LatestAdmit(h: History, r: string, i: nat): (j: int)
    requires i <= |h|
    ensures -1 <= j < i
  {
    if i == 0 then -1
    else if GoodAdmit(h, i - 1) && h[i - 1].request == r && !Live(h, r, i - 1) then i - 1
    else LatestAdmit(h, r, i - 1)
  }

  lemma {:induction false} LatestRange(h: History, p: string, i: nat)
    requires i <= |h|
    ensures LatestPublish(h, p, i) >= 0 ==> GoodPublish(h[LatestPublish(h, p, i)])
                                            && h[LatestPublish(h, p, i)].profile == p
    ensures LatestAdmit(h, p, i) >= 0 ==> GoodAdmit(h, LatestAdmit(h, p, i)) && h[LatestAdmit(h, p, i)].request == p
  {
    if i > 0 {
      LatestRange(h, p, i - 1);
    }
  }

  // ----- how one event changes each notion

  lemma KnownStep(h: History, p: string, i: nat)
    requires i < |h|
    ensures Known(h, p, i + 1) <==> Known(h, p, i) || (GoodPublish(h[i]) && h[i].profile == p)
  {}

  lemma RevokedStep(h: History, p: string, j: int, i: nat)
    requires -1 <= j && i < |h|
    ensures RevokedBetween(h, p, j, i + 1)
       <==> RevokedBetween(h, p, j, i) || (j < i && h[i].typ.Revoke? && h[i].profile == p)
  {}

  lemma ActiveStep(h: History, p: string, i: nat)
    requires i < |h|
    ensures Active(h, p, i + 1)
       <==> (GoodPublish(h[i]) && h[i].profile == p)
            || (Active(h, p, i) && !(h[i].typ.Revoke? && h[i].profile == p))
  {}

  lemma TombstonedStep(h: History, c: string, i: nat)
    requires i < |h|
    ensures Tombstoned(h, c, i + 1) <==> Tombstoned(h, c, i) || RevokesDigest(h, c, i)
  {}

  lemma LiveStep(h: History, r: string, i: nat)
    requires i < |h|
    ensures Live(h, r, i + 1)
       <==> (GoodAdmit(h, i) && h[i].request == r)
            || (Live(h, r, i) && !(h[i].typ.Complete? && h[i].request == r))
  {}

  /** A known profile has an effective publication and a device. */
  lemma {:induction false} KnownHasLatest(h: History, p: string, i: nat)
    requires i <= |h|
    ensures Active(h, p, i) ==> Known(h, p, i)
    ensures Known(h, p, i) <==> LatestPublish(h, p, i) >= 0
    ensures Known(h, p, i) <==> LatestDevice(h, p, i) >= 0
  {
    hide GoodPublish;
    if i > 0 {
      KnownHasLatest(h, p, i - 1);
      KnownStep(h, p, i - 1);
      ActiveStep(h, p, i - 1);
      LatestRange(h, p, i - 1);
    }
  }

  lemma {:induction false} LiveHasLatest(h: History, r: string, i: nat)
    requires i <= |h|
    ensures Live(h, r, i) ==> LatestAdmit(h, r, i) >= 0
  {
    hide GoodAdmit;
    if i > 0 {
      LiveHasLatest(h, r, i - 1);
      LiveStep(h, r, i - 1);
      LatestRange(h, r, i - 1);
    }
  }

  // ----- the checker's state, read off the history

  ghost function ProfileAt(h: History, p: string, i: nat): ProfileState
    requires i <= |h| && Known(h, p, i)
  {
    KnownHasLatest(h, p, i);
    LatestRange(h, p, i);
    var e := h[LatestPublish(h, p, i)];
    ProfileState(e.contractDigest, e.artifactDigest, h[LatestDevice(h, p, i)].deviceFingerprint, e.precision,
                 e.numericalUpperBound.r, Active(h, p, i))
  }

  ghost function AdmissionAt(h: History, r: string, i: nat): Admission
    requires i <= |h| && LatestAdmit(h, r, i) >= 0
  {
    LatestRange(h, r, i);
    var j := LatestAdmit(h, r, i);
    KnownHasLatest(h, h[j].profile, j);
    var p := ProfileAt(h, h[j].profile, j);
    Admission(h[j].profile, p.contract, p.artifact, p.device, p.precision, h[j].numericalBudget.r)
  }

  ghost predicate ProfileAgrees(h: History, i: nat, profiles: map<string, ProfileState>, p: string)
    requires i <= |h|
  {
    (p in profiles <==> Known(h, p, i)) && (p in profiles ==> profiles[p] == ProfileAt(h, p, i))
  }

  ghost predicate AdmissionAgrees(h: History, i: nat, admissions: map<string, Admission>, r: string)
    requires i <= |h|
  {
    && (r in admissions <==> Live(h, r, i))
    && (r in admissions ==> LatestAdmit(h, r, i) >= 0 && admissions[r] == AdmissionAt(h, r, i))
  }

  ghost predicate Agrees(h: History, i: nat, st: State)
    requires i <= |h|
  {
    && (forall p: string :: ProfileAgrees(h, i, st.profiles, p))
    && (forall r: string :: AdmissionAgrees(h, i, st.admissions, r))
    && (forall c: string :: c in st.tombstones <==> Tombstoned(h, c, i))
  }

  /** Events of another profile leave p alone. */
  lemma OtherProfile(h: History, p: string, i: nat)
    requires i < |h| && h[i].profile != p
    ensures Known(h, p, i + 1) <==> Known(h, p, i)
    ensures Known(h, p, i) ==> ProfileAt(h, p, i + 1) == ProfileAt(h, p, i)
  {}

  lemma ProfileStep(h: History, p: string, i: nat, st: State)
    requires i < |h| && ProfileAgrees(h, i, st.profiles, p) && ProfileAgrees(h, i, st.profiles, h[i].profile)
    ensures ProfileAgrees(h, i + 1, Step(st, h[i]).0.profiles, p)
  {
    if h[i].profile != p {
      OtherProfile(h, p, i);
      OtherProfileMap(h, p, i, st);
    } else {
      OwnProfile(h, i, st);
    }
  }

  lemma OtherProfileMap(h: History, p: string, i: nat, st: State)
    requires i < |h| && h[i].profile != p
    ensures p in Step(st, h[i]).0.profiles <==> p in st.profiles
    ensures p in st.profiles ==> Step(st, h[i]).0.profiles[p] == st.profiles[p]
  {}

  lemma OwnProfile(h: History, i: nat, st: State)
    requires i < |h| && ProfileAgrees(h, i, st.profiles, h[i].profile)
    ensures ProfileAgrees(h, i + 1, Step(st, h[i]).0.profiles, h[i].profile)
  {
    hide Known;
    hide Active;
    var p := h[i].profile;
    KnownStep(h, p, i);
    ActiveStep(h, p, i);
    KnownHasLatest(h, p, i);
  }

  lemma TombstoneStep(h: History, c: string, i: nat, st: State)
    requires i < |h| && ProfileAgrees(h, i, st.profiles, h[i].profile)
    requires c in st.tombstones <==> Tombstoned(h, c, i)
    ensures c in Step(st, h[i]).0.tombstones <==> Tombstoned(h, c, i + 1)
  {
    hide Known;
    hide Active;
    hide Tombstoned;
    TombstonedStep(h, c, i);
    KnownHasLatest(h, h[i].profile, i);
  }

  lemma AdmissionStep(h: History, r: string, i: nat, st: State)
    requires i < |h| && ProfileAgrees(h, i, st.profiles, h[i].profile) && AdmissionAgrees(h, i, st.admissions, r)
    ensures AdmissionAgrees(h, i + 1, Step(st, h[i]).0.admissions, r)
  {
    LiveStep(h, r, i);
    if h[i].typ.Admit? && h[i].request == r {
      AdmitStepAgrees(h, i, st);
    } else {
      UnadmittedStep(h, r, i, st);
    }
  }

  lemma UnadmittedStep(h: History, r: string, i: nat, st: State)
    requires i < |h| && AdmissionAgrees(h, i, st.admissions, r) && !(h[i].typ.Admit? && h[i].request == r)
    ensures AdmissionAgrees(h, i + 1, Step(st, h[i]).0.admissions, r)
  {
    hide Live;
    hide Active;
    hide ProfileAt;
    LiveStep(h, r, i);
    assert LatestAdmit(h, r, i + 1) == LatestAdmit(h, r, i);
  }

  lemma AdmitStepAgrees(h: History, i: nat, st: State)
    requires i < |h| && h[i].typ.Admit?
    requires ProfileAgrees(h, i, st.profiles, h[i].profile) && AdmissionAgrees(h, i, st.admissions, h[i].request)
    ensures AdmissionAgrees(h, i + 1, AdmitStep(st, h[i]).0.admissions, h[i].request)
  {
    hide Live;
    hide Active;
    hide Known;
    var r := h[i].request;
    LiveStep(h, r, i);
    KnownHasLatest(h, h[i].profile, i);
    GoodAdmitMeaning(h, i, st);
    hide GoodAdmit;
    hide ProfileAt;
    if GoodAdmit(h, i) && !Live(h, r, i) {
      assert LatestAdmit(h, r, i + 1) == i;
    } else {
      assert LatestAdmit(h, r, i + 1) == LatestAdmit(h, r, i);
    }
  }

  lemma GoodAdmitMeaning(h: History, i: nat, st: State)
    requires i < |h| && h[i].typ.Admit? && ProfileAgrees(h, i, st.profiles, h[i].profile)
    ensures GoodAdmit(h, i) <==>
              && h[i].profile in st.profiles && st.profiles[h[i].profile].active
              && h[i].request != "" && FiniteNonNegative(h[i].numericalBudget)
  {}

  /** The checker's three maps say exactly what the history says. */
  lemma {:induction false} StateAgrees(h: History, i: nat)
    requires i <= |h|
    ensures Agrees(h, i, StateAt(h, i))
  {
    hide ProfileAgrees;
    hide AdmissionAgrees;
    hide Tombstoned;
    hide Step;
    if i == 0 {
      InitialAgrees(h);
    } else {
      StateAgrees(h, i - 1);
      var st := StateAt(h, i - 1);
      forall p: string
        ensures ProfileAgrees(h, i, StateAt(h, i).profiles, p)
      {
        ProfileStep(h, p, i - 1, st);
      }
      forall c: string
        ensures c in StateAt(h, i).tombstones <==> Tombstoned(h, c, i)
      {
        TombstoneStep(h, c, i - 1, st);
      }
      forall r: string
        ensures AdmissionAgrees(h, i, StateAt(h, i).admissions, r)
      {
        AdmissionStep(h, r, i - 1, st);
      }
    }
  }

  lemma InitialAgrees(h: History)
    ensures Agrees(h, 0, INITIAL)
  {}

  // ----- the latest events, as the last of their kind

  /** The latest publication of p is the last well-formed one that found p unpublished or revoked. */
  lemma {:induction false} LatestPublishIff(h: History, p: string, i: nat, j: nat)
    requires i <= |h|
    ensures j == LatestPublish(h, p, i)
       <==> j < i && PublishesInactive(h, p, j) && forall k | j < k < i :: !PublishesInactive(h, p, k)
  {
    hide Active;
    if i > 0 {
      LatestPublishIff(h, p, i - 1, j);
      assert PublishesInactive(h, p, i - 1) <==> TakesEffect(h, i - 1) && h[i - 1].profile == p;
    }
  }

  ghost predicate PublishesInactive(h: History, p: string, j: nat)
    requires j < |h|
  {
    var e := h[j];
    && e.typ.Publish? && e.profile == p && e.contractDigest != "" && e.artifactDigest != ""
    && e.deviceFingerprint != "" && e.precision != "" && p != ""
    && e.numericalUpperBound.Finite? && e.numericalUpperBound.r >= 0.0 && !Active(h, p, j)
  }

  /** The device of p was set by that, or by the last update since that names one. */
  lemma {:induction false} LatestDeviceIff(h: History, p: string, i: nat, j: nat)
    requires i <= |h|
    ensures j == LatestDevice(h, p, i)
       <==> j < i && (PublishesInactive(h, p, j) || Updates(h, p, j))
            && forall k | j < k < i :: !PublishesInactive(h, p, k) && !Updates(h, p, k)
  {
    hide Active;
    hide Known;
    if i > 0 {
      LatestDeviceIff(h, p, i - 1, j);
      assert PublishesInactive(h, p, i - 1) || Updates(h, p, i - 1) <==> SetsDevice(h, p, i - 1);
    }
  }

  ghost predicate Updates(h: History, p: string, j: nat)
    requires j < |h|
  {
    h[j].typ.DeviceUpdate? && h[j].profile == p && h[j].deviceFingerprint != "" && Known(h, p, j)
  }

  /** The admission of r in force is the last one that took effect. */
  lemma {:induction false} LatestAdmitIff(h: History, r: string, i: nat, j: nat)
    requires i <= |h|
    ensures j == LatestAdmit(h, r, i)
       <==> j < i && Admits(h, r, j) && forall k | j < k < i :: !Admits(h, r, k)
  {
    hide Active;
    hide Live;
    if i > 0 {
      LatestAdmitIff(h, r, i - 1, j);
      assert Admits(h, r, i - 1) <==> GoodAdmit(h, i - 1) && h[i - 1].request == r && !Live(h, r, i - 1);
    }
  }

  ghost predicate Admits(h: History, r: string, j: nat)
    requires j < |h|
  {
    var e := h[j];
    && e.typ.Admit? && e.request == r && r != "" && e.numericalBudget.Finite? && e.numericalBudget.r >= 0.0
    && Active(h, e.profile, j) && !Live(h, r, j)
  }
}
