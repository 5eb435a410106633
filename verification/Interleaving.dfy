/** Traces about unrelated profiles, requests and digests can be checked apart or shuffled together. */
module Interleaving {
  import opened StateCheck

  /** The names a trace may use. */
  datatype Names = Names(profiles: set<string>, requests: set<string>, digests: set<string>)

  ghost predicate Disjoint(a: Names, b: Names)
  {
    a.profiles !! b.profiles && a.requests !! b.requests && a.digests !! b.digests
  }

  /** The event uses only these names. */
  predicate Uses(e: Event, s: Names)
  {
    match e.typ
    case Publish => e.profile in s.profiles && e.contractDigest in s.digests
    case Revoke => e.profile in s.profiles
    case DeviceUpdate => e.profile in s.profiles
    case Admit => e.profile in s.profiles && e.request in s.requests
    case Dispatch => e.request in s.requests
    case Complete => e.request in s.requests
    case Unknown(_) => true
  }

  ghost predicate SameEntry<V>(a: map<string, V>, b: map<string, V>, k: string)
  {
    (k in a <==> k in b) && (k in a ==> a[k] == b[k])
  }

  /** The two states agree on everything named by s. */
  ghost predicate Agree(a: State, b: State, s: Names)
  {
    && (forall p | p in s.profiles :: SameEntry(a.profiles, b.profiles, p))
    && (forall r | r in s.requests :: SameEntry(a.admissions, b.admissions, r))
    && forall c | c in s.digests :: c in a.tombstones <==> c in b.tombstones
  }

  /** Profiles of s hold digests of s, and requests of s hold profiles of s. */
  ghost predicate Closed(st: State, s: Names)
  {
    && (forall p | p in s.profiles && p in st.profiles :: st.profiles[p].contract in s.digests)
    && forall r | r in s.requests && r in st.admissions :: st.admissions[r].profile in s.profiles
  }

  /** The outcomes agree, reports included. */
  ghost predicate SameOutcome(a: (State, seq<Finding>), b: (State, seq<Finding>), s: Names)
  {
    a.1 == b.1 && Agree(a.0, b.0, s) && Closed(a.0, s)
  }

  lemma LocalPublish(a: State, b: State, s: Names, e: Event)
    requires e.profile in s.profiles && e.contractDigest in s.digests && Agree(a, b, s) && Closed(a, s)
    ensures SameOutcome(PublishStep(a, e), PublishStep(b, e), s)
  {
    assert SameEntry(a.profiles, b.profiles, e.profile);
  }

  lemma LocalRevoke(a: State, b: State, s: Names, e: Event)
    requires e.profile in s.profiles && Agree(a, b, s) && Closed(a, s)
    ensures SameOutcome(RevokeStep(a, e), RevokeStep(b, e), s)
  {}

  lemma LocalDevice(a: State, b: State, s: Names, e: Event)
    requires e.profile in s.profiles && Agree(a, b, s) && Closed(a, s)
    ensures SameOutcome(DeviceStep(a, e), DeviceStep(b, e), s)
  {}

  lemma LocalAdmit(a: State, b: State, s: Names, e: Event)
    requires e.profile in s.profiles && e.request in s.requests && Agree(a, b, s) && Closed(a, s)
    ensures SameOutcome(AdmitStep(a, e), AdmitStep(b, e), s)
  {}

  lemma LocalDispatch(a: State, b: State, s: Names, e: Event)
    requires e.request in s.requests && Agree(a, b, s) && Closed(a, s)
    ensures DispatchStep(a, e) == DispatchStep(b, e)
  {}

  lemma LocalComplete(a: State, b: State, s: Names, e: Event)
    requires e.request in s.requests && Agree(a, b, s) && Closed(a, s)
    ensures SameOutcome(CompleteStep(a, e), CompleteStep(b, e), s)
  {}

  /** An event of s acts on both states alike. */
  lemma LocalStep(a: State, b: State, s: Names, e: Event)
    requires Uses(e, s) && Agree(a, b, s) && Closed(a, s)
    ensures SameOutcome(Step(a, e), Step(b, e), s)
  {
    hide PublishStep;
    hide RevokeStep;
    hide DeviceStep;
    hide AdmitStep;
    hide DispatchStep;
    hide CompleteStep;
    hide Agree;
    hide Closed;
    match e.typ
    case Publish => LocalPublish(a, b, s, e);
    case Revoke => LocalRevoke(a, b, s, e);
    case DeviceUpdate => LocalDevice(a, b, s, e);
    case Admit => LocalAdmit(a, b, s, e);
    case Dispatch => LocalDispatch(a, b, s, e);
    case Complete => LocalComplete(a, b, s, e);
    case Unknown(_) =>
  }

  /** An event of unrelated names changes nothing that s names. */
  lemma ForeignStep(a: State, b: State, s: Names, o: Names, e: Event)
    requires Uses(e, o) && Disjoint(s, o) && Agree(a, b, s) && Closed(a, s) && Closed(a, o)
    ensures Agree(Step(a, e).0, b, s) && Closed(Step(a, e).0, s)
  {}

  // ----- shuffles

  /** The events of h that carry the given side. */
  function Side(h: seq<Event>, sides: seq<bool>, side: bool): seq<Event>
    requires |h| == |sides|
  {
    if h == [] then []
    else
      var rest := Side(h[..|h| - 1], sides[..|h| - 1], side);
      if sides[|h| - 1] == side then rest + [h[|h| - 1]] else rest
  }

  ghost predicate Shuffle(h: seq<Event>, sides: seq<bool>, left: Names, right: Names)
  {
    && |h| == |sides| && Disjoint(left, right)
    && forall i | 0 <= i < |h| :: Uses(h[i], if sides[i] then left else right)
  }

  function Of(left: Names, right: Names, side: bool): Names { if side then left else right }

  lemma StateSnoc(h: seq<Event>, e: Event, n: nat)
    requires n <= |h|
    ensures StateAt(h + [e], n) == StateAt(h, n)
    ensures ViolationsAt(h + [e], n) == ViolationsAt(h, n)
  {}

  /** Running the shuffle tracks running each trace alone. */
  lemma {:induction false} ShuffleState(h: seq<Event>, sides: seq<bool>, left: Names, right: Names, side: bool)
    requires Shuffle(h, sides, left, right)
    ensures var own := Side(h, sides, side);
            && Agree(StateAt(h, |h|), StateAt(own, |own|), Of(left, right, side))
            && Closed(StateAt(h, |h|), Of(left, right, side))
  {
    hide Step;
    hide Uses;
    hide Agree;
    hide Closed;
    var s, o := Of(left, right, side), Of(left, right, !side);
    if h == [] {
      StartAgrees(s);
      assert StateAt(h, 0) == INITIAL && Side(h, sides, side) == [];
    } else {
      var n := |h| - 1;
      var g, own := h[..n], Side(h[..n], sides[..n], side);
      ShuffleState(g, sides[..n], left, right, side);
      ShuffleState(g, sides[..n], left, right, !side);
      assert h == g + [h[n]];
      StateSnoc(g, h[n], n);
      if sides[n] == side {
        StateSnoc(own, h[n], |own|);
        LocalStep(StateAt(g, n), StateAt(own, |own|), s, h[n]);
      } else {
        ForeignStep(StateAt(g, n), StateAt(own, |own|), s, o, h[n]);
      }
    }
  }

  lemma StartAgrees(s: Names)
    ensures Agree(INITIAL, INITIAL, s) && Closed(INITIAL, s)
  {}

  /** What the last event of a shuffle reports is what it reports at the end of its own trace. */
  lemma LastFindings(h: seq<Event>, sides: seq<bool>, left: Names, right: Names)
    requires Shuffle(h, sides, left, right) && h != []
    ensures var own := Side(h, sides, sides[|h| - 1]);
            own != [] && FindingsAt(h, |h| - 1) == FindingsAt(own, |own| - 1)
  {
    hide Step;
    hide Agree;
    hide Closed;
    hide Uses;
    var n := |h| - 1;
    var side := sides[n];
    var g, before := h[..n], Side(h[..n], sides[..n], side);
    ShuffleState(g, sides[..n], left, right, side);
    assert h == g + [h[n]];
    StateSnoc(g, h[n], n);
    StateSnoc(before, h[n], |before|);
    LocalStep(StateAt(g, n), StateAt(before, |before|), Of(left, right, side), h[n]);
  }

  /**
   The violations of the two traces merged at their shuffled positions: each
   event contributes what it contributes in its own trace, under its new index.
   */
  function Merged(h: seq<Event>, sides: seq<bool>): seq<Violation>
    requires |h| == |sides|
  {
    if h == [] then []
    else
      var n := |h| - 1;
      var own := Side(h, sides, sides[n]);
      assert own[|own| - 1] == h[n];
      Merged(h[..n], sides[..n]) + Tagged(n, FindingsAt(own, |own| - 1))
  }

  /** A shuffle of unrelated traces reports exactly the merged violations. */
  lemma {:induction false} ShuffleViolations(h: seq<Event>, sides: seq<bool>, left: Names, right: Names)
    requires Shuffle(h, sides, left, right)
    ensures ViolationsAt(h, |h|) == Merged(h, sides)
  {
    hide Uses;
    hide Step;
    if h != [] {
      var n := |h| - 1;
      ShuffleViolations(h[..n], sides[..n], left, right);
      LastFindings(h, sides, left, right);
      assert h == h[..n] + [h[n]];
      StateSnoc(h[..n], h[n], n);
    }
  }

  /** ... so it is valid exactly when both traces are. */
  lemma {:induction false} ShuffleValidIff(h: seq<Event>, sides: seq<bool>, left: Names, right: Names)
    requires Shuffle(h, sides, left, right)
    ensures Silent(h) <==> Silent(Side(h, sides, true)) && Silent(Side(h, sides, false))
  {
    hide Uses;
    if h == [] {
      assert Side(h, sides, true) == [] && Side(h, sides, false) == [];
    } else {
      var n := |h| - 1;
      var side := sides[n];
      ShuffleValidIff(h[..n], sides[..n], left, right);
      LastFindings(h, sides, left, right);
      assert h == h[..n] + [h[n]];
      SilentSnoc(h[..n], h[n]);
      SilentSnoc(Side(h[..n], sides[..n], side), h[n]);
    }
  }

  ghost predicate Silent(h: seq<Event>) { ViolationsAt(h, |h|) == [] }

  lemma SilentSnoc(h: seq<Event>, e: Event)
    ensures Silent(h + [e]) <==> Silent(h) && FindingsAt(h + [e], |h|) == []
  {
    StateSnoc(h, e, |h|);
  }
}
