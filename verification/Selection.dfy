/** pkg/planner/planner.go: Select. */
module Selection {
  import opened Texts
  import opened Reasons
  import opened Profiles
  import opened Planner
  import opened Evaluation
  import opened Admission

  // ----- the decision, freed from iteration order

  lemma {:induction false} EnumerationExists(keys: set<string>)
    ensures exists ks :: Enumerates(ks, keys)
    decreases |keys|
  {
    if keys == {} {
      assert Enumerates([], keys);
    } else {
      var k :| k in keys;
      EnumerationExists(keys - {k});
      var ks :| Enumerates(ks, keys - {k});
      assert Enumerates(ks + [k], keys);
    }
  }

  lemma OrdersExist(p: Profile, r: Request, phase: Phase, ev: Evidence)
    ensures exists o :: ValidOrders(p, r, phase, ev, o)
  {
    hide Enumerates;
    EnumerationExists(r.inputs.Keys);
    EnumerationExists(p.features.Keys);
    EnumerationExists(Observed(r, phase, ev).Keys);
    EnumerationExists(p.metrics.Keys);
    EnumerationExists(p.versions.Keys);
    var a :| Enumerates(a, r.inputs.Keys);
    var b :| Enumerates(b, p.features.Keys);
    var c :| Enumerates(c, Observed(r, phase, ev).Keys);
    var d :| Enumerates(d, p.metrics.Keys);
    var e :| Enumerates(e, p.versions.Keys);
    assert ValidOrders(p, r, phase, ev, Orders(a, b, c, d, e));
  }

  /** The decision on p, whatever order its maps are iterated in. */
  ghost function Verdict(p: Profile, r: Request, phase: Phase, ev: Evidence): Outcome
  {
    OrdersExist(p, r, phase, ev);
    var o :| ValidOrders(p, r, phase, ev, o);
    Evaluated(p, r, phase, ev, o)
  }

  lemma VerdictIs(p: Profile, r: Request, phase: Phase, ev: Evidence, o: Orders)
    requires ValidOrders(p, r, phase, ev, o)
    ensures Evaluated(p, r, phase, ev, o) == Verdict(p, r, phase, ev)
  {
    hide Evaluated;
    hide ValidOrders;
    OrdersExist(p, r, phase, ev);
    var q :| ValidOrders(p, r, phase, ev, q) && Verdict(p, r, phase, ev) == Evaluated(p, r, phase, ev, q);
    EvaluateDeterministic(p, r, phase, ev, o, q);
  }

  // ----- Select

  ghost predicate Admits(p: Profile, r: Request, phase: Phase, ev: Evidence) { Verdict(p, r, phase, ev).admissible }

  /** p has the lower latency bound, or the same bound and the lower name. */
  ghost predicate Precedes(p: Profile, q: Profile, r: Request, phase: Phase, ev: Evidence)
  {
    var a, b := Verdict(p, r, phase, ev).upper, Verdict(q, r, phase, ev).upper;
    a < b || (a == b && Before(p.name, q.name))
  }

  function EmptyCatalogOutcome(): Outcome
  {
    Outcome(false, "", 0.0, 0.0, 0.0, 0.0, 0.0, 0.0, [Reason(EmptyCatalog, "", PLAIN)])
  }

  /** c[i] is the first of the least admissible profiles among the first n. */
  ghost predicate LeastAt(c: seq<Profile>, n: nat, i: nat, r: Request, phase: Phase, ev: Evidence)
  {
    && i < n <= |c| && Admits(c[i], r, phase, ev)
    && (forall j | 0 <= j < n && Admits(c[j], r, phase, ev) :: !Precedes(c[j], c[i], r, phase, ev))
    && (forall j | 0 <= j < i && Admits(c[j], r, phase, ev) :: Precedes(c[i], c[j], r, phase, ev))
  }

  /** The state of Select after the first n profiles; outcome is the rejection of c[0] while none is admissible. */
  ghost predicate SelectedFrom(
    c: seq<Profile>, n: nat, r: Request, phase: Phase, ev: Evidence, best: Option<nat>, outcome: Outcome)
    requires n <= |c|
  {
    match best
    case None =>
      && (forall j | 0 <= j < n :: !Admits(c[j], r, phase, ev))
      && (n > 0 ==> outcome == Verdict(c[0], r, phase, ev))
    case Some(i) => LeastAt(c, n, i, r, phase, ev) && outcome == Verdict(c[i], r, phase, ev)
  }

  /** What Select returns: the least admissible profile and its decision, or the first profile's rejection. */
  ghost predicate Selected(c: seq<Profile>, r: Request, phase: Phase, ev: Evidence, best: Option<nat>, outcome: Outcome)
  {
    && SelectedFrom(c, |c|, r, phase, ev, best, outcome)
    && (c == [] ==> outcome == EmptyCatalogOutcome())
  }

  lemma PrecedesOrder(p: Profile, q: Profile, s: Profile, r: Request, phase: Phase, ev: Evidence)
    ensures !Precedes(p, p, r, phase, ev)
    ensures Precedes(p, q, r, phase, ev) ==> !Precedes(q, p, r, phase, ev)
    ensures Precedes(p, q, r, phase, ev) && !Precedes(s, q, r, phase, ev) ==> !Precedes(s, p, r, phase, ev)
    ensures Precedes(p, q, r, phase, ev) && Precedes(q, s, r, phase, ev) ==> Precedes(p, s, r, phase, ev)
    ensures p.name != q.name ==> Precedes(p, q, r, phase, ev) || Precedes(q, p, r, phase, ev)
  {
    hide Verdict;
    hide Less;
    hide Before;
    BeforeIsLess();
    LessTotal(p.name, p.name);
    LessTotal(p.name, q.name);
    LessTotal(q.name, s.name);
    if Less(s.name, p.name) && Less(p.name, q.name) {
      LessTransitive(s.name, p.name, q.name);
    }
    if Less(p.name, q.name) && Less(q.name, s.name) {
      LessTransitive(p.name, q.name, s.name);
    }
  }

  lemma BeforeIsLess()
    ensures forall a: string, b: string :: Before(a, b) <==> Less(a, b)
  {
    hide Before;
    hide Less;
    forall a: string, b: string ensures Before(a, b) <==> Less(a, b) {
      LessIsBefore(a, b);
    }
  }

  lemma SelectStep(
    c: seq<Profile>, n: nat, r: Request, phase: Phase, ev: Evidence, best: Option<nat>, outcome: Outcome)
    requires n < |c| && SelectedFrom(c, n, r, phase, ev, best, outcome)
    ensures !Admits(c[n], r, phase, ev) ==>
      SelectedFrom(c, n + 1, r, phase, ev, best, if n == 0 then Verdict(c[n], r, phase, ev) else outcome)
    ensures Admits(c[n], r, phase, ev) && (best.Some? ==> Precedes(c[n], c[best.value], r, phase, ev)) ==>
      SelectedFrom(c, n + 1, r, phase, ev, Some(n), Verdict(c[n], r, phase, ev))
    ensures Admits(c[n], r, phase, ev) && best.Some? && !Precedes(c[n], c[best.value], r, phase, ev) ==>
      SelectedFrom(c, n + 1, r, phase, ev, best, outcome)
  {
    hide Admits;
    hide Precedes;
    hide Verdict;
    PrecedesOrder(c[n], c[n], c[n], r, phase, ev);
    if best.Some? && Precedes(c[n], c[best.value], r, phase, ev) {
      forall j | 0 <= j < n && Admits(c[j], r, phase, ev)
        ensures !Precedes(c[j], c[n], r, phase, ev) && Precedes(c[n], c[j], r, phase, ev)
      {
        BeforeAll(c, n, best.value, j, r, phase, ev);
      }
    }
  }

  /** What precedes the least precedes every admissible profile. */
  lemma BeforeAll(c: seq<Profile>, n: nat, i: nat, j: nat, r: Request, phase: Phase, ev: Evidence)
    requires n < |c| && LeastAt(c, n, i, r, phase, ev) && Precedes(c[n], c[i], r, phase, ev)
    requires j < n && Admits(c[j], r, phase, ev)
    ensures !Precedes(c[j], c[n], r, phase, ev) && Precedes(c[n], c[j], r, phase, ev)
  {
    hide Verdict;
    hide Admits;
    hide Less;
    hide Before;
    BeforeIsLess();
    PrecedesOrder(c[n], c[i], c[j], r, phase, ev);
    LessTotal(c[i].name, c[j].name);
  }

  method Select(c: seq<Profile>, r: Request, phase: Phase, ev: Evidence, orders: seq<Orders>)
    returns (best: Option<nat>, outcome: Outcome)
    requires |orders| == |c|
    requires forall i | 0 <= i < |c| :: ValidOrders(c[i], r, phase, ev, orders[i])
    requires forall i | 0 <= i < |c| :: c[i].invalid.None? ==> ShapesMatch(c[i].ood)
    ensures Selected(c, r, phase, ev, best, outcome)
    ensures best.None? <==> forall j | 0 <= j < |c| :: !Verdict(c[j], r, phase, ev).admissible
    ensures best.Some? ==>
              && best.value < |c| && outcome == Verdict(c[best.value], r, phase, ev) && outcome.admissible
              && forall j | 0 <= j < |c| && Verdict(c[j], r, phase, ev).admissible ::
                   var other, p, q := Verdict(c[j], r, phase, ev), c[best.value].name, c[j].name;
                   || outcome.upper < other.upper
                   || (outcome.upper == other.upper && ((p == q && best.value <= j) || Before(p, q)))
    ensures c == [] ==> outcome.reasons == [Reason(EmptyCatalog, "", Message([], []))] && !outcome.admissible
    ensures best.None? && c != [] ==> outcome == Verdict(c[0], r, phase, ev)
  {
    hide ValidOrders;
    hide ShapesMatch;
    hide Evaluated;
    hide Verdict;
    hide LeastAt;
    hide Less;
    hide Before;
    BeforeIsLess();
    best, outcome := None, Outcome(false, "", 0.0, 0.0, 0.0, 0.0, 0.0, 0.0, []);
    var first := true;
    for i := 0 to |c|
      invariant SelectedFrom(c, i, r, phase, ev, best, outcome)
      invariant first <==> i == 0
      invariant best.Some? ==> best.value < i
    {
      var d := Evaluate(c[i], r, phase, ev, orders[i]);
      VerdictIs(c[i], r, phase, ev, orders[i]);
      SelectStep(c, i, r, phase, ev, best, outcome);
      var decision := d.View();
      if !decision.admissible {
        if first {
          outcome := decision;
          first := false;
        }
      } else {
        if best.None? || decision.upper < outcome.upper
           || (decision.upper == outcome.upper && Less(c[i].name, c[best.value].name))
        {
          best, outcome := Some(i), decision;
          first := false;
        }
      }
    }
    if best.None? && first {
      outcome := EmptyCatalogOutcome();
    }
    LeastIsFirst(c, r, phase, ev, best, outcome);
  }

  lemma LeastIsFirst(c: seq<Profile>, r: Request, phase: Phase, ev: Evidence, best: Option<nat>, outcome: Outcome)
    requires Selected(c, r, phase, ev, best, outcome)
    ensures best.None? <==> forall j | 0 <= j < |c| :: !Verdict(c[j], r, phase, ev).admissible
    ensures best.Some? ==>
              && best.value < |c| && outcome == Verdict(c[best.value], r, phase, ev) && outcome.admissible
              && forall j | 0 <= j < |c| && Verdict(c[j], r, phase, ev).admissible ::
                   var other, p, q := Verdict(c[j], r, phase, ev), c[best.value].name, c[j].name;
                   || outcome.upper < other.upper
                   || (outcome.upper == other.upper && ((p == q && best.value <= j) || Before(p, q)))
  {
    hide Verdict;
    hide Less;
    hide Before;
    BeforeIsLess();
    if best.Some? {
      forall j | 0 <= j < |c| && Admits(c[j], r, phase, ev)
        ensures !Precedes(c[j], c[best.value], r, phase, ev)
      {}
      forall j | 0 <= j < |c| ensures c[j].name == c[best.value].name || Before(c[j].name, c[best.value].name)
                                      || Before(c[best.value].name, c[j].name)
      {
        LessTotal(c[j].name, c[best.value].name);
      }
    }
  }

  // ----- catalog order

  ghost predicate DistinctNames(c: seq<Profile>) { forall i, j | 0 <= i < j < |c| :: c[i].name != c[j].name }

  /**
   Reordering a catalog of distinct names does not change the chosen profile. It does not change the decision
   either, except when nothing is admissible and the first profiles are rejected differently.
   */
  lemma SelectIgnoresOrder(
    c: seq<Profile>, d: seq<Profile>, r: Request, phase: Phase, ev: Evidence,
    best: Option<nat>, outcome: Outcome, best': Option<nat>, outcome': Outcome)
    requires multiset(c) == multiset(d) && DistinctNames(c)
    requires Selected(c, r, phase, ev, best, outcome) && Selected(d, r, phase, ev, best', outcome')
    ensures best.Some? <==> best'.Some?
    ensures best.Some? ==> c[best.value] == d[best'.value] && outcome == outcome'
    ensures best.None? ==> !outcome.admissible && !outcome'.admissible
    ensures outcome == outcome'
       <==> best.Some? || c == [] || Verdict(c[0], r, phase, ev) == Verdict(d[0], r, phase, ev)
  {
    hide Verdict;
    hide Precedes;
    assert |multiset(c)| == |c| && |multiset(d)| == |d|;
    forall p ensures p in c <==> p in d {
      assert p in multiset(c) <==> p in c;
      assert p in multiset(d) <==> p in d;
    }
    if best.Some? {
      assert c[best.value] in d;
    }
    if best'.Some? {
      assert d[best'.value] in c;
    }
    if best.Some? && best'.Some? {
      var p, q := c[best.value], d[best'.value];
      var i :| 0 <= i < |c| && c[i] == q;
      var j :| 0 <= j < |d| && d[j] == p;
      PrecedesOrder(p, q, q, r, phase, ev);
    }
  }
}
