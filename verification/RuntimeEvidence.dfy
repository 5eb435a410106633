/** What the runtime phase takes from the evidence and what the plan phase takes from the request. */
module RuntimeEvidence {
  import opened Floats
  import opened Texts
  import opened Reasons
  import opened Profiles
  import opened VersionRange
  import opened Planner
  import opened Evaluation
  import opened Admission
  import opened Selection

  lemma {:induction false} CollectExt<T(!new)>(f: T -> seq<Reason>, g: T -> seq<Reason>, ks: seq<T>)
    requires forall k :: f(k) == g(k)
    ensures Collect(f, ks) == Collect(g, ks)
  {
    if ks != [] {
      CollectExt(f, g, ks[..|ks| - 1]);
    }
  }

  /** The checks read the inputs of a request, not its observations and versions. */
  lemma SameInputs(p: Profile, r: Request, q: Request, o: Orders, observed: map<string, Float>)
    requires r.inputs == q.inputs
    ensures InputReasons(p, r, o) == InputReasons(p, q, o)
    ensures Collect(MissingChecks(r, observed), Names(p)) == Collect(MissingChecks(q, observed), Names(p))
  {
    hide Path;
    hide ValueReasons;
    hide Resolve;
    hide Union;
    forall name ensures FeatureChecks(p, r)(name) == FeatureChecks(p, q)(name) {
      assert FeatureChecks(p, r)(name) == FeatureReasons(p, r, name);
      assert FeatureChecks(p, q)(name) == FeatureReasons(p, q, name);
    }
    CollectExt(FeatureChecks(p, r), FeatureChecks(p, q), o.features);
    forall rel ensures RelationChecks(r)(rel) == RelationChecks(q)(rel) {
      assert RelationChecks(r)(rel) == RelationReasons(r, rel);
      assert RelationChecks(q)(rel) == RelationReasons(q, rel);
    }
    CollectExt(RelationChecks(r), RelationChecks(q), p.relations);
    forall name ensures MissingChecks(r, observed)(name) == MissingChecks(q, observed)(name) {
      assert MissingChecks(r, observed)(name) == MissingReasons(r, observed, name);
      assert MissingChecks(q, observed)(name) == MissingReasons(q, observed, name);
    }
    CollectExt(MissingChecks(r, observed), MissingChecks(q, observed), Names(p));
  }

  /** The two requests differ at most in their observations and versions. */
  predicate SameRest(r: Request, q: Request)
  {
    q == r.(interference := q.interference, versions := q.versions)
  }

  /** The two evaluations have the same observations and versions in force and the same device metadata. */
  lemma SameInForce(p: Profile, r: Request, q: Request, phase: Phase, ev: Evidence, fv: Evidence)
    requires SameRest(r, q)
    requires Observed(r, phase, ev) == Observed(q, phase, fv) && Versions(r, phase, ev) == Versions(q, phase, fv)
    requires phase == Runtime ==> ev.metadata == fv.metadata && ev.requestName == fv.requestName
    ensures Verdict(p, r, phase, ev) == Verdict(p, q, phase, fv)
  {
    OrdersExist(p, r, phase, ev);
    var o :| ValidOrders(p, r, phase, ev, o);
    SameReasons(p, r, q, phase, ev, fv, o);
    hide ValidOrders;
    hide Evaluated;
    hide Observed;
    hide Versions;
    VerdictIs(p, r, phase, ev, o);
    VerdictIs(p, q, phase, fv, o);
  }

  lemma SameReasons(p: Profile, r: Request, q: Request, phase: Phase, ev: Evidence, fv: Evidence, o: Orders)
    requires SameRest(r, q) && ValidOrders(p, r, phase, ev, o)
    requires Observed(r, phase, ev) == Observed(q, phase, fv) && Versions(r, phase, ev) == Versions(q, phase, fv)
    requires phase == Runtime ==> ev.metadata == fv.metadata && ev.requestName == fv.requestName
    ensures ValidOrders(p, q, phase, fv, o) && Evaluated(p, r, phase, ev, o) == Evaluated(p, q, phase, fv, o)
  {
    hide Path;
    hide Observed;
    hide Versions;
    hide Enumerates;
    hide InputReasons;
    hide InterferenceReasons;
    hide PreambleReasons;
    hide NumericalReasons;
    hide LatencyReasons;
    hide OodReasons;
    hide DraReasons;
    hide Collect;
    hide Predict;
    hide UpperBound;
    hide OodScore;
    hide StableSort;
    hide Feature;
    SameInputs(p, r, q, o, Observed(r, phase, ev));
    SameFeatures(p, r, q, phase, ev, fv);
    SameBudgets(p, r, q);
    hide Features;
    hide HasFeatures;
    assert CheckReasons(p, r, phase, ev, o) == CheckReasons(p, q, phase, fv, o);
    assert BudgetReasons(p, r, phase, ev) == BudgetReasons(p, q, phase, fv);
    assert AllReasons(p, r, phase, ev, o) == AllReasons(p, q, phase, fv, o);
  }

  lemma SameBudgets(p: Profile, r: Request, q: Request)
    requires SameRest(r, q)
    ensures forall features :: LatencyReasons(p, r, features) == LatencyReasons(p, q, features)
    ensures PreambleReasons(p, r) == PreambleReasons(p, q) && NumericalReasons(p, r) == NumericalReasons(p, q)
  {
    hide Path;
    hide Predict;
    hide UpperBound;
  }

  lemma SameFeatures(p: Profile, r: Request, q: Request, phase: Phase, ev: Evidence, fv: Evidence)
    requires SameRest(r, q) && Observed(r, phase, ev) == Observed(q, phase, fv)
    ensures Features(p, r, phase, ev) == Features(p, q, phase, fv)
    ensures HasFeatures(p, r, phase, ev) <==> HasFeatures(p, q, phase, fv)
  {
    hide Observed;
    hide Feature;
    hide Union;
  }

  /** Runtime evidence replaces what the request says: its maps decide as if the request had carried them. */
  lemma EvidenceReplaces(p: Profile, r: Request, ev: Evidence)
    ensures ev.interference.Some? ==>
      Verdict(p, r, Runtime, ev)
      == Verdict(p, r.(interference := ev.interference.value), Runtime, ev.(interference := None))
    ensures ev.versions.Some? ==>
      Verdict(p, r, Runtime, ev) == Verdict(p, r.(versions := ev.versions.value), Runtime, ev.(versions := None))
  {
    hide Verdict;
    if ev.interference.Some? {
      SameInForce(p, r, r.(interference := ev.interference.value), Runtime, ev, ev.(interference := None));
    }
    if ev.versions.Some? {
      SameInForce(p, r, r.(versions := ev.versions.value), Runtime, ev, ev.(versions := None));
    }
  }

  /** With both maps in the evidence, what the request says of them is never read. */
  lemma RequestNotRead(
    p: Profile, r: Request, ev: Evidence, interference: map<string, Float>, versions: map<string, string>)
    requires ev.interference.Some? && ev.versions.Some?
    ensures Verdict(p, r, Runtime, ev)
         == Verdict(p, r.(interference := interference, versions := versions), Runtime, ev)
  {
    hide Verdict;
    SameInForce(p, r, r.(interference := interference, versions := versions), Runtime, ev, ev);
  }

  /** A plan does not depend on the evidence. */
  lemma PlanIgnoresEvidence(p: Profile, r: Request, ev: Evidence, fv: Evidence)
    ensures Verdict(p, r, Plan, ev) == Verdict(p, r, Plan, fv)
  {
    hide Verdict;
    SameInForce(p, r, r, Plan, ev, fv);
  }

  /** What is admitted at runtime conforms in what was observed at runtime. */
  lemma RuntimeAdmission(p: Profile, r: Request, ev: Evidence)
    requires Verdict(p, r, Runtime, ev).admissible
    ensures ev.interference.Some? ==>
      && ev.interference.value.Keys == p.metrics.Keys
      && forall name | name in p.metrics ::
           var v, range := ev.interference.value[name], p.metrics[name];
           v.Finite? && range.minimum <= v.r <= range.maximum
    ensures ev.versions.Some? ==>
      && p.versions.Keys <= ev.versions.value.Keys
      && forall c | c in p.versions :: MatchText(ev.versions.value[c], p.versions[c]) == Accepted
  {
    OrdersExist(p, r, Runtime, ev);
    var o :| ValidOrders(p, r, Runtime, ev, o);
    VerdictIs(p, r, Runtime, ev, o);
    var observed := if ev.interference.Some? then ev.interference.value else r.interference;
    var versions := if ev.versions.Some? then ev.versions.value else r.versions;
    AdmissibleIff(p, r, Runtime, ev, o, observed, versions);
    hide Verdict;
    hide Evaluated;
    hide ValidOrders;
    hide MatchText;
    assert Meets(p, r, Runtime, ev, observed, versions);
  }
}
