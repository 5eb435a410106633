/**
 tools/calibration/c2k_stats.py: one-sided tolerance ranks, and the
 distribution-free guarantee they carry for samples with replacement from any
 finite population.
 */
module Tolerance {
  import opened Floats
  import opened Complexes
  import opened OrderStatistics
  import opened Conformal
  import opened Binomial

  const SLACK := 0.000000000000001

  predicate Confident(n: nat, k: int, content: real, confidence: real)
  {
    Tail(n, k - 1, content) + SLACK >= confidence
  }

  /** k is the least rank in 1..n that passes the confidence test. */
  ghost predicate IsRank(n: nat, content: real, confidence: real, k: int)
  {
    && 1 <= k <= n && Confident(n, k, content, confidence)
    && forall j | 1 <= j < k :: !Confident(n, j, content, confidence)
  }

  lemma {:induction false} ConfidentRises(n: nat, j: int, k: int, content: real, confidence: real)
    requires 0.0 <= content <= 1.0 && j <= k && Confident(n, j, content, confidence)
    ensures Confident(n, k, content, confidence)
    decreases k - j
  {
    if j < k {
      TailRises(n, j, content);
      ConfidentRises(n, j + 1, k, content, confidence);
    }
  }

  // ----- the code

  /** The least rank, refused exactly when even the largest sample cannot certify the content. */
  method ToleranceRank(n: int, content: Float, confidence: Float) returns (r: Result<int>)
    ensures r.Ok? <==>
              && n > 0 && content.Finite? && 0.0 < content.r < 1.0 && confidence.Finite? && 0.0 < confidence.r < 1.0
              && 1.0 - Pow(content.r, n) + 0.000000000000001 >= confidence.r
    ensures r.Ok? ==> IsRank(n, content.r, confidence.r, r.value)
  {
    hide Tail;
    hide Pow;
    if !IsProbability(content) || !IsProbability(confidence) || n <= 0 {
      return ValueError;
    }
    TailLast(n, content.r);
    for k := 1 to n + 1
      invariant forall j | 1 <= j < k :: !Confident(n, j, content.r, confidence.r)
    {
      var cdf := BinomialCdf(k - 1, n, content);
      if cdf.value + SLACK >= confidence.r {
        ConfidentRises(n, k, n, content.r, confidence.r);
        return Ok(k);
      }
    }
    assert !Confident(n, n, content.r, confidence.r);
    return ValueError;
  }

  /** The bound, its rank and the achieved confidence. */
  method ToleranceUpper(values: seq<Float>, content: Float, confidence: Float) returns (r: Result<(real, int, real)>)
    ensures r.Ok? <==>
              && values != [] && (forall i | 0 <= i < |values| :: values[i].Finite?)
              && content.Finite? && 0.0 < content.r < 1.0 && confidence.Finite? && 0.0 < confidence.r < 1.0
              && 1.0 - Pow(content.r, |values|) + 0.000000000000001 >= confidence.r
    ensures r.Ok? ==>
              && IsRank(|values|, content.r, confidence.r, r.value.1)
              && r.value.0 == OrderStat(FiniteVector(values).value, r.value.1)
              && r.value.2 == Tail(|values|, r.value.1 - 1, content.r) >= confidence.r - 0.000000000000001
  {
    hide Tail;
    hide Pow;
    hide OrderStat;
    var a := FiniteVector(values);
    if a.ValueError? {
      return ValueError;
    }
    var rank := ToleranceRank(|a.value|, content, confidence);
    if rank.ValueError? {
      return ValueError;
    }
    var achieved := BinomialCdf(rank.value - 1, |a.value|, content);
    return Ok((OrderStat(a.value, rank.value), rank.value, achieved.value));
  }

  // ----- monotonicity

  /** Asking for more content or more confidence never lowers the rank. */
  lemma RankMonotone(n: nat, content: real, content': real, confidence: real, confidence': real, k: int, k': int)
    requires 0.0 <= content <= content' <= 1.0 && confidence <= confidence'
    requires IsRank(n, content, confidence, k) && IsRank(n, content', confidence', k')
    ensures k <= k'
  {
    hide Tail;
    TailFalls(n, k' - 1, content, content');
    assert Confident(n, k', content, confidence);
  }

  // ----- samples with replacement

  ghost function Indices(M: nat): (ids: set<int>)
    ensures forall i :: i in ids <==> 0 <= i < M
    ensures |ids| == M
  {
    if M == 0 then {} else Indices(M - 1) + {M - 1}
  }

  ghost function Extend(S: set<seq<int>>, V: set<int>): set<seq<int>>
  {
    set s, v | s in S && v in V :: s + [v]
  }

  /** All n-fold index samples from a population of M. */
  ghost function Samples(M: nat, n: nat): set<seq<int>>
  {
    if n == 0 then {[]} else Extend(Samples(M, n - 1), Indices(M))
  }

  function Hits(s: seq<int>, bad: set<int>): nat
  {
    if s == [] then 0 else Hits(s[..|s| - 1], bad) + if s[|s| - 1] in bad then 1 else 0
  }

  /** Samples with at most k bad draws. */
  ghost function Low(M: nat, n: nat, k: int, bad: set<int>): set<seq<int>>
  {
    set s | s in Samples(M, n) && Hits(s, bad) <= k
  }

  function Init(s: seq<int>): seq<int>
    requires s != []
  {
    s[..|s| - 1]
  }

  function Last(s: seq<int>): int
    requires s != []
  {
    s[|s| - 1]
  }

  lemma Snoc(s: seq<int>, v: int)
    ensures Init(s + [v]) == s && Last(s + [v]) == v
  {}

  lemma Unsnoc(s: seq<int>)
    requires s != []
    ensures s == Init(s) + [Last(s)]
  {}

  lemma ExtendMembers(S: set<seq<int>>, V: set<int>)
    ensures forall x :: x in Extend(S, V) <==> x != [] && Init(x) in S && Last(x) in V
  {
    forall x
      ensures x in Extend(S, V) <==> x != [] && Init(x) in S && Last(x) in V
    {
      if x in Extend(S, V) {
        var s, v :| s in S && v in V && x == s + [v];
        Snoc(s, v);
      } else if x != [] {
        Unsnoc(x);
      }
    }
  }

  lemma {:induction false} ExtendOne(S: set<seq<int>>, v: int)
    ensures |Extend(S, {v})| == |S|
  {
    hide Extend;
    ExtendMembers(S, {v});
    if S == {} {
      assert Extend(S, {v}) == {};
    } else {
      var s :| s in S;
      ExtendOne(S - {s}, v);
      ExtendMembers(S - {s}, {v});
      Snoc(s, v);
      forall x | x in Extend(S, {v}) && Init(x) == s
        ensures x == s + [v]
      {
        Unsnoc(x);
      }
      assert Extend(S, {v}) == Extend(S - {s}, {v}) + {s + [v]};
    }
  }

  lemma {:induction false} ExtendCard(S: set<seq<int>>, V: set<int>, M: nat)
    requires V <= Indices(M)
    ensures |Extend(S, V)| == |S| * |V|
    decreases V
  {
    if V == {} {
      assert Extend(S, V) == {};
    } else {
      var v :| v in V;
      ExtendCard(S, V - {v}, M);
      ExtendSplit(S, V, v);
      ExtendOne(S, v);
      MulStep(|S|, |V|);
    }
  }

  lemma MulStep(a: int, b: int)
    ensures a * b == a * (b - 1) + a
  {}

  lemma ExtendSplit(S: set<seq<int>>, V: set<int>, v: int)
    requires v in V
    ensures |Extend(S, V)| == |Extend(S, V - {v})| + |Extend(S, {v})|
  {
    hide Extend;
    ExtendMembers(S, V);
    ExtendMembers(S, V - {v});
    ExtendMembers(S, {v});
    assert Extend(S, V) == Extend(S, V - {v}) + Extend(S, {v});
    assert Extend(S, V - {v}) !! Extend(S, {v});
  }

  /** Split the samples by their last draw. */
  lemma LowSplit(M: nat, n: nat, k: int, bad: set<int>)
    requires n > 0 && bad <= Indices(M)
    ensures Low(M, n, k, bad)
         == Extend(Low(M, n - 1, k - 1, bad), bad) + Extend(Low(M, n - 1, k, bad), Indices(M) - bad)
    ensures Extend(Low(M, n - 1, k - 1, bad), bad) !! Extend(Low(M, n - 1, k, bad), Indices(M) - bad)
  {
    hide Extend;
    ExtendMembers(Samples(M, n - 1), Indices(M));
    ExtendMembers(Low(M, n - 1, k - 1, bad), bad);
    ExtendMembers(Low(M, n - 1, k, bad), Indices(M) - bad);
  }

  lemma LowCardStep(M: nat, n: nat, k: int, bad: set<int>)
    requires n > 0 && bad <= Indices(M)
    ensures |Low(M, n, k, bad)| == |Low(M, n - 1, k - 1, bad)| * |bad| + |Low(M, n - 1, k, bad)| * (M - |bad|)
  {
    hide Low;
    hide Extend;
    LowSplit(M, n, k, bad);
    ExtendCard(Low(M, n - 1, k - 1, bad), bad, M);
    ExtendCard(Low(M, n - 1, k, bad), Indices(M) - bad, M);
    assert |Indices(M) - bad| == M - |bad|;
  }

  /** The share of samples with at most k bad draws is the binomial CDF at the bad fraction p. */
  lemma LowCard(M: nat, n: nat, k: int, bad: set<int>, m: real, p: real)
    requires m == M as real > 0.0 && bad <= Indices(M) && IsShare(|bad| as real, p, m)
    ensures |Low(M, n, k, bad)| as real == Tail(n, k, p) * Pow(m, n)
  {
    hide Tail;
    hide Pow;
    hide Low;
    LowCardShare(M, n, k, bad, m, p);
  }

  lemma {:induction false} LowCardShare(M: nat, n: nat, k: int, bad: set<int>, m: real, p: real)
    requires m == M as real > 0.0 && bad <= Indices(M) && IsShare(|bad| as real, p, m)
    ensures IsShare(|Low(M, n, k, bad)| as real, Tail(n, k, p), Pow(m, n))
  {
    hide Tail;
    hide Pow;
    hide Low;
    hide IsShare;
    if n == 0 {
      LowNone(M, k, bad, m, p);
    } else {
      LowCardStep(M, n, k, bad);
      LowCardShare(M, n - 1, k - 1, bad, m, p);
      LowCardShare(M, n - 1, k, bad, m, p);
      LowCardJoin(M, n, k, bad, m, p);
    }
  }

  lemma LowCardJoin(M: nat, n: nat, k: int, bad: set<int>, m: real, p: real)
    requires n > 0 && m == M as real && IsShare(|bad| as real, p, m)
    requires |Low(M, n, k, bad)| == |Low(M, n - 1, k - 1, bad)| * |bad| + |Low(M, n - 1, k, bad)| * (M - |bad|)
    requires IsShare(|Low(M, n - 1, k - 1, bad)| as real, Tail(n - 1, k - 1, p), Pow(m, n - 1))
    requires IsShare(|Low(M, n - 1, k, bad)| as real, Tail(n - 1, k, p), Pow(m, n - 1))
    ensures IsShare(|Low(M, n, k, bad)| as real, Tail(n, k, p), Pow(m, n))
  {
    hide Mixture;
    hide Low;
    hide IsShare;
    var x, y, w := Tail(n - 1, k - 1, p), Tail(n - 1, k, p), Pow(m, n - 1);
    ShareStep(M, |bad|, m, p, x, y, w, |Low(M, n - 1, k - 1, bad)|, |Low(M, n - 1, k, bad)|, |Low(M, n, k, bad)|,
              Pow(m, n));
  }

  lemma LowNone(M: nat, k: int, bad: set<int>, m: real, p: real)
    ensures IsShare(|Low(M, 0, k, bad)| as real, Tail(0, k, p), Pow(m, 0))
  {
    assert Low(M, 0, k, bad) == if k >= 0 then {[]} else {};
  }

  lemma ShareStep(
    M: int, b: int, m: real, p: real, x: real, y: real, w: real, lx: int, ly: int, l: int, whole: real)
    requires m == M as real && IsShare(b as real, p, m) && IsShare(lx as real, x, w) && IsShare(ly as real, y, w)
    requires l == lx * b + ly * (M - b) && whole == m * w
    ensures IsShare(l as real, Mixture(p, x, y), whole)
  {}

  lemma RealProduct(a: int, b: int)
    ensures (a * b) as real == a as real * b as real
  {}

  lemma {:induction false} SamplesCard(M: nat, n: nat, m: real)
    requires m == M as real
    ensures |Samples(M, n)| as real == Pow(m, n)
  {
    hide Extend;
    hide Indices;
    if n > 0 {
      SamplesCard(M, n - 1, m);
      ExtendCard(Samples(M, n - 1), Indices(M), M);
      RealProduct(|Samples(M, n - 1)|, M);
      assert |Samples(M, n)| == |Samples(M, n - 1)| * M;
      assert Pow(m, n) == m * Pow(m, n - 1);
    }
  }

  /** The samples are all sequences of n indices below M. */
  lemma {:induction false} SamplesIff(M: nat, n: nat, s: seq<int>)
    ensures s in Samples(M, n) <==> |s| == n && forall i | 0 <= i < n :: 0 <= s[i] < M
  {
    hide Extend;
    if n > 0 {
      ExtendMembers(Samples(M, n - 1), Indices(M));
      if s != [] {
        SamplesIff(M, n - 1, Init(s));
      }
    }
  }

  ghost function HitPositions(s: seq<int>, bad: set<int>): set<int> { set i | 0 <= i < |s| && s[i] in bad }

  lemma HitPositionsStep(s: seq<int>, bad: set<int>)
    requires s != []
    ensures var n := |s| - 1;
            && HitPositions(s, bad) == HitPositions(s[..n], bad) + (if s[n] in bad then {n} else {})
            && n !in HitPositions(s[..n], bad)
  {
    var n := |s| - 1;
    forall i | 0 <= i < n ensures s[..n][i] == s[i] {}
  }

  /** The hits are the positions that hold a bad index. */
  lemma {:induction false} HitsArePositions(s: seq<int>, bad: set<int>)
    ensures Hits(s, bad) == |set i | 0 <= i < |s| && s[i] in bad|
  {
    if s == [] {
      assert HitPositions(s, bad) == {};
    } else {
      var n := |s| - 1;
      HitsArePositions(s[..n], bad);
      assert HitPositions(s[..n], bad) == set i | 0 <= i < |s[..n]| && s[..n][i] in bad;
      HitPositionsStep(s, bad);
      AddOne(HitPositions(s[..n], bad), n, s[n] in bad);
      assert HitPositions(s, bad) == set i | 0 <= i < |s| && s[i] in bad;
      hide HitPositions;
    }
  }

  // ----- the guarantee

  /** The value drawn by each index of a sample. */
  function Pick(pop: seq<real>, s: seq<int>): (r: seq<real>)
    requires forall i | 0 <= i < |s| :: 0 <= s[i] < |pop|
    ensures |r| == |s|
  {
    seq(|s|, i requires 0 <= i < |s| => pop[s[i]])
  }

  /** At least a content fraction of the population is at or below v. */
  predicate Covers(pop: seq<real>, content: real, v: real)
  {
    CountLe(pop, v) as real >= content * |pop| as real
  }

  /** Samples whose k-th smallest value covers the content. */
  ghost function Certified(pop: seq<real>, n: nat, k: int, content: real): set<seq<int>>
    requires 1 <= k <= n
  {
    set s | s in Samples(|pop|, n) && SampleCovers(pop, n, k, content, s)
  }

  ghost predicate SampleCovers(pop: seq<real>, n: nat, k: int, content: real, s: seq<int>)
    requires 1 <= k <= n && s in Samples(|pop|, n)
  {
    SamplesIff(|pop|, n, s);
    Covers(pop, content, OrderStat(Pick(pop, s), k))
  }

  /** Members of the population whose own value covers too little. */
  ghost function Bad(pop: seq<real>, content: real): (bad: set<int>)
    ensures forall i :: i in bad <==> 0 <= i < |pop| && !Covers(pop, content, pop[i])
  {
    set i | i in Indices(|pop|) && !Covers(pop, content, pop[i])
  }

  lemma {:induction false} HitsAtLeast(pop: seq<real>, s: seq<int>, v: real, bad: set<int>)
    requires forall i | 0 <= i < |s| :: 0 <= s[i] < |pop|
    requires forall i | 0 <= i < |s| && pop[s[i]] <= v :: s[i] in bad
    ensures Hits(s, bad) >= CountLe(Pick(pop, s), v)
  {
    if s != [] {
      HitsAtLeast(pop, Init(s), v, bad);
      assert Pick(pop, s)[..|s| - 1] == Pick(pop, Init(s));
    }
  }

  /** With fewer than k bad draws the k-th smallest value is good. */
  lemma FewBadDrawsCover(pop: seq<real>, n: nat, k: int, content: real, s: seq<int>)
    requires 1 <= k <= n && s in Samples(|pop|, n) && Hits(s, Bad(pop, content)) <= k - 1
    ensures SampleCovers(pop, n, k, content, s)
  {
    SamplesIff(|pop|, n, s);
    var values := Pick(pop, s);
    var v := OrderStat(values, k);
    if !Covers(pop, content, v) {
      forall i | 0 <= i < |s| && pop[s[i]] <= v
        ensures s[i] in Bad(pop, content)
      {
        CountOrder(pop, pop[s[i]], v);
      }
      HitsAtLeast(pop, s, v, Bad(pop, content));
      OrderStatCounts(values, k);
      assert false;
    }
  }

  lemma {:induction false} IndexCount(pop: seq<real>, v: real, ids: set<int>)
    requires forall i :: i in ids ==> 0 <= i < |pop| && pop[i] <= v
    ensures |ids| <= CountLe(pop, v)
    decreases |pop|
  {
    if |pop| > 0 {
      var last := |pop| - 1;
      var rest := ids - {last};
      IndexCount(pop[..last], v, rest);
      if last in ids {
        assert |ids| == |rest| + 1;
      } else {
        assert rest == ids;
      }
    } else {
      assert ids <= Indices(0);
    }
  }

  lemma {:induction false} Largest(pop: seq<real>, ids: set<int>) returns (top: int)
    requires ids <= Indices(|pop|) && ids != {}
    ensures top in ids && forall i | i in ids :: pop[i] <= pop[top]
    decreases ids
  {
    var i :| i in ids;
    if ids == {i} {
      top := i;
    } else {
      var j := Largest(pop, ids - {i});
      top := if pop[j] >= pop[i] then j else i;
    }
  }

  /** part makes up exactly the given share of whole. */
  ghost predicate IsShare(part: real, share: real, whole: real) { part == share * whole }

  ghost predicate AtMostShare(part: real, share: real, whole: real) { part <= share * whole }

  ghost predicate AtLeastShare(part: real, share: real, whole: real) { part >= share * whole }

  /** The bad part of the population is at most a content share. */
  lemma BadShare(pop: seq<real>, content: real)
    requires content > 0.0 && |pop| > 0
    ensures Bad(pop, content) <= Indices(|pop|)
    ensures AtMostShare(|Bad(pop, content)| as real, content, |pop| as real)
  {
    var bad := Bad(pop, content);
    if bad != {} {
      var top := Largest(pop, bad);
      IndexCount(pop, pop[top], bad);
    }
  }

  lemma SubsetCard(a: set<seq<int>>, b: set<seq<int>>)
    requires a <= b
    ensures |a| <= |b|
  {
    assert b == a + (b - a);
  }

  /**
   For every finite population, at least a confidence share of the equally
   likely n-fold samples (up to the slack of the test) has its rank-th smallest
   value at or above a content share of the population.
   */
  lemma ToleranceGuarantee(pop: seq<real>, n: nat, content: real, confidence: real, k: int)
    requires |pop| > 0 && 0.0 < content < 1.0 && IsRank(n, content, confidence, k)
    ensures |Certified(pop, n, k, content)| as real
         >= (confidence - 0.000000000000001) * |Samples(|pop|, n)| as real
  {
    hide Tail;
    hide Low;
    hide Samples;
    hide Certified;
    hide Bad;
    hide AtLeastShare;
    hide AtMostShare;
    hide IsShare;
    var m, bad := |pop| as real, Bad(pop, content);
    BadShare(pop, content);
    var p := BadFraction(|bad| as real, m, content);
    LowShare(|pop|, n, k, bad, m, p, content);
    LowCertified(pop, n, k, content);
    WeakenShare(|Low(|pop|, n, k - 1, bad)| as real, |Certified(pop, n, k, content)| as real,
                Tail(n, k - 1, content), confidence - SLACK, |Samples(|pop|, n)| as real);
    ShareIs(|Certified(pop, n, k, content)| as real, confidence - SLACK, |Samples(|pop|, n)| as real);
  }

  lemma ShareIs(part: real, share: real, whole: real)
    ensures AtLeastShare(part, share, whole) <==> part >= share * whole
  {}

  lemma WeakenShare(part: real, part': real, share: real, share': real, whole: real)
    requires AtLeastShare(part, share, whole) && part <= part' && share' <= share && whole >= 0.0
    ensures AtLeastShare(part', share', whole)
  {}

  /** The bad fraction of the population, at most the content. */
  lemma BadFraction(b: real, m: real, content: real) returns (p: real)
    requires m > 0.0 && b >= 0.0 && AtMostShare(b, content, m)
    ensures 0.0 <= p <= content && IsShare(b, p, m)
  {
    p := b / m;
    if p > content {
      ProductPositive(p - content, m, (p - content) * m);
    }
    if p < 0.0 {
      ProductPositive(-p, m, (-p) * m);
    }
  }

  lemma LowShare(M: nat, n: nat, k: int, bad: set<int>, m: real, p: real, content: real)
    requires m == M as real > 0.0 && bad <= Indices(M) && IsShare(|bad| as real, p, m) && 0.0 <= p <= content <= 1.0
    ensures AtLeastShare(|Low(M, n, k - 1, bad)| as real, Tail(n, k - 1, content), |Samples(M, n)| as real)
  {
    hide Tail;
    hide Pow;
    hide Low;
    hide Samples;
    LowCard(M, n, k - 1, bad, m, p);
    SamplesCard(M, n, m);
    TailFalls(n, k - 1, p, content);
    PowPositive(m, n);
    ProductNonNegative(Tail(n, k - 1, p) - Tail(n, k - 1, content), Pow(m, n),
                       (Tail(n, k - 1, p) - Tail(n, k - 1, content)) * Pow(m, n));
  }

  lemma LowCertified(pop: seq<real>, n: nat, k: int, content: real)
    requires 1 <= k <= n
    ensures |Low(|pop|, n, k - 1, Bad(pop, content))| <= |Certified(pop, n, k, content)|
  {
    hide SampleCovers;
    var low := Low(|pop|, n, k - 1, Bad(pop, content));
    forall s | s in low
      ensures s in Certified(pop, n, k, content)
    {
      FewBadDrawsCover(pop, n, k, content, s);
    }
    SubsetCard(low, Certified(pop, n, k, content));
  }

  lemma {:induction false} PowPositive(x: real, n: nat)
    requires x > 0.0
    ensures Pow(x, n) > 0.0
  {
    if n > 0 {
      PowPositive(x, n - 1);
      ProductPositive(x, Pow(x, n - 1), Pow(x, n));
    }
  }
}
