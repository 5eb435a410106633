/** tools/calibration/c2k_stats.py: split-conformal ranks and their leave-one-out coverage. */
module Conformal {
  import opened Floats
  import opened OrderStatistics

  datatype Result<T> = Ok(value: T) | ValueError

  predicate IsProbability(p: Float) { p.Finite? && 0.0 < p.r < 1.0 }

  function Ceil(x: real): int { -((-x).Floor) }

  /** ceil((n + 1) * coverage), refused when it exceeds n. */
  function ConformalRank(n: int, coverage: Float): (r: Result<int>)
    ensures r.Ok? ==> IsProbability(coverage) && 1 <= r.value <= n
    ensures r.Ok? ==> (r.value - 1) as real < (n + 1) as real * coverage.r <= r.value as real
    ensures IsProbability(coverage) && n > 0 && r.ValueError? ==> (n + 1) as real * coverage.r > n as real
  {
    if !IsProbability(coverage) then ValueError
    else if n <= 0 then ValueError
    else
      var rank := Ceil((n + 1) as real * coverage.r);
      if rank > n then ValueError else Ok(rank)
  }

  predicate AllFinite(values: seq<Float>) { forall i | 0 <= i < |values| :: values[i].Finite? }

  function Reals(values: seq<Float>): (s: seq<real>)
    requires AllFinite(values)
    ensures |s| == |values|
  {
    seq(|values|, i requires 0 <= i < |values| => values[i].r)
  }

  /** A non-empty finite vector, or the ValueError. */
  function FiniteVector(values: seq<Float>): (r: Result<seq<real>>)
    ensures r.Ok? <==> values != [] && AllFinite(values)
    ensures r.Ok? ==> |r.value| == |values| && forall i | 0 <= i < |values| :: values[i] == Finite(r.value[i])
  {
    if values == [] || !AllFinite(values) then ValueError else Ok(Reals(values))
  }

  /** The conformal upper bound and its rank. */
  function SplitConformalUpper(values: seq<Float>, coverage: Float): Result<(real, int)>
  {
    match FiniteVector(values)
    case ValueError => ValueError
    case Ok(a) =>
      match ConformalRank(|a|, coverage)
      case ValueError => ValueError
      case Ok(rank) => Ok((OrderStat(a, rank), rank))
  }

  /**
   The bound is refused exactly on invalid values, on a coverage outside (0, 1) and on too few values for it;
   otherwise it is the value at the reported rank, the ceiling of (n + 1) * coverage.
   */
  lemma SplitConformalIff(values: seq<Float>, coverage: Float)
    ensures var r, n := SplitConformalUpper(values, coverage), |values|;
            && (r.Ok? <==> n > 0 && (forall i | 0 <= i < n :: values[i].Finite?) && coverage.Finite?
                           && 0.0 < coverage.r < 1.0 && (n + 1) as real * coverage.r <= n as real)
            && (r.Ok? ==>
                  var (v, rank) := r.value;
                  && (rank - 1) as real < (n + 1) as real * coverage.r <= rank as real
                  && Finite(v) in values
                  && |set i | 0 <= i < n && values[i].r < v| < rank <= |set i | 0 <= i < n && values[i].r <= v|)
  {
    hide OrderStat;
    hide ConformalRank;
    var n := |values|;
    if FiniteVector(values).Ok? {
      RankExists(n, coverage);
      if ConformalRank(n, coverage).Ok? {
        BoundIsRanked(values, ConformalRank(n, coverage).value);
      }
    }
  }

  lemma BoundIsRanked(values: seq<Float>, rank: int)
    requires AllFinite(values) && 1 <= rank <= |values|
    ensures var v := OrderStat(Reals(values), rank);
            Finite(v) in values && |set i | 0 <= i < |values| && values[i].r < v| < rank
                                   <= |set i | 0 <= i < |values| && values[i].r <= v|
  {
    var a, v := Reals(values), OrderStat(Reals(values), rank);
    OrderStatIff(a, rank, v);
    hide OrderStat;
    var k :| 0 <= k < |a| && a[k] == v;
    assert values[k] == Finite(v);
    assert (set i | 0 <= i < |values| && values[i].r < v) == set i | 0 <= i < |a| && a[i] < v;
    assert (set i | 0 <= i < |values| && values[i].r <= v) == set i | 0 <= i < |a| && a[i] <= v;
  }

  lemma RankExists(n: int, coverage: Float)
    requires n > 0
    ensures ConformalRank(n, coverage).Ok? <==> IsProbability(coverage) && (n + 1) as real * coverage.r <= n as real
  {
    if IsProbability(coverage) {
      var x := (n + 1) as real * coverage.r;
      assert Ceil(x) > n <==> x > n as real;
    }
  }

  // ----- leave-one-out coverage

  function Without<T>(s: seq<T>, i: int): seq<T>
    requires 0 <= i < |s|
  {
    s[..i] + s[i + 1..]
  }

  function AsFloats(s: seq<real>): seq<Float> { seq(|s|, i requires 0 <= i < |s| => Finite(s[i])) }

  /** Score i is at or below the bound computed from the other scores, clamped at zero on request. */
  predicate Covered(scores: seq<real>, coverage: Float, clamp: bool, i: int)
    requires 0 <= i < |scores|
  {
    var r := SplitConformalUpper(AsFloats(Without(scores, i)), coverage);
    r.Ok? && scores[i] <= (if clamp && r.value.0 < 0.0 then 0.0 else r.value.0)
  }

  function CountCovered(scores: seq<real>, coverage: Float, clamp: bool, m: int): int
    requires m <= |scores|
    decreases m
  {
    if m <= 0 then 0
    else CountCovered(scores, coverage, clamp, m - 1) + if Covered(scores, coverage, clamp, m - 1) then 1 else 0
  }

  lemma {:induction false} CountWithout(s: seq<real>, i: int, v: real)
    requires 0 <= i < |s|
    ensures CountLt(Without(s, i), v) + (if s[i] < v then 1 else 0) == CountLt(s, v)
  {
    var n := |s| - 1;
    if i == n {
      assert Without(s, i) == s[..n];
    } else {
      CountWithout(s[..n], i, v);
      assert Without(s, i) == Without(s[..n], i) + [s[n]];
      CountSnoc(Without(s[..n], i), s[n], v);
    }
  }

  lemma FloatsRoundTrip(s: seq<real>)
    requires s != []
    ensures FiniteVector(AsFloats(s)) == Ok(s)
  {
    assert Reals(AsFloats(s)) == s;
  }

  /** Left out, a score is covered exactly when it is at or below the rank-th smallest of all the scores. */
  lemma CoveredIff(scores: seq<real>, coverage: Float, rank: int, i: int)
    requires 0 <= i < |scores| && ConformalRank(|scores| - 1, coverage) == Ok(rank)
    ensures Covered(scores, coverage, false, i) <==> scores[i] <= OrderStat(scores, rank)
  {
    var others := Without(scores, i);
    FloatsRoundTrip(others);
    CountWithout(scores, i, scores[i]);
    OrderStatAtLeast(scores, rank, scores[i]);
    OrderStatAtLeast(others, rank, scores[i]);
  }

  lemma {:induction false} CoveredCount(scores: seq<real>, coverage: Float, rank: int, m: int)
    requires 0 <= m <= |scores| && |scores| > 1 && ConformalRank(|scores| - 1, coverage) == Ok(rank)
    ensures CountCovered(scores, coverage, false, m) == CountLe(scores[..m], OrderStat(scores, rank))
    decreases m
  {
    hide Covered;
    hide OrderStat;
    hide ConformalRank;
    if m > 0 {
      CoveredCount(scores, coverage, rank, m - 1);
      assert scores[..m] == scores[..m - 1] + [scores[m - 1]];
      CountSnoc(scores[..m - 1], scores[m - 1], OrderStat(scores, rank));
      CoveredIff(scores, coverage, rank, m - 1);
    }
  }

  /** Clamping the bound at zero never lowers the count. */
  lemma {:induction false} ClampKeepsCoverage(scores: seq<real>, coverage: Float, m: int)
    requires m <= |scores|
    ensures CountCovered(scores, coverage, true, m) >= CountCovered(scores, coverage, false, m)
    decreases m
  {
    if m > 0 {
      ClampKeepsCoverage(scores, coverage, m - 1);
    }
  }

  /**
   For any n + 1 scores, ties included, the leave-one-out choices that are covered are as many as the
   scores at or below the rank-th smallest: at least ceil((n + 1) * coverage), clamped or not.
   */
  lemma LeaveOneOutCoverage(scores: seq<real>, coverage: Float, clamp: bool, rank: int)
    requires |scores| > 1 && ConformalRank(|scores| - 1, coverage) == Ok(rank)
    ensures CountCovered(scores, coverage, false, |scores|) == CountLe(scores, OrderStat(scores, rank))
    ensures CountCovered(scores, coverage, clamp, |scores|) >= rank
    ensures CountCovered(scores, coverage, clamp, |scores|) as real >= |scores| as real * coverage.r
  {
    hide CountCovered;
    hide CountLe;
    hide OrderStat;
    hide ConformalRank;
    CoveredCount(scores, coverage, rank, |scores|);
    assert scores[..|scores|] == scores;
    OrderStatCounts(scores, rank);
    ClampKeepsCoverage(scores, coverage, |scores|);
  }
}
