/** Order statistics by counting; np.partition(a, k - 1)[k - 1] is OrderStat(a, k). */
module OrderStatistics {

  function CountLe(s: seq<real>, v: real): nat
  {
    if |s| == 0 then 0 else CountLe(s[..|s| - 1], v) + if s[|s| - 1] <= v then 1 else 0
  }

  function CountLt(s: seq<real>, v: real): nat
  {
    if |s| == 0 then 0 else CountLt(s[..|s| - 1], v) + if s[|s| - 1] < v then 1 else 0
  }

  function Insert(x: real, s: seq<real>): seq<real>
  {
    if |s| == 0 || s[|s| - 1] <= x then s + [x] else Insert(x, s[..|s| - 1]) + [s[|s| - 1]]
  }

  function Sort(s: seq<real>): (r: seq<real>)
    ensures |r| == |s|
  {
    if |s| == 0 then [] else
    InsertLength(s[|s| - 1], Sort(s[..|s| - 1]));
    Insert(s[|s| - 1], Sort(s[..|s| - 1]))
  }

  /** The k-th smallest element, counting from 1. */
  function OrderStat(s: seq<real>, k: int): real
    requires 1 <= k <= |s|
  {
    Sort(s)[k - 1]
  }

  lemma {:induction false} InsertLength(x: real, s: seq<real>)
    ensures |Insert(x, s)| == |s| + 1
  {
    if |s| > 0 && s[|s| - 1] > x {
      InsertLength(x, s[..|s| - 1]);
    }
  }

  ghost predicate Sorted(s: seq<real>)
  {
    forall i, j | 0 <= i <= j < |s| :: s[i] <= s[j]
  }

  lemma {:induction false} InsertSorted(x: real, s: seq<real>)
    requires Sorted(s)
    ensures Sorted(Insert(x, s))
    ensures forall i | 0 <= i < |Insert(x, s)| :: Insert(x, s)[i] == x || Insert(x, s)[i] in s
  {
    if |s| > 0 && s[|s| - 1] > x {
      InsertSorted(x, s[..|s| - 1]);
    }
  }

  lemma {:induction false} SortSorted(s: seq<real>)
    ensures Sorted(Sort(s))
  {
    if |s| > 0 {
      SortSorted(s[..|s| - 1]);
      InsertSorted(s[|s| - 1], Sort(s[..|s| - 1]));
    }
  }

  lemma CountSnoc(s: seq<real>, x: real, v: real)
    ensures CountLe(s + [x], v) == CountLe(s, v) + if x <= v then 1 else 0
    ensures CountLt(s + [x], v) == CountLt(s, v) + if x < v then 1 else 0
  {}

  lemma {:induction false} InsertCounts(x: real, s: seq<real>, v: real)
    ensures CountLe(Insert(x, s), v) == CountLe(s, v) + if x <= v then 1 else 0
    ensures CountLt(Insert(x, s), v) == CountLt(s, v) + if x < v then 1 else 0
  {
    if |s| == 0 || s[|s| - 1] <= x {
      CountSnoc(s, x, v);
    } else {
      InsertCounts(x, s[..|s| - 1], v);
      CountSnoc(Insert(x, s[..|s| - 1]), s[|s| - 1], v);
    }
  }

  lemma {:induction false} SortCounts(s: seq<real>, v: real)
    ensures CountLe(Sort(s), v) == CountLe(s, v)
    ensures CountLt(Sort(s), v) == CountLt(s, v)
  {
    if |s| > 0 {
      SortCounts(s[..|s| - 1], v);
      InsertCounts(s[|s| - 1], Sort(s[..|s| - 1]), v);
    }
  }

  lemma {:induction false} CountAtLeast(s: seq<real>, v: real, k: nat)
    requires k <= |s| && forall i | 0 <= i < k :: s[i] <= v
    ensures CountLe(s, v) >= k
  {
    if |s| > 0 {
      CountAtLeast(s[..|s| - 1], v, if k < |s| then k else k - 1);
    }
  }

  lemma {:induction false} CountAtMost(s: seq<real>, v: real, k: nat)
    requires k <= |s| && forall i | k <= i < |s| :: s[i] >= v
    ensures CountLt(s, v) <= k
  {
    if |s| > 0 {
      CountAtMost(s[..|s| - 1], v, if k < |s| then k else k - 1);
    }
  }

  lemma {:induction false} CountOrder(s: seq<real>, v: real, w: real)
    ensures CountLt(s, v) <= CountLe(s, v) <= |s|
    ensures v <= w ==> CountLe(s, v) <= CountLe(s, w) && CountLt(s, v) <= CountLt(s, w)
    ensures v < w ==> CountLe(s, v) <= CountLt(s, w)
  {
    if |s| > 0 {
      CountOrder(s[..|s| - 1], v, w);
    }
  }

  /** Fewer than k elements lie below the k-th smallest, and at least k lie at or below it. */
  lemma OrderStatCounts(s: seq<real>, k: int)
    requires 1 <= k <= |s|
    ensures CountLt(s, OrderStat(s, k)) < k <= CountLe(s, OrderStat(s, k))
  {
    var v := OrderStat(s, k);
    SortSorted(s);
    SortCounts(s, v);
    CountAtLeast(Sort(s), v, k);
    CountAtMost(Sort(s), v, k - 1);
  }

  /** The k-th smallest is at least v exactly when fewer than k elements are below v. */
  lemma OrderStatAtLeast(s: seq<real>, k: int, v: real)
    requires 1 <= k <= |s|
    ensures OrderStat(s, k) >= v <==> CountLt(s, v) < k
  {
    OrderStatCounts(s, k);
    var q := OrderStat(s, k);
    if q >= v {
      CountOrder(s, v, q);
    } else {
      CountOrder(s, q, v);
    }
  }

  lemma {:induction false} InsertMembers(x: real, s: seq<real>)
    ensures forall v | v in Insert(x, s) :: v == x || v in s
  {
    if |s| > 0 && s[|s| - 1] > x {
      InsertMembers(x, s[..|s| - 1]);
    }
  }

  lemma {:induction false} SortMembers(s: seq<real>)
    ensures forall v | v in Sort(s) :: v in s
  {
    if |s| > 0 {
      SortMembers(s[..|s| - 1]);
      InsertMembers(s[|s| - 1], Sort(s[..|s| - 1]));
    }
  }

  ghost function PositionsLe(s: seq<real>, v: real): set<int> { set i | 0 <= i < |s| && s[i] <= v }

  ghost function PositionsLt(s: seq<real>, v: real): set<int> { set i | 0 <= i < |s| && s[i] < v }

  lemma PositionsStep(s: seq<real>, v: real)
    requires |s| > 0
    ensures var n := |s| - 1;
            && PositionsLe(s, v) == PositionsLe(s[..n], v) + (if s[n] <= v then {n} else {})
            && PositionsLt(s, v) == PositionsLt(s[..n], v) + (if s[n] < v then {n} else {})
            && n !in PositionsLe(s[..n], v) && n !in PositionsLt(s[..n], v)
  {
    var n := |s| - 1;
    forall i | 0 <= i < n ensures s[..n][i] == s[i] {}
  }

  lemma AddOne(a: set<int>, n: int, yes: bool)
    requires n !in a
    ensures |a + (if yes then {n} else {})| == |a| + if yes then 1 else 0
  {}

  /** The counts are the numbers of positions. */
  lemma {:induction false} CountsArePositions(s: seq<real>, v: real)
    ensures CountLe(s, v) == |PositionsLe(s, v)| && CountLt(s, v) == |PositionsLt(s, v)|
  {
    if |s| == 0 {
      assert PositionsLe(s, v) == {} && PositionsLt(s, v) == {};
    } else {
      hide PositionsLe;
      hide PositionsLt;
      var n := |s| - 1;
      CountsArePositions(s[..n], v);
      PositionsStep(s, v);
      AddOne(PositionsLe(s[..n], v), n, s[n] <= v);
      AddOne(PositionsLt(s[..n], v), n, s[n] < v);
    }
  }

  /** The k-th smallest is the only element with fewer than k positions below it and at least k at or below it. */
  lemma OrderStatIff(s: seq<real>, k: int, v: real)
    requires 1 <= k <= |s|
    ensures v == OrderStat(s, k)
       <==> v in s && |set i | 0 <= i < |s| && s[i] < v| < k <= |set i | 0 <= i < |s| && s[i] <= v|
  {
    var q := OrderStat(s, k);
    OrderStatCounts(s, k);
    SortMembers(s);
    CountsArePositions(s, v);
    if v < q {
      CountOrder(s, v, q);
    } else if v > q {
      CountOrder(s, q, v);
    }
  }
}
