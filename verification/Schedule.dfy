/**
 Strided loops run by the threads of one block between two barriers. Thread t of
 T handles items t, t + T, t + 2T, ... in that order; the scheduler may pick any
 thread that still has work, so a loop over a Schedule covers every interleaving.
 */
module Schedule {

  /** next[t] is the item thread t would handle next. */
  type Progress = seq<int>

  /** The thread indices of a block of T threads. */
  function Threads(T: nat): (ids: set<int>)
    ensures forall t :: t in ids <==> 0 <= t < T
  {
    if T == 0 then {} else Threads(T - 1) + {T - 1}
  }

  ghost predicate Valid(next: Progress, T: nat)
  {
    T > 0 && |next| == T && forall t | 0 <= t < T :: 0 <= next[t] && next[t] % T == t
  }

  function Start(T: nat): Progress { seq(T, t => t) }

  function Advance(next: Progress, t: nat): Progress
    requires t < |next|
  {
    next[t := next[t] + |next|]
  }

  predicate Busy(next: Progress, t: int, limit: int)
  {
    0 <= t < |next| && next[t] < limit
  }

  /** Item e has been handled, necessarily by thread e % T. */
  ghost predicate Done(next: Progress, e: int)
    requires |next| > 0
  {
    e < next[e % |next|]
  }

  ghost function Remaining(next: Progress, limit: int): set<int>
    requires |next| > 0
  {
    set e | 0 <= e < limit && !Done(next, e)
  }

  lemma ModSplit(a: int, T: int)
    requires T > 0
    ensures a == T * (a / T) + a % T && 0 <= a % T < T
  {}

  lemma QuotientZero(T: int, q: int)
    requires T > 0 && -T < T * q < T
    ensures q == 0
  {}

  /** Two items of one thread less than T apart are the same item. */
  lemma SameItem(a: int, b: int, T: int)
    requires T > 0 && a % T == b % T && -T < a - b < T
    ensures a == b
  {
    ModSplit(a, T);
    ModSplit(b, T);
    assert a - b == T * (a / T - b / T);
    QuotientZero(T, a / T - b / T);
  }

  lemma ModAddStride(a: int, T: int)
    requires T > 0
    ensures (a + T) % T == a % T
  {
    ModSplit(a, T);
    ModSplit(a + T, T);
    assert (a + T) % T - a % T == T * (a / T + 1 - (a + T) / T);
    QuotientZero(T, a / T + 1 - (a + T) / T);
  }

  lemma StartValid(T: nat)
    requires T > 0
    ensures Valid(Start(T), T)
    ensures forall e | 0 <= e :: !Done(Start(T), e)
  {
    forall e | 0 <= e
      ensures Start(T)[e % T] == e % T <= e
    {
      ModSplit(e, T);
      if e < T {
        SameItem(e, e % T, T) by { ModSmall(e, T); }
      }
    }
    forall t | 0 <= t < T
      ensures Start(T)[t] % T == t
    {
      ModSmall(t, T);
    }
  }

  lemma ModSmall(t: int, T: int)
    requires 0 <= t < T
    ensures t % T == t
  {}

  /** Handling one item marks exactly that item. */
  lemma AdvanceDone(next: Progress, t: nat, T: nat)
    requires Valid(next, T) && t < T
    ensures Valid(Advance(next, t), T)
    ensures forall e | 0 <= e :: Done(Advance(next, t), e) <==> Done(next, e) || e == next[t]
    ensures !Done(next, next[t])
  {
    ModAddStride(next[t], T);
    forall e | 0 <= e
      ensures Done(Advance(next, t), e) <==> Done(next, e) || e == next[t]
    {
      if e % T == t && next[t] <= e < next[t] + T {
        SameItem(e, next[t], T);
      }
    }
  }

  lemma RemainingShrinks(next: Progress, t: nat, T: nat, limit: int)
    requires Valid(next, T) && t < T && next[t] < limit
    ensures Remaining(Advance(next, t), limit) < Remaining(next, limit)
  {
    AdvanceDone(next, t, T);
    assert next[t] in Remaining(next, limit);
  }

  lemma AllDone(next: Progress, T: nat, limit: int)
    requires Valid(next, T) && forall t :: !Busy(next, t, limit)
    ensures forall e | 0 <= e < limit :: Done(next, e)
  {
    forall e | 0 <= e < limit
      ensures Done(next, e)
    {
      ModSplit(e, T);
      assert !Busy(next, e % T, limit);
    }
  }
}
