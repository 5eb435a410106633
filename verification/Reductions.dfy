/** Block reductions of the Frobenius sum: the CUDA tree and the Mojo halving. */
module Reductions {
  import opened Sums
  import opened Schedule

  /** f(lo) + ... + f(hi - 1). */
  function Segment(f: int -> real, lo: int, hi: int): real { Sum(f, hi) - Sum(f, lo) }

  function Min(a: int, b: int): int { if a <= b then a else b }

  function Slot(s: int, q: int): int { s * q }

  lemma SlotFacts(s: int, q: int, p: int)
    requires s > 0 && q >= 0
    ensures Slot(s, q) >= q
    ensures Slot(s, q + 1) == Slot(s, q) + s
    ensures Slot(s, 2 * q) == Slot(2 * s, q) == 2 * s * q
    ensures Slot(s, q) == Slot(s, p) ==> q == p
  {}

  /** What a slot holds before (width s) or after (width 2s) its thread has acted in a round. */
  ghost function Held(r: int -> real, s: int, T: int, q: int, pending: set<int>): real
  {
    var width := if q % 2 == 0 && q / 2 !in pending then 2 * s else s;
    Segment(r, Slot(s, q), Min(Slot(s, q) + width, T))
  }

  ghost predicate HoldsSegments(a: array<real>, r: int -> real, s: int, T: int)
    requires 0 <= T <= a.Length
    reads a
  {
    forall q | 0 <= q && 0 <= Slot(s, q) < T :: a[Slot(s, q)] == Segment(r, Slot(s, q), Min(Slot(s, q) + s, T))
  }

  lemma HeldCases(r: int -> real, s: int, T: int, q: int, pending: set<int>)
    ensures q / 2 in pending ==> Held(r, s, T, q, pending) == Segment(r, Slot(s, q), Min(Slot(s, q) + s, T))
    ensures q % 2 == 0 && q / 2 !in pending ==>
              Held(r, s, T, q, pending) == Segment(r, Slot(s, q), Min(Slot(s, q) + 2 * s, T))
  {}

  // ----- CUDA

  /** One round of the tree: every thread acts once, in any order, then the barrier. */
  method TreeRound(a: array<real>, T: nat, s: nat, ghost r: int -> real)
    requires 0 < T <= a.Length && 0 < s < T
    requires HoldsSegments(a, r, s, T)
    modifies a
    ensures HoldsSegments(a, r, 2 * s, T)
  {
    hide Segment;
    hide Slot;
    hide Held;
    hide Min;
    var pending := Threads(T);
    forall q | 0 <= q && 0 <= Slot(s, q) < T
      ensures a[Slot(s, q)] == Held(r, s, T, q, pending)
    {
      SlotFacts(s, q, q);
      HeldCases(r, s, T, q, pending);
    }
    while pending != {}
      invariant pending <= Threads(T)
      invariant forall q | 0 <= q && 0 <= Slot(s, q) < T :: a[Slot(s, q)] == Held(r, s, T, q, pending)
      decreases pending
    {
      var t: nat :| t in pending;
      TreeStep(a, T, s, t, r, pending);
      pending := pending - {t};
    }
    forall q | 0 <= q && 0 <= Slot(2 * s, q) < T
      ensures a[Slot(2 * s, q)] == Segment(r, Slot(2 * s, q), Min(Slot(2 * s, q) + 2 * s, T))
    {
      SlotFacts(s, q, q);
      HeldCases(r, s, T, 2 * q, pending);
      assert a[Slot(s, 2 * q)] == Held(r, s, T, 2 * q, pending);
    }
  }

  /** What thread t does in a round. */
  method TreeStep(a: array<real>, T: nat, s: nat, t: nat, ghost r: int -> real, ghost pending: set<int>)
    requires 0 < T <= a.Length && 0 < s < T && t in pending
    requires forall q | 0 <= q && 0 <= Slot(s, q) < T :: a[Slot(s, q)] == Held(r, s, T, q, pending)
    modifies a
    ensures forall q | 0 <= q && 0 <= Slot(s, q) < T :: a[Slot(s, q)] == Held(r, s, T, q, pending - {t})
  {
    hide Slot;
    var idx := 2 * s * t;
    SlotFacts(s, 2 * t, 2 * t);
    SlotFacts(s, t, t);
    forall q | 0 <= q && Slot(s, q) == Slot(s, 2 * t)
      ensures q == 2 * t
    {
      SlotFacts(s, q, 2 * t);
    }
    if idx + s < T {
      assert a[Slot(s, 2 * t)] == Held(r, s, T, 2 * t, pending);
      assert a[Slot(s, 2 * t + 1)] == Held(r, s, T, 2 * t + 1, pending);
      a[idx] := a[idx] + a[idx + s];
    }
  }

  /** For every thread count the tree leaves the whole sum in slot 0. */
  method TreeReduce(a: array<real>, T: nat, ghost r: int -> real)
    requires 0 < T <= a.Length
    requires forall t | 0 <= t < T :: a[t] == r(t)
    modifies a
    ensures a[0] == Sum(r, T)
  {
    var s := 1;
    forall q | 0 <= q && 0 <= Slot(s, q) < T
      ensures a[Slot(s, q)] == Segment(r, Slot(s, q), Min(Slot(s, q) + s, T))
    {}
    while s < T
      invariant s > 0 && HoldsSegments(a, r, s, T)
      decreases T - s
    {
      TreeRound(a, T, s, r);
      s := 2 * s;
    }
    assert Slot(s, 0) == 0;
  }

  function Writes(s: nat, t: nat, T: nat): set<int> { if 2 * s * t + s < T then {2 * s * t} else {} }

  function Reads(s: nat, t: nat, T: nat): set<int>
  {
    if 2 * s * t + s < T then {2 * s * t, 2 * s * t + s} else {}
  }

  /** Between two barriers no slot is written by one thread and touched by another. */
  lemma RoundRaceFree(s: nat, t: nat, t': nat, T: nat)
    requires s > 0 && t != t'
    ensures Writes(s, t, T) !! (Reads(s, t', T) + Writes(s, t', T))
  {
    SlotFacts(s, 2 * t, 2 * t');
    SlotFacts(s, 2 * t, 2 * t' + 1);
    SlotFacts(s, 2 * t', 2 * t');
    SlotFacts(s, t, t);
    SlotFacts(s, t', t');
  }

  // ----- Mojo

  function Shifted(f: int -> real, s: int): int -> real { k => f(k + s) }

  function Added(f: int -> real, g: int -> real): int -> real { k => f(k) + g(k) }

  /** k => f(k) + f(k + s). */
  function Folded(f: int -> real, s: int): int -> real { Added(f, Shifted(f, s)) }

  /** The value the halving loop leaves in slot 0. */
  function Halved(f: int -> real, T: nat): real
    decreases T
  {
    if T <= 1 then f(0) else Halved(Folded(f, T / 2), T / 2)
  }

  ghost predicate PowerOfTwo(T: nat)
    decreases T
  {
    T == 1 || (T > 1 && T % 2 == 0 && PowerOfTwo(T / 2))
  }

  lemma {:induction false} HalvedExt(f: int -> real, g: int -> real, T: nat)
    requires T > 0 && forall k | 0 <= k < T :: f(k) == g(k)
    ensures Halved(f, T) == Halved(g, T)
    decreases T
  {
    if T > 1 {
      HalvedExt(Folded(f, T / 2), Folded(g, T / 2), T / 2);
    }
  }

  /** One round of the halving loop: threads below s act once each, in any order. */
  method HalvingRound(a: array<real>, s: nat)
    requires 0 < s && 2 * s <= a.Length
    modifies a
    ensures forall k | 0 <= k < s :: a[k] == old(a[k]) + old(a[k + s])
  {
    var pending := Threads(s);
    while pending != {}
      invariant pending <= Threads(s)
      invariant forall k | 0 <= k < s :: a[k] == if k in pending then old(a[k]) else old(a[k]) + old(a[k + s])
      invariant forall k | s <= k < a.Length :: a[k] == old(a[k])
      decreases pending
    {
      var t: nat :| t in pending;
      a[t] := a[t] + a[t + s];
      pending := pending - {t};
    }
  }

  method HalvingReduce(a: array<real>, T: nat, ghost r: int -> real)
    requires 0 < T <= a.Length
    requires forall t | 0 <= t < T :: a[t] == r(t)
    modifies a
    ensures a[0] == Halved(r, T)
  {
    var s := T / 2;
    ghost var width, f: int -> real := T, r;
    while s > 0
      invariant 0 < width <= a.Length && s == width / 2
      invariant forall k | 0 <= k < width :: a[k] == f(k)
      invariant Halved(f, width) == Halved(r, T)
      decreases s
    {
      HalvingRound(a, s);
      width, f := s, Folded(f, s);
      s := s / 2;
    }
  }

  lemma {:induction false} SumShifted(f: int -> real, s: nat, m: nat)
    ensures Sum(Shifted(f, s), m) == Sum(f, s + m) - Sum(f, s)
  {
    if m > 0 {
      SumShifted(f, s, m - 1);
    }
  }

  lemma SumFold(f: int -> real, s: nat)
    ensures Sum(Folded(f, s), s) == Sum(f, 2 * s)
  {
    SumShifted(f, s, s);
    SumAdd(f, Shifted(f, s), Folded(f, s), s);
  }

  lemma {:induction false} HalvingExact(f: int -> real, T: nat)
    requires PowerOfTwo(T)
    ensures Halved(f, T) == Sum(f, T)
    decreases T
  {
    if T > 1 {
      HalvingExact(Folded(f, T / 2), T / 2);
      SumFold(f, T / 2);
    } else {
      assert Sum(f, 1) == Sum(f, 0) + f(0);
    }
  }

  function OnlyAt(p: int): int -> real { k => if k == p then 1.0 else 0.0 }

  function Clipped(g: int -> real, s: int): int -> real { k => if k < s then g(k) else 0.0 }

  /** Off the powers of two some input loses an element. */
  lemma {:induction false} HalvingLoses(T: nat) returns (f: int -> real)
    requires T > 0 && !PowerOfTwo(T)
    ensures Halved(f, T) != Sum(f, T)
    decreases T
  {
    var s := T / 2;
    if T % 2 == 1 {
      f := OnlyAt(T - 1);
      HalvedExt(Folded(f, s), k => 0.0, s);
      HalvedZero(s);
      SumSingle(f, T - 1, T);
    } else {
      var g := HalvingLoses(s);
      f := Clipped(g, s);
      HalvedExt(Folded(f, s), g, s);
      SumTail(f, s, T);
      SumExt(f, g, s);
    }
  }

  lemma {:induction false} HalvedZero(T: nat)
    requires T > 0
    ensures Halved(k => 0.0, T) == 0.0
    decreases T
  {
    if T > 1 {
      HalvedExt(Folded(k => 0.0, T / 2), k => 0.0, T / 2);
      HalvedZero(T / 2);
    }
  }

  /** The halving reduction is the sum on every input exactly for power-of-two blocks. */
  lemma HalvingExactIff(T: nat)
    requires T > 0
    ensures PowerOfTwo(T) <==> forall f: int -> real :: Halved(f, T) == Sum(f, T)
  {
    if PowerOfTwo(T) {
      forall f: int -> real
        ensures Halved(f, T) == Sum(f, T)
      {
        HalvingExact(f, T);
      }
    } else {
      var f := HalvingLoses(T);
    }
  }
}
