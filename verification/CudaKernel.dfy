/**
 kernels/cuda/rzf_cuda.cu, rzf_kernel: one block, T threads, phases separated by
 barriers. Inside a phase any thread with work left may take the next step, so
 each phase is proved for every interleaving.
 */
module CudaKernel {
  import opened Floats
  import opened Sums
  import opened Complexes
  import opened Cholesky
  import opened RegularizedGram
  import opened RzfAlgorithm
  import opened Schedule
  import opened Reductions
  import opened CudaTile

  const MAX_USERS: nat := 64
  const MAX_THREADS: nat := 256

  /** H holds channel slice b in row-major order. */
  ghost predicate Stores(H: seq<Sample>, ch: Channel, b: int)
  {
    && ch.users > 0 && ch.antennas > 0 && |H| == ch.users * ch.antennas
    && forall u, n | 0 <= u < ch.users && 0 <= n < ch.antennas && 0 <= Flat(u, n, ch.antennas) < |H| ::
         H[Flat(u, n, ch.antennas)] == ch.at(b, u, n)
  }

  /** Row-major order: entry e is that of user e / N and antenna e % N. */
  lemma StoresRowMajor(H: seq<Sample>, ch: Channel, b: int)
    requires ch.users > 0 && ch.antennas > 0 && |H| == ch.users * ch.antennas
    ensures Stores(H, ch, b) <==> forall e | 0 <= e < |H| :: H[e] == ch.at(b, e / ch.antennas, e % ch.antennas)
  {
    hide Flat;
    var N := ch.antennas;
    if Stores(H, ch, b) {
      forall e | 0 <= e < |H| ensures H[e] == ch.at(b, e / N, e % N) {
        FlatCell(e, ch.users, N);
      }
    }
    if forall e | 0 <= e < |H| :: H[e] == ch.at(b, e / N, e % N) {
      forall u, n | 0 <= u < ch.users && 0 <= n < N && 0 <= Flat(u, n, N) < |H|
        ensures H[Flat(u, n, N)] == ch.at(b, u, n)
      {
        FlatDivMod(u, n, N);
      }
    }
  }

  // ----- pass 0

  ghost predicate SomeNonFinite(H: seq<Sample>)
  {
    exists e :: 0 <= e < |H| && H[e].NonFinite?
  }

  /** Every non-finite item already handled is recorded by its thread, and no thread is wrong. */
  ghost predicate Recorded(H: seq<Sample>, next: Progress, bad: seq<bool>)
    requires |next| > 0
  {
    && |bad| == |next|
    && (forall e | 0 <= e < |H| && Done(next, e) && H[e].NonFinite? :: bad[e % |next|])
    && forall t | 0 <= t < |bad| && bad[t] :: SomeNonFinite(H)
  }

  lemma RecordItem(H: seq<Sample>, next: Progress, bad: seq<bool>, t: nat, T: nat)
    requires Valid(next, T) && Recorded(H, next, bad) && t < T && next[t] < |H|
    ensures Recorded(H, Advance(next, t), if H[next[t]].NonFinite? then bad[t := true] else bad)
  {
    AdvanceDone(next, t, T);
  }

  /** Strided scan; each thread votes once its own items are exhausted. */
  method FiniteScan(H: seq<Sample>, T: nat) returns (nonFinite: bool)
    requires T > 0
    ensures nonFinite <==> SomeNonFinite(H)
  {
    hide SomeNonFinite;
    hide Recorded;
    var next := Start(T);
    StartValid(T);
    var bad := seq(T, t => false);
    var pending := Threads(T);
    nonFinite := false;
    NothingRecorded(H, next, bad);
    while pending != {}
      invariant Valid(next, T) && |bad| == T && pending <= Threads(T)
      invariant Recorded(H, next, bad)
      invariant nonFinite ==> SomeNonFinite(H)
      invariant forall t | 0 <= t < T && t !in pending :: next[t] >= |H| && (bad[t] ==> nonFinite)
      decreases Remaining(next, |H|), pending
    {
      var t: nat :| t in pending;
      if next[t] < |H| {
        RecordItem(H, next, bad, t, T);
        RemainingShrinks(next, t, T, |H|);
        AdvanceDone(next, t, T);
        if H[next[t]].NonFinite? {
          bad := bad[t := true];
        }
        next := Advance(next, t);
      } else {
        if bad[t] {
          BadThread(H, next, bad, t);
          nonFinite := true;
        }
        pending := pending - {t};
      }
    }
    AllDone(next, T, |H|);
    ScanComplete(H, next, bad, nonFinite, T);
  }

  lemma NothingRecorded(H: seq<Sample>, next: Progress, bad: seq<bool>)
    requires |next| > 0 && |bad| == |next| && (forall t | 0 <= t < |bad| :: !bad[t])
    requires forall e | 0 <= e :: !Done(next, e)
    ensures Recorded(H, next, bad)
  {}

  lemma BadThread(H: seq<Sample>, next: Progress, bad: seq<bool>, t: nat)
    requires |next| > 0 && Recorded(H, next, bad) && t < |bad| && bad[t]
    ensures SomeNonFinite(H)
  {}

  lemma ScanComplete(H: seq<Sample>, next: Progress, bad: seq<bool>, nonFinite: bool, T: nat)
    requires Valid(next, T) && Recorded(H, next, bad)
    requires forall e | 0 <= e < |H| :: Done(next, e)
    requires forall t | 0 <= t < T :: bad[t] ==> nonFinite
    ensures SomeNonFinite(H) ==> nonFinite
  {}

  /** The fail-closed store: every thread zeroes its share of W. */
  method ZeroFill(W: array<Complex>, T: nat) returns (ghost log: int -> seq<int>)
    requires T > 0
    modifies W
    ensures forall e | 0 <= e < W.Length :: W[e] == ZERO && log(e) == [e % T]
  {
    var next := Start(T);
    log := e => [];
    StartValid(T);
    while exists t | 0 <= t < T :: Busy(next, t, W.Length)
      invariant Valid(next, T)
      invariant forall e | 0 <= e < W.Length && Done(next, e) :: W[e] == ZERO
      invariant forall e | 0 <= e < W.Length :: log(e) == if Done(next, e) then [e % T] else []
      decreases Remaining(next, W.Length)
    {
      var t: nat :| t < T && Busy(next, t, W.Length);
      AdvanceDone(next, t, T);
      RemainingShrinks(next, t, T, W.Length);
      W[next[t]] := ZERO;
      log := LogAppended(log, next[t], t);
      next := Advance(next, t);
    }
    AllDone(next, T, W.Length);
  }

  function LogAppended(log: int -> seq<int>, i: int, t: int): int -> seq<int>
  {
    e => if e == i then log(e) + [t] else log(e)
  }

  // ----- pass 1

  method GramCell(H: seq<Sample>, U: nat, N: nat, alpha: real, i: nat, j: nat, ghost G: Mat) returns (acc: Complex)
    requires i < U && j < U && |H| == U * N
    requires forall u, n | 0 <= u < U && 0 <= n < N && 0 <= Flat(u, n, N) < |H| ::
               H[Flat(u, n, N)] == Finite(G(u, n))
    ensures acc == RegGram(G, N, alpha)(i, j)
  {
    hide CSum;
    hide Times;
    ghost var terms := GramTerms(G, i, j);
    acc := ZERO;
    CSumEmpty(terms);
    for n := 0 to N
      invariant acc == CSum(terms, n)
    {
      FlatBounds(i, n, U, N);
      FlatBounds(j, n, U, N);
      var a, b := H[FlatIndex(i, n, N)].r, H[FlatIndex(j, n, N)].r;
      CSumStep(terms, n);
      assert terms(n) == Times(a, Conj(b));
      acc := Plus(acc, Times(a, Conj(b)));
    }
    if i == j {
      GramDiagonalReal(G, i, N);
      acc := C(acc.re + alpha, acc.im);
    }
  }

  method GramPhase(A: array<Complex>, H: seq<Sample>, U: nat, N: nat, alpha: real, T: nat, ghost G: Mat)
    requires T > 0 && U > 0 && A.Length == U * U && |H| == U * N
    requires forall u, n | 0 <= u < U && 0 <= n < N && 0 <= Flat(u, n, N) < |H| ::
               H[Flat(u, n, N)] == Finite(G(u, n))
    modifies A
    ensures Holds(A, U, U, RegGram(G, N, alpha))
  {
    hide RegGram;
    hide Flat;
    var next := Start(T);
    StartValid(T);
    while exists t | 0 <= t < T :: Busy(next, t, A.Length)
      invariant Valid(next, T)
      invariant forall e | 0 <= e < A.Length && Done(next, e) :: A[e] == RegGram(G, N, alpha)(e / U, e % U)
      decreases Remaining(next, A.Length)
    {
      var t: nat :| t < T && Busy(next, t, A.Length);
      var e := next[t];
      AdvanceDone(next, t, T);
      RemainingShrinks(next, t, T, A.Length);
      CellIndices(e, U);
      A[e] := GramCell(H, U, N, alpha, e / U, e % U, G);
      next := Advance(next, t);
    }
    AllDone(next, T, A.Length);
    forall r, c | 0 <= r < U && 0 <= c < U && 0 <= Flat(r, c, U) < A.Length
      ensures A[Flat(r, c, U)] == RegGram(G, N, alpha)(r, c)
    {
      FlatDivMod(r, c, U);
    }
  }

  lemma CellIndices(e: int, U: int)
    requires U > 0 && 0 <= e < U * U
    ensures 0 <= e / U < U && 0 <= e % U < U
  {}

  // ----- pass 3

  /** W after the columns marked done: conj(x) there, the old contents elsewhere. */
  ghost function Written(next: Progress, X: Mat, old_: Mat): Mat
    requires |next| > 0
  {
    (n, u) => if 0 <= n && Done(next, n) then Conj(X(u, n)) else old_(n, u)
  }

  /** The threads that wrote each element of W, in order. */
  type WriteLog = (int, int) -> seq<int>

  ghost predicate LoggedOnce(log: WriteLog, next: Progress, N: nat, U: nat)
    requires |next| > 0
  {
    forall n, u | 0 <= n < N && 0 <= u < U :: log(n, u) == if Done(next, n) then [n % |next|] else []
  }

  function PartColumn(V: Mat, X: Mat, n: int, m: int): Mat
  {
    (r, c) => if r == n && c < m then Conj(X(c, n)) else V(r, c)
  }

  /** The frame every column phase shares: tile, channel and factor agree. */
  ghost predicate ReadyToSolve(A: array<Complex>, H: seq<Sample>, U: nat, N: nat, G: Mat, V: Mat, M: Mat)
    reads A
  {
    && 0 < U <= MAX_USERS && |H| == U * N
    && Holds(A, U, U, V) && LowerAgrees(V, M, U)
    && (forall i | 0 <= i < U :: M(i, i).re != 0.0)
    && forall u, n | 0 <= u < U && 0 <= n < N && 0 <= Flat(u, n, N) < |H| :: H[Flat(u, n, N)] == Finite(G(u, n))
  }

  function ChannelColumn(H: seq<Sample>, U: nat, N: nat, n: nat): Vec
  {
    u => if 0 <= u < U && 0 <= FlatIndex(u, n, N) < |H| then ValueOf(H[FlatIndex(u, n, N)]) else ZERO
  }

  /** Only the first U entries of the right-hand side matter. */
  lemma SolveExt(M: Mat, b: Vec, b': Vec, U: nat)
    requires forall i | 0 <= i < U :: b(i) == b'(i)
    ensures forall i | 0 <= i < U :: Solve(M, b, U)(i) == Solve(M, b', U)(i)
  {
    forall i | 0 <= i < U
      ensures Forward(M, b, i) == Forward(M, b', i)
    {
      ForwardExt(M, b, b', i);
    }
    forall i | 0 <= i < U
      ensures Solve(M, b, U)(i) == Solve(M, b', U)(i)
    {
      BackwardExt(M, ForwardVec(M, b), ForwardVec(M, b'), U, i);
    }
  }

  lemma {:induction false} ForwardExt(M: Mat, b: Vec, b': Vec, i: int)
    requires forall k | 0 <= k <= i :: b(k) == b'(k)
    ensures Forward(M, b, i) == Forward(M, b', i)
    decreases i, 1
  {
    hide Times;
    hide Over;
    if i >= 0 {
      ForwardAccExt(M, b, b', i, i);
    }
  }

  lemma {:induction false} ForwardAccExt(M: Mat, b: Vec, b': Vec, i: int, m: int)
    requires 0 <= m <= i && forall k | 0 <= k <= i :: b(k) == b'(k)
    ensures ForwardAcc(M, b, i, m) == ForwardAcc(M, b', i, m)
    decreases i, 0, m
  {
    hide Times;
    hide Forward;
    if m > 0 {
      ForwardAccExt(M, b, b', i, m - 1);
      ForwardExt(M, b, b', m - 1);
    }
  }

  lemma {:induction false} BackwardExt(M: Mat, y: Vec, y': Vec, n: int, i: int)
    requires forall k | 0 <= k < n :: y(k) == y'(k)
    ensures Backward(M, y, n, i) == Backward(M, y', n, i)
    decreases n - i, 1
  {
    hide Times;
    hide Over;
    if 0 <= i < n {
      BackwardAccExt(M, y, y', n, i, n);
    }
  }

  lemma {:induction false} BackwardAccExt(M: Mat, y: Vec, y': Vec, n: int, i: int, m: int)
    requires 0 <= i < m <= n && forall k | 0 <= k < n :: y(k) == y'(k)
    ensures BackwardAcc(M, y, n, i, m) == BackwardAcc(M, y', n, i, m)
    decreases n - i, 0, m
  {
    hide Times;
    hide Backward;
    if m > i + 1 {
      BackwardAccExt(M, y, y', n, i, m - 1);
      BackwardExt(M, y, y', n, m - 1);
    }
  }

  function FactorSolved(M: Mat, G: Mat, U: int): Mat { (u, n) => Solve(M, Column(G, n), U)(u) }

  /** The two triangular solves of column n, in the thread's private arrays. */
  method ColumnSolve(A: array<Complex>, H: seq<Sample>, U: nat, N: nat, n: nat,
                     ghost G: Mat, ghost V: Mat, ghost M: Mat)
    returns (x: array<Complex>)
    requires ReadyToSolve(A, H, U, N, G, V, M) && n < N
    ensures fresh(x) && U <= x.Length
    ensures forall i | 0 <= i < U :: x[i] == FactorSolved(M, G, U)(i, n)
  {
    hide Flat;
    hide Holds;
    hide Solve;
    var y := new Complex[MAX_USERS](i => ZERO);
    x := new Complex[MAX_USERS](i => ZERO);
    var rhs := ChannelColumn(H, U, N, n);
    forall u | 0 <= u < U
      ensures rhs(u) == Column(G, n)(u)
    {
      FlatBounds(u, n, U, N);
    }
    TileSolve(A, U, V, M, rhs, y, x);
    SolveExt(M, rhs, Column(G, n), U);
  }

  /** Stores conj(x) into column n of W and adds |x|^2 to the thread's accumulator. */
  method ColumnStore(W: array<Complex>, x: array<Complex>, U: nat, N: nat, n: nat, t: nat, sum: real,
                     ghost X: Mat, ghost WV: Mat, ghost log: WriteLog)
    returns (sum': real, ghost log': WriteLog)
    requires W != x && U <= x.Length && n < N && Holds(W, N, U, WV)
    requires forall i | 0 <= i < U :: x[i] == X(i, n)
    modifies W
    ensures Holds(W, N, U, PartColumn(WV, X, n, U))
    ensures sum' == sum + Norm2(Column(X, n), U)
    ensures forall r, c | 0 <= r < N && 0 <= c < U :: log'(r, c) == if r == n then log(r, c) + [t] else log(r, c)
  {
    hide Holds;
    hide Abs2;
    sum' := sum;
    log' := log;
    HoldsExt(W, N, U, WV, PartColumn(WV, X, n, 0));
    for u := 0 to U
      invariant forall i | 0 <= i < U :: x[i] == X(i, n)
      invariant Holds(W, N, U, PartColumn(WV, X, n, u))
      invariant sum' == sum + Norm2(Column(X, n), u)
      invariant forall r, c | 0 <= r < N && 0 <= c < U ::
                  log'(r, c) == if r == n && c < u then log(r, c) + [t] else log(r, c)
    {
      assert Abs2Terms(Column(X, n))(u) == Abs2(x[u]);
      sum' := sum' + Abs2(x[u]);
      Put(W, N, U, n, u, Conj(x[u]), PartColumn(WV, X, n, u));
      HoldsExt(W, N, U, Updated(PartColumn(WV, X, n, u), n, u, Conj(x[u])), PartColumn(WV, X, n, u + 1));
      log' := Appended(log', n, u, t);
    }
  }

  function Appended(log: WriteLog, n: int, u: int, t: int): WriteLog
  {
    (r, c) => if r == n && c == u then log(r, c) + [t] else log(r, c)
  }

  // ----- strided accumulators

  function StridedTerms(f: int -> real, t: int, T: int): int -> real
  {
    n => if T > 0 && n % T == t then f(n) else 0.0
  }

  lemma StridedStart(f: int -> real, t: int, T: int, N: int)
    requires 0 <= t < T
    ensures Sum(StridedTerms(f, t, T), Min(t, N)) == 0.0
  {
    forall n | 0 <= n < Min(t, N)
      ensures StridedTerms(f, t, T)(n) == 0.0
    {
      ModSmall(n, T);
    }
    SumZero(StridedTerms(f, t, T), Min(t, N));
  }

  lemma StridedStep(f: int -> real, t: int, T: int, m: int, N: int)
    requires T > 0 && 0 <= m < N && m % T == t
    ensures Sum(StridedTerms(f, t, T), Min(m + T, N)) == Sum(StridedTerms(f, t, T), m) + f(m)
  {
    var terms := StridedTerms(f, t, T);
    forall n | m + 1 <= n < Min(m + T, N)
      ensures terms(n) == 0.0
    {
      if n % T == t {
        SameItem(n, m, T);
        assert false;
      }
    }
    SumTail(terms, m + 1, Min(m + T, N));
    assert Sum(terms, m + 1) == Sum(terms, m) + terms(m);
  }

  /** The per-thread sums add up to the whole sum. */
  lemma StridedTotal(f: int -> real, T: int, N: int, r: int -> real)
    requires T > 0 && forall t | 0 <= t < T :: r(t) == Sum(StridedTerms(f, t, T), N)
    ensures Sum(r, T) == Sum(f, N)
  {
    var F := (t: int, n: int) => StridedTerms(f, t, T)(n);
    forall t | 0 <= t < T
      ensures r(t) == Sum(k => F(t, k), N)
    {
      SumExt(StridedTerms(f, t, T), k => F(t, k), N);
    }
    forall n | 0 <= n < N
      ensures f(n) == Sum(t => F(t, n), T)
    {
      ModSplit(n, T);
      SumSingle(t => F(t, n), n % T, T);
    }
    SumSwap(F, r, f, T, N);
  }

  // ----- pass 3 and the reduction

  lemma WrittenStep(next: Progress, T: nat, t: nat, X: Mat, W0: Mat, n: int, u: int, U: nat)
    requires Valid(next, T) && t < T && 0 <= n && 0 <= u < U
    ensures PartColumn(Written(next, X, W0), X, next[t], U)(n, u) == Written(Advance(next, t), X, W0)(n, u)
  {
    AdvanceDone(next, t, T);
  }

  /** Thread t takes its next column. */
  method ColumnTurn(A: array<Complex>, W: array<Complex>, H: seq<Sample>, U: nat, N: nat, T: nat,
                    next: Progress, t: nat, localSq: real,
                    ghost G: Mat, ghost V: Mat, ghost M: Mat, ghost W0: Mat, ghost log: WriteLog)
    returns (sum: real, ghost log': WriteLog)
    requires Valid(next, T) && t < T && next[t] < N
    requires A != W && ReadyToSolve(A, H, U, N, G, V, M)
    requires Holds(W, N, U, Written(next, FactorSolved(M, G, U), W0)) && LoggedOnce(log, next, N, U)
    modifies W
    ensures ReadyToSolve(A, H, U, N, G, V, M)
    ensures Holds(W, N, U, Written(Advance(next, t), FactorSolved(M, G, U), W0))
    ensures LoggedOnce(log', Advance(next, t), N, U)
    ensures sum == localSq + ColumnNorms(FactorSolved(M, G, U), U)(next[t])
  {
    hide Holds;
    hide Norm2;
    hide FactorSolved;
    hide Flat;
    ghost var X := FactorSolved(M, G, U);
    var n := next[t];
    var x := ColumnSolve(A, H, U, N, n, G, V, M);
    sum, log' := ColumnStore(W, x, U, N, n, t, localSq, X, Written(next, X, W0), log);
    forall r, c | 0 <= r < N && 0 <= c < U
      ensures PartColumn(Written(next, X, W0), X, n, U)(r, c) == Written(Advance(next, t), X, W0)(r, c)
    {
      WrittenStep(next, T, t, X, W0, r, c, U);
    }
    HoldsExt(W, N, U, PartColumn(Written(next, X, W0), X, n, U), Written(Advance(next, t), X, W0));
    AdvanceDone(next, t, T);
  }

  ghost predicate Accumulated(localSq: seq<real>, f: int -> real, next: Progress, T: nat, N: int)
  {
    && |localSq| == |next| == T
    && forall t | 0 <= t < T :: localSq[t] == Sum(StridedTerms(f, t, T), Min(next[t], N))
  }

  lemma AccumulateStart(localSq: seq<real>, f: int -> real, T: nat, N: int)
    requires |localSq| == T && forall t | 0 <= t < T :: localSq[t] == 0.0
    ensures Accumulated(localSq, f, Start(T), T, N)
  {
    hide StridedTerms;
    forall t | 0 <= t < T
      ensures localSq[t] == Sum(StridedTerms(f, t, T), Min(Start(T)[t], N))
    {
      StridedStart(f, t, T, N);
    }
  }

  lemma AccumulateStep(localSq: seq<real>, f: int -> real, next: Progress, T: nat, N: int, t: nat, sum: real)
    requires Valid(next, T) && t < T && next[t] < N && Accumulated(localSq, f, next, T, N)
    requires sum == localSq[t] + f(next[t])
    ensures Accumulated(localSq[t := sum], f, Advance(next, t), T, N)
  {
    hide StridedTerms;
    StridedStep(f, t, T, next[t], N);
  }

  /**
   Every thread solves its columns in turn and then stores its partial sum. The
   log shows each element of W written once, by thread n % T.
   */
  method ColumnsPhase(A: array<Complex>, W: array<Complex>, redsum: array<real>, H: seq<Sample>,
                      U: nat, N: nat, T: nat, ghost G: Mat, ghost V: Mat, ghost M: Mat, ghost W0: Mat)
    returns (ghost log: WriteLog)
    requires 0 < T <= redsum.Length && A != W && ReadyToSolve(A, H, U, N, G, V, M) && Holds(W, N, U, W0)
    modifies W, redsum
    ensures Holds(W, N, U, Unnormalised(FactorSolved(M, G, U)))
    ensures forall t | 0 <= t < T ::
              redsum[t] == Sum(StridedTerms(ColumnNorms(FactorSolved(M, G, U), U), t, T), N)
    ensures forall n, u | 0 <= n < N && 0 <= u < U :: log(n, u) == [n % T]
  {
    hide Holds;
    hide ReadyToSolve;
    hide StridedTerms;
    hide ColumnNorms;
    hide FactorSolved;
    hide Accumulated;
    hide Advance;
    ghost var X := FactorSolved(M, G, U);
    ghost var f := ColumnNorms(X, U);
    var next := Start(T);
    StartValid(T);
    var localSq := seq(T, t => 0.0);
    var pending := Threads(T);
    log := (n, u) => [];
    AccumulateStart(localSq, f, T, N);
    HoldsExt(W, N, U, W0, Written(next, X, W0));
    while pending != {}
      invariant Valid(next, T) && |localSq| == T && pending <= Threads(T)
      invariant ReadyToSolve(A, H, U, N, G, V, M)
      invariant Holds(W, N, U, Written(next, X, W0))
      invariant LoggedOnce(log, next, N, U)
      invariant Accumulated(localSq, f, next, T, N)
      invariant forall t | 0 <= t < T && t !in pending :: next[t] >= N && redsum[t] == localSq[t]
      decreases Remaining(next, N), pending
    {
      var t: nat :| t in pending;
      if next[t] < N {
        AdvanceDone(next, t, T);
        RemainingShrinks(next, t, T, N);
        var sum;
        sum, log := ColumnTurn(A, W, H, U, N, T, next, t, localSq[t], G, V, M, W0, log);
        AccumulateStep(localSq, f, next, T, N, t, sum);
        localSq := localSq[t := sum];
        OtherThreads(next, t);
        next := Advance(next, t);
      } else {
        redsum[t] := localSq[t];
        pending := pending - {t};
      }
    }
    AllDone(next, T, N);
    HoldsExt(W, N, U, Written(next, X, W0), Unnormalised(X));
    StoredSums(localSq, f, next, T, N);
  }

  lemma OtherThreads(next: Progress, t: nat)
    requires t < |next|
    ensures |Advance(next, t)| == |next|
    ensures forall i | 0 <= i < |next| && i != t :: Advance(next, t)[i] == next[i]
  {}

  lemma StoredSums(localSq: seq<real>, f: int -> real, next: Progress, T: nat, N: int)
    requires Accumulated(localSq, f, next, T, N) && forall t | 0 <= t < T :: next[t] >= N
    ensures forall t | 0 <= t < T :: localSq[t] == Sum(StridedTerms(f, t, T), N)
  {}

  // ----- pass 4

  ghost function Rescaled(next: Progress, V: Mat, s: real): Mat
    requires |next| > 0
  {
    (n, u) => if 0 <= n && Done(next, n) then Scale(V(n, u), s) else V(n, u)
  }

  function PartScaled(V: Mat, n: int, m: int, s: real): Mat
  {
    (r, c) => if r == n && c < m then Scale(V(r, c), s) else V(r, c)
  }

  /** Every element was written by its thread in pass 3, and again once its column is rescaled. */
  ghost predicate LoggedTwice(log: WriteLog, next: Progress, N: nat, U: nat)
    requires |next| > 0
  {
    forall n, u | 0 <= n < N && 0 <= u < U ::
      log(n, u) == if Done(next, n) then [n % |next|, n % |next|] else [n % |next|]
  }

  method RescaleColumn(W: array<Complex>, U: nat, N: nat, n: nat, t: nat, scale: real,
                       ghost V: Mat, ghost log: WriteLog) returns (ghost log': WriteLog)
    requires n < N && Holds(W, N, U, V)
    modifies W
    ensures Holds(W, N, U, PartScaled(V, n, U, scale))
    ensures forall r, c | 0 <= r < N && 0 <= c < U :: log'(r, c) == if r == n then log(r, c) + [t] else log(r, c)
  {
    hide Holds;
    hide Scale;
    log' := log;
    HoldsExt(W, N, U, V, PartScaled(V, n, 0, scale));
    for u := 0 to U
      invariant Holds(W, N, U, PartScaled(V, n, u, scale))
      invariant forall r, c | 0 <= r < N && 0 <= c < U ::
                  log'(r, c) == if r == n && c < u then log(r, c) + [t] else log(r, c)
    {
      var z := Get(W, N, U, n, u, PartScaled(V, n, u, scale));
      Put(W, N, U, n, u, Scale(z, scale), PartScaled(V, n, u, scale));
      HoldsExt(W, N, U, Updated(PartScaled(V, n, u, scale), n, u, Scale(z, scale)), PartScaled(V, n, u + 1, scale));
      log' := Appended(log', n, u, t);
    }
  }

  /** Each thread rescales its own columns. */
  method RescalePhase(W: array<Complex>, U: nat, N: nat, T: nat, scale: real, ghost V: Mat, ghost before: WriteLog)
    returns (ghost log: WriteLog)
    requires T > 0 && Holds(W, N, U, V)
    requires forall n, u | 0 <= n < N && 0 <= u < U :: before(n, u) == [n % T]
    modifies W
    ensures Holds(W, N, U, ScaledBy(V, scale))
    ensures forall n, u | 0 <= n < N && 0 <= u < U :: log(n, u) == [n % T, n % T]
  {
    hide Holds;
    hide Scale;
    var next := Start(T);
    log := before;
    StartValid(T);
    HoldsExt(W, N, U, V, Rescaled(next, V, scale));
    while exists t | 0 <= t < T :: Busy(next, t, N)
      invariant Valid(next, T)
      invariant Holds(W, N, U, Rescaled(next, V, scale))
      invariant LoggedTwice(log, next, N, U)
      decreases Remaining(next, N)
    {
      var t: nat :| t < T && Busy(next, t, N);
      AdvanceDone(next, t, T);
      RemainingShrinks(next, t, T, N);
      log := RescaleColumn(W, U, N, next[t], t, scale, Rescaled(next, V, scale), log);
      HoldsExt(W, N, U, PartScaled(Rescaled(next, V, scale), next[t], U, scale), Rescaled(Advance(next, t), V, scale));
      next := Advance(next, t);
    }
    AllDone(next, T, N);
    HoldsExt(W, N, U, Rescaled(next, V, scale), ScaledBy(V, scale));
  }

  // ----- the kernel

  lemma ScanMatches(H: seq<Sample>, ch: Channel, b: int)
    requires Stores(H, ch, b)
    ensures SomeNonFinite(H) <==> !AllFinite(ch, b)
  {
    hide Flat;
    var N := ch.antennas;
    if SomeNonFinite(H) {
      var e :| 0 <= e < |H| && H[e].NonFinite?;
      FlatCell(e, ch.users, N);
      assert !ch.at(b, e / N, e % N).Finite?;
    }
    if !AllFinite(ch, b) {
      var u, n :| 0 <= u < ch.users && 0 <= n < N && !ch.at(b, u, n).Finite?;
      FlatBounds(u, n, ch.users, N);
      assert H[Flat(u, n, N)].NonFinite?;
    }
  }

  lemma AllStoredFinite(H: seq<Sample>, ch: Channel, b: int)
    requires Stores(H, ch, b) && AllFinite(ch, b)
    ensures forall u, n | 0 <= u < ch.users && 0 <= n < ch.antennas && 0 <= Flat(u, n, ch.antennas) < |H| ::
              H[Flat(u, n, ch.antennas)] == Finite(Slice(ch, b)(u, n))
  {}

  lemma LowerReady(M: Mat, sq: real -> real, U: int)
    requires IsSqrt(sq) && PositivePivots(M, sq, U)
    ensures LowerAgrees(Partial(M, sq, U, U), Factor(M, sq), U)
    ensures forall i | 0 <= i < U :: Factor(M, sq)(i, i).re != 0.0
  {
    hide L;
    forall i | 0 <= i < U
      ensures Factor(M, sq)(i, i).re != 0.0
    {
      Diagonal(M, sq, i);
    }
  }

  /** Passes 3 and 4 on a factored tile. */
  method SolveAndNormalise(A: array<Complex>, W: array<Complex>, redsum: array<real>, H: seq<Sample>,
                           U: nat, N: nat, T: nat, tiny: real, sq: real -> real,
                           ghost G: Mat, ghost V: Mat, ghost M: Mat, ghost W0: Mat)
    returns (ghost log: WriteLog)
    requires IsSqrt(sq) && tiny > 0.0
    requires 0 < T <= redsum.Length && A != W && ReadyToSolve(A, H, U, N, G, V, M) && Holds(W, N, U, W0)
    modifies W, redsum
    ensures var X := FactorSolved(M, G, U);
            Holds(W, N, U, ScaledBy(Unnormalised(X), Normaliser(X, U, N, sq, tiny)))
    ensures forall n, u | 0 <= n < N && 0 <= u < U :: log(n, u) == [n % T, n % T]
  {
    hide Holds;
    hide ReadyToSolve;
    hide FactorSolved;
    hide ScaledBy;
    hide Unnormalised;
    hide StridedTerms;
    hide Max;
    ghost var X := FactorSolved(M, G, U);
    ghost var f := ColumnNorms(X, U);
    log := ColumnsPhase(A, W, redsum, H, U, N, T, G, V, M, W0);
    ghost var r := (t: int) => Sum(StridedTerms(f, t, T), N);
    TreeReduce(redsum, T, r);
    StridedTotal(f, T, N, r);
    var scale := BlockScale(redsum[0], sq, tiny);
    assert scale == Normaliser(X, U, N, sq, tiny);
    log := RescalePhase(W, U, N, T, scale, Unnormalised(X), log);
  }

  /** Thread 0 turns the reduced sum into the shared scale. */
  method BlockScale(total: real, sq: real -> real, tiny: real) returns (scale: real)
    requires tiny > 0.0
    ensures scale == 1.0 / Max(sq(total), tiny)
  {
    var norm := sq(total);
    scale := 1.0 / (if norm > tiny then norm else tiny);
  }

  /**
   The kernel on one batch element: for every shape, every alpha and every
   thread count it returns the status and the precoder of the sequential
   algorithm, all zero unless the status is OK.
   */
  method RzfKernel(H: seq<Sample>, A: array<Complex>, W: array<Complex>, redsum: array<real>,
                   U: nat, N: nat, alpha: real, tiny: real, T: nat, sq: real -> real, ghost ch: Channel, ghost b: int)
    returns (status: int, ghost log: WriteLog)
    requires IsSqrt(sq) && tiny > 0.0
    requires Stores(H, ch, b) && U == ch.users <= MAX_USERS && N == ch.antennas
    requires 0 < T <= MAX_THREADS == redsum.Length
    requires A != W && A.Length == U * U && W.Length == N * U
    modifies A, W, redsum
    ensures status == BatchStatus(ch, b, alpha, sq)
    ensures Holds(W, N, U, BatchW(ch, b, alpha, sq, tiny))
    ensures status == 1 <==> exists e :: 0 <= e < |H| && H[e].NonFinite?
    ensures status != 0 ==> forall e | 0 <= e < W.Length :: W[e] == C(0.0, 0.0)
    ensures status == STATUS_OK ==> forall n, u | 0 <= n < N && 0 <= u < U :: log(n, u) == [n % T, n % T]
    ensures status != STATUS_OK ==> forall n, u | 0 <= n < N && 0 <= u < U :: log(n, u) == [Flat(n, u, U) % T]
  {
    hide Holds;
    hide L;
    hide Flat;
    hide Scale;
    hide Conj;
    hide Solve;
    hide Normaliser;
    log := (n, u) => [];
    var nonFinite := FiniteScan(H, T);
    ScanMatches(H, ch, b);
    if nonFinite {
      ghost var zeroed := ZeroFill(W, T);
      ZeroHolds(W, N, U);
      log := FlatLog(zeroed, U);
      FlatLogged(zeroed, log, N, U, T);
      return STATUS_NON_FINITE_INPUT, log;
    }
    AllStoredFinite(H, ch, b);
    ghost var G := Slice(ch, b);
    ghost var M := RegGram(G, N, alpha);
    GramPhase(A, H, U, N, alpha, T, G);
    var positiveDefinite := TileCholesky(A, U, M, sq);
    if !positiveDefinite {
      ghost var zeroed := ZeroFill(W, T);
      ZeroHolds(W, N, U);
      log := FlatLog(zeroed, U);
      FlatLogged(zeroed, log, N, U, T);
      return STATUS_NOT_POSITIVE_DEFINITE, log;
    }
    LowerReady(M, sq, U);
    HoldsSomething(W, N, U);
    log := SolveAndNormalise(A, W, redsum, H, U, N, T, tiny, sq, G,
                             Partial(M, sq, U, U), Factor(M, sq), Contents(W, U));
    KernelOutput(W, ch, b, alpha, sq, tiny);
    return STATUS_OK, log;
  }

  function FlatLog(zeroed: int -> seq<int>, U: int): WriteLog { (n, u) => zeroed(Flat(n, u, U)) }

  lemma FlatLogged(zeroed: int -> seq<int>, log: WriteLog, N: nat, U: nat, T: nat)
    requires T > 0 && log == FlatLog(zeroed, U) && forall e | 0 <= e < N * U :: zeroed(e) == [e % T]
    ensures forall n, u | 0 <= n < N && 0 <= u < U :: log(n, u) == [Flat(n, u, U) % T]
  {
    hide Flat;
    forall n, u | 0 <= n < N && 0 <= u < U ensures log(n, u) == [Flat(n, u, U) % T] {
      FlatBounds(n, u, N, U);
    }
  }

  lemma ZeroHolds(W: array<Complex>, N: nat, U: nat)
    requires W.Length == N * U && forall e | 0 <= e < W.Length :: W[e] == ZERO
    ensures Holds(W, N, U, (n, u) => ZERO)
  {}

  ghost function Contents(W: array<Complex>, U: nat): Mat
    reads W
  {
    var cells := W[..];
    (n, u) => if 0 <= Flat(n, u, U) < |cells| then cells[Flat(n, u, U)] else ZERO
  }

  lemma HoldsSomething(W: array<Complex>, N: nat, U: nat)
    requires W.Length == N * U
    ensures Holds(W, N, U, Contents(W, U))
  {}

  lemma KernelOutput(W: array<Complex>, ch: Channel, b: int, alpha: real, sq: real -> real, tiny: real)
    requires IsSqrt(sq) && tiny > 0.0 && ch.users > 0 && ch.antennas > 0
    requires BatchStatus(ch, b, alpha, sq) == STATUS_OK
    requires var M := Factor(RegGram(Slice(ch, b), ch.antennas, alpha), sq);
             var X := FactorSolved(M, Slice(ch, b), ch.users);
             Holds(W, ch.antennas, ch.users,
                   ScaledBy(Unnormalised(X), Normaliser(X, ch.users, ch.antennas, sq, tiny)))
    ensures Holds(W, ch.antennas, ch.users, BatchW(ch, b, alpha, sq, tiny))
  {
    hide Holds;
    hide Scale;
    hide Conj;
    hide Solve;
    hide Frobenius2;
    var U, N, G := ch.users, ch.antennas, Slice(ch, b);
    var X := FactorSolved(Factor(RegGram(G, N, alpha), sq), G, U);
    var Y := SolvedX(G, U, N, alpha, sq);
    forall u, n
      ensures X(u, n) == Y(u, n)
    {
      assert Y(u, n) == Solution(G, U, N, alpha, sq, Column(G, n))(u);
    }
    FrobeniusExt(X, Y, U, N);
    var s := Normaliser(X, U, N, sq, tiny);
    forall n, u
      ensures ScaledBy(Unnormalised(X), s)(n, u) == BatchW(ch, b, alpha, sq, tiny)(n, u)
    {
      assert Unnormalised(X)(n, u) == Conj(X(u, n));
      assert Unnormalised(Y)(n, u) == Conj(Y(u, n));
    }
    HoldsExt(W, N, U, ScaledBy(Unnormalised(X), s), BatchW(ch, b, alpha, sq, tiny));
  }
}
