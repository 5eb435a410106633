/** kernels/rzf/rzf_algorithm.py: the sequential RZF precoder and its fail-closed status. */
module RzfAlgorithm {
  import opened Floats
  import opened Sums
  import opened Complexes
  import opened Cholesky
  import opened RegularizedGram

  const STATUS_OK := 0
  const STATUS_NON_FINITE_INPUT := 1
  const STATUS_NOT_POSITIVE_DEFINITE := 2

  /** An input entry: NaN and the infinities are one tagged case. */
  type Sample = Guarded<Complex>

  datatype Channel = Channel(ndim: nat, batch: int, users: int, antennas: int, at: (int, int, int) -> Sample)

  datatype ValueError = BadRank | EmptyDimension | MoreUsersThanAntennas | BadAlpha

  datatype Outcome = Precoded(w: array3<Complex>, status: array<int>) | Raised(error: ValueError)

  // ----- what the code computes

  function ValueOf(e: Sample): Complex { if e.Finite? then e.r else ZERO }

  function Slice(ch: Channel, b: int): Mat { (u, n) => ValueOf(ch.at(b, u, n)) }

  ghost predicate AllFinite(ch: Channel, b: int)
  {
    forall u, n | 0 <= u < ch.users && 0 <= n < ch.antennas :: ch.at(b, u, n).Finite?
  }

  /** The unnormalised solution X of A X = H, one column per antenna. */
  function SolvedX(H: Mat, U: int, N: int, alpha: real, sq: real -> real): Mat
  {
    (u, n) => Solution(H, U, N, alpha, sq, Column(H, n))(u)
  }

  /** W before normalisation: conj(X)^T. */
  function Unnormalised(X: Mat): Mat { (n, u) => Conj(X(u, n)) }

  function ColumnNorms(X: Mat, U: int): int -> real { n => Norm2(Column(X, n), U) }

  function Frobenius2(X: Mat, U: int, N: int): real { Sum(ColumnNorms(X, U), N) }

  function Max(a: real, b: real): real { if a >= b then a else b }

  function Normaliser(X: Mat, U: int, N: int, sq: real -> real, tiny: real): real
    requires tiny > 0.0
  {
    1.0 / Max(sq(Frobenius2(X, U, N)), tiny)
  }

  function ScaledBy(W: Mat, s: real): Mat { (n, u) => Scale(W(n, u), s) }

  /** W[n, u] = conj(X[u, n]) scaled by the shared normaliser. */
  function Precoder(H: Mat, U: int, N: int, alpha: real, sq: real -> real, tiny: real): Mat
    requires tiny > 0.0
  {
    var X := SolvedX(H, U, N, alpha, sq);
    ScaledBy(Unnormalised(X), Normaliser(X, U, N, sq, tiny))
  }

  ghost function BatchStatus(ch: Channel, b: int, alpha: real, sq: real -> real): int
  {
    if !AllFinite(ch, b) then STATUS_NON_FINITE_INPUT
    else if PositivePivots(RegGram(Slice(ch, b), ch.antennas, alpha), sq, ch.users) then STATUS_OK
    else STATUS_NOT_POSITIVE_DEFINITE
  }

  ghost function BatchW(ch: Channel, b: int, alpha: real, sq: real -> real, tiny: real): Mat
    requires tiny > 0.0
  {
    if BatchStatus(ch, b, alpha, sq) == STATUS_OK
    then Precoder(Slice(ch, b), ch.users, ch.antennas, alpha, sq, tiny)
    else (n, u) => ZERO
  }

  lemma FrobeniusExt(X: Mat, Y: Mat, U: int, N: int)
    requires forall u, n | 0 <= u < U && 0 <= n < N :: X(u, n) == Y(u, n)
    ensures Frobenius2(X, U, N) == Frobenius2(Y, U, N)
  {
    forall n | 0 <= n < N
      ensures ColumnNorms(X, U)(n) == ColumnNorms(Y, U)(n)
    {
      Norm2Ext(Column(X, n), Column(Y, n), U);
    }
    SumExt(ColumnNorms(X, U), ColumnNorms(Y, U), N);
  }

  // ----- the code

  /** The ValueError raised by the shape gate, if any. */
  method ValidateShape(batch: int, users: int, antennas: int, alpha: real) returns (ok: bool, e: ValueError)
    ensures ok <==> 0 < batch && 0 < users <= antennas && alpha > 0.0
    ensures !ok && (batch <= 0 || users <= 0 || antennas <= 0) ==> e == EmptyDimension
    ensures !ok && batch > 0 && users > antennas > 0 ==> e == MoreUsersThanAntennas
    ensures !ok && batch > 0 && 0 < users <= antennas ==> e == BadAlpha
  {
    if batch <= 0 || users <= 0 || antennas <= 0 {
      return false, EmptyDimension;
    }
    if antennas < users {
      return false, MoreUsersThanAntennas;
    }
    if !(alpha > 0.0) {
      return false, BadAlpha;
    }
    return true, BadRank;
  }

  method Gram(H: Mat, users: nat, antennas: nat) returns (gram: array2<Complex>)
    ensures fresh(gram) && gram.Length0 == users && gram.Length1 == users
    ensures forall i, j | 0 <= i < users && 0 <= j < users :: gram[i, j] == GramEntry(H, i, j, antennas)
  {
    hide GramEntry;
    gram := new Complex[users, users];
    for i := 0 to users
      invariant forall r, c | 0 <= r < i && 0 <= c < users :: gram[r, c] == GramEntry(H, r, c, antennas)
    {
      for j := 0 to users
        invariant forall r, c | 0 <= r < i && 0 <= c < users :: gram[r, c] == GramEntry(H, r, c, antennas)
        invariant forall c | 0 <= c < j :: gram[i, c] == GramEntry(H, i, c, antennas)
      {
        gram[i, j] := AccumulateGram(H, i, j, antennas);
      }
    }
  }

  /** One Gram entry, accumulated left to right. */
  method AccumulateGram(H: Mat, i: int, j: int, antennas: nat) returns (acc: Complex)
    ensures acc == GramEntry(H, i, j, antennas)
  {
    hide CSum;
    hide Times;
    acc := ZERO;
    var terms := GramTerms(H, i, j);
    CSumEmpty(terms);
    for n := 0 to antennas
      invariant acc == CSum(terms, n)
    {
      CSumStep(terms, n);
      assert terms(n) == Times(H(i, n), Conj(H(j, n)));
      acc := Plus(acc, Times(H(i, n), Conj(H(j, n))));
    }
  }

  /** The pivot of column j: the stored diagonal less the squared row of the factor. */
  method PivotOf(a: array2<Complex>, lower: array2<Complex>, ghost A: Mat, sq: real -> real, j: nat)
    returns (acc: real)
    requires j < a.Length0 == a.Length1 == lower.Length0 == lower.Length1
    requires a[j, j] == A(j, j)
    requires forall k | 0 <= k < j :: lower[j, k] == L(A, sq, j, k)
    ensures acc == Pivot(A, sq, j, j)
  {
    hide Times;
    hide Abs2;
    hide L;
    acc := a[j, j].re;
    for k := 0 to j
      invariant acc == Pivot(A, sq, j, k)
    {
      TimesConjSelf(lower[j, k]);
      acc := acc - Times(lower[j, k], Conj(lower[j, k])).re;
    }
  }

  /** The numerator of L[i, j]: the stored entry less the products of the finished columns. */
  method EntryOf(a: array2<Complex>, lower: array2<Complex>, ghost A: Mat, sq: real -> real, i: nat, j: nat)
    returns (v: Complex)
    requires j <= i < a.Length0 == a.Length1 == lower.Length0 == lower.Length1
    requires a[i, j] == A(i, j)
    requires forall k | 0 <= k < j :: lower[i, k] == L(A, sq, i, k) && lower[j, k] == L(A, sq, j, k)
    ensures v == Reduced(A, sq, i, j, j)
  {
    hide Times;
    hide L;
    v := a[i, j];
    for k := 0 to j
      invariant v == Reduced(A, sq, i, j, k)
    {
      v := Minus(v, Times(lower[i, k], Conj(lower[j, k])));
    }
  }

  lemma BelowDiagonal(A: Mat, sq: real -> real, i: int, j: int)
    requires IsSqrt(sq) && 0 <= j < i && Pivot(A, sq, j, j) > 0.0
    ensures L(A, sq, i, j) == Over(Reduced(A, sq, i, j, j), sq(Pivot(A, sq, j, j)))
  {}

  /** Fills column j below its diagonal entry. */
  method FillColumn(a: array2<Complex>, lower: array2<Complex>, ghost A: Mat, sq: real -> real, j: nat, ljj: real)
    requires IsSqrt(sq) && a != lower && j < a.Length0 == a.Length1 == lower.Length0 == lower.Length1
    requires forall i | j <= i < a.Length0 :: a[i, j] == A(i, j)
    requires forall r, c | j <= r < a.Length0 && 0 <= c < j :: lower[r, c] == L(A, sq, r, c)
    requires Pivot(A, sq, j, j) > 0.0 && ljj == sq(Pivot(A, sq, j, j))
    modifies lower
    ensures forall r | j < r < a.Length0 :: lower[r, j] == L(A, sq, r, j)
    ensures forall r, c | 0 <= r < a.Length0 && 0 <= c < a.Length0 && (c != j || r <= j) ::
              lower[r, c] == old(lower[r, c])
  {
    hide Pivot;
    hide L;
    hide Over;
    for i := j + 1 to a.Length0
      invariant forall r | j < r < i :: lower[r, j] == L(A, sq, r, j)
      invariant forall r, c | 0 <= r < a.Length0 && 0 <= c < a.Length0 && (c != j || r <= j) ::
                  lower[r, c] == old(lower[r, c])
    {
      var v := EntryOf(a, lower, A, sq, i, j);
      BelowDiagonal(A, sq, i, j);
      lower[i, j] := Over(v, ljj);
    }
  }

  /** Factors the matrix whose lower triangle is stored in a; stops at the first bad pivot. */
  method CholeskyFactor(a: array2<Complex>, ghost A: Mat, sq: real -> real)
    returns (lower: array2<Complex>, positiveDefinite: bool)
    requires IsSqrt(sq) && a.Length0 == a.Length1
    requires forall i, j | 0 <= j <= i < a.Length0 :: a[i, j] == A(i, j)
    ensures fresh(lower) && lower.Length0 == lower.Length1 == a.Length0
    ensures positiveDefinite <==> PositivePivots(A, sq, a.Length0)
    ensures positiveDefinite ==>
              forall i, j | 0 <= i < a.Length0 && 0 <= j < a.Length0 :: lower[i, j] == L(A, sq, i, j)
  {
    hide Pivot;
    hide L;
    hide Over;
    var n := a.Length0;
    lower := new Complex[n, n]((i, j) => ZERO);
    for j := 0 to n
      invariant PositivePivots(A, sq, j)
      invariant forall r, c | 0 <= r < n && 0 <= c < j :: lower[r, c] == L(A, sq, r, c)
      invariant forall r, c | 0 <= r < n && j <= c < n :: lower[r, c] == ZERO
    {
      var acc := PivotOf(a, lower, A, sq, j);
      if acc <= 0.0 {
        return lower, false;
      }
      var ljj := sq(acc);
      Diagonal(A, sq, j);
      lower[j, j] := C(ljj, 0.0);
      FillColumn(a, lower, A, sq, j, ljj);
      forall r | 0 <= r < j
        ensures L(A, sq, r, j) == ZERO
      {
        UpperZero(A, sq, r, j);
      }
    }
    positiveDefinite := true;
  }

  method ForwardOf(lower: array2<Complex>, ghost M: Mat, rhs: Vec, y: array<Complex>, i: nat)
    returns (r: Complex)
    requires i < lower.Length0 == lower.Length1 == y.Length
    requires forall k | 0 <= k <= i :: lower[i, k] == M(i, k)
    requires forall k | 0 <= k < i :: y[k] == Forward(M, rhs, k)
    requires M(i, i).re != 0.0
    ensures r == Forward(M, rhs, i)
  {
    hide Times;
    hide Over;
    var acc := rhs(i);
    for k := 0 to i
      invariant acc == ForwardAcc(M, rhs, i, k)
    {
      acc := Minus(acc, Times(lower[i, k], y[k]));
    }
    r := Over(acc, lower[i, i].re);
  }

  method BackwardOf(lower: array2<Complex>, ghost M: Mat, ghost yv: Vec, yi: Complex, x: array<Complex>, i: nat)
    returns (r: Complex)
    requires i < lower.Length0 == lower.Length1 == x.Length
    requires forall k | i <= k < x.Length :: lower[k, i] == M(k, i)
    requires forall k | i < k < x.Length :: x[k] == Backward(M, yv, x.Length, k)
    requires yi == yv(i) && M(i, i).re != 0.0
    ensures r == Backward(M, yv, x.Length, i)
  {
    hide Times;
    hide Over;
    var n := x.Length;
    var acc := yi;
    for k := i + 1 to n
      invariant acc == BackwardAcc(M, yv, n, i, k)
    {
      acc := Minus(acc, Times(Conj(lower[k, i]), x[k]));
    }
    r := Over(acc, lower[i, i].re);
  }

  /** Solves (M M^H) x = rhs, reading only the lower triangle of its argument. */
  method SolveSpd(lower: array2<Complex>, ghost M: Mat, rhs: Vec) returns (x: array<Complex>)
    requires lower.Length0 == lower.Length1
    requires forall i, j | 0 <= j <= i < lower.Length0 :: lower[i, j] == M(i, j)
    requires forall i | 0 <= i < lower.Length0 :: M(i, i).re != 0.0
    ensures fresh(x) && x.Length == lower.Length0
    ensures forall i | 0 <= i < x.Length :: x[i] == Solve(M, rhs, x.Length)(i)
  {
    hide Forward;
    hide Backward;
    var n := lower.Length0;
    var y := new Complex[n](i => ZERO);
    for i := 0 to n
      invariant forall k | 0 <= k < i :: y[k] == Forward(M, rhs, k)
    {
      y[i] := ForwardOf(lower, M, rhs, y, i);
    }
    ghost var yv := ForwardVec(M, rhs);
    x := new Complex[n](i => ZERO);
    for i := n downto 0
      invariant forall k | i <= k < n :: x[k] == Backward(M, yv, n, k)
      invariant forall k | 0 <= k < n :: y[k] == yv(k)
    {
      x[i] := BackwardOf(lower, M, yv, y[i], x, i);
    }
  }

  method IsFiniteSlice(ch: Channel, b: int) returns (finite: bool)
    ensures finite <==> AllFinite(ch, b)
  {
    for u := 0 to if ch.users > 0 then ch.users else 0
      invariant forall v, n | 0 <= v < u && 0 <= n < ch.antennas :: ch.at(b, v, n).Finite?
    {
      for n := 0 to if ch.antennas > 0 then ch.antennas else 0
        invariant forall m | 0 <= m < n :: ch.at(b, u, m).Finite?
      {
        if ch.at(b, u, n).NonFinite? {
          return false;
        }
      }
    }
    return true;
  }

  /** Gram matrix with alpha added to its (real) diagonal. */
  method RegularizedGramOf(H: Mat, users: nat, antennas: nat, alpha: real) returns (gram: array2<Complex>)
    ensures fresh(gram) && gram.Length0 == gram.Length1 == users
    ensures forall i, j | 0 <= i < users && 0 <= j < users :: gram[i, j] == RegGram(H, antennas, alpha)(i, j)
  {
    hide GramEntry;
    gram := Gram(H, users, antennas);
    for i := 0 to users
      invariant forall r, c | 0 <= r < users && 0 <= c < users ::
                  gram[r, c] == if r < i then RegGram(H, antennas, alpha)(r, c) else GramEntry(H, r, c, antennas)
    {
      gram[i, i] := C(gram[i, i].re + alpha, 0.0);
    }
  }

  /** One independent solve per column. */
  method SolveColumns(lower: array2<Complex>, ghost M: Mat, H: Mat, antennas: nat) returns (x: array2<Complex>)
    requires lower.Length0 == lower.Length1
    requires forall i, j | 0 <= j <= i < lower.Length0 :: lower[i, j] == M(i, j)
    requires forall i | 0 <= i < lower.Length0 :: M(i, i).re != 0.0
    ensures fresh(x) && x.Length0 == lower.Length0 && x.Length1 == antennas
    ensures forall u, n | 0 <= u < x.Length0 && 0 <= n < antennas ::
              x[u, n] == Solve(M, Column(H, n), x.Length0)(u)
  {
    hide Solve;
    var users := lower.Length0;
    x := new Complex[users, antennas]((u, n) => ZERO);
    for n := 0 to antennas
      invariant forall u, c | 0 <= u < users && 0 <= c < n :: x[u, c] == Solve(M, Column(H, c), users)(u)
      invariant forall i, j | 0 <= j <= i < users :: lower[i, j] == M(i, j)
    {
      var column := SolveSpd(lower, M, Column(H, n));
      for u := 0 to users
        invariant forall v, c | 0 <= v < users && 0 <= c < n :: x[v, c] == Solve(M, Column(H, c), users)(v)
        invariant forall v | 0 <= v < u :: x[v, n] == Solve(M, Column(H, n), users)(v)
        invariant forall i | 0 <= i < users :: column[i] == Solve(M, Column(H, n), users)(i)
        invariant forall i, j | 0 <= j <= i < users :: lower[i, j] == M(i, j)
      {
        x[u, n] := column[u];
      }
    }
  }

  /** The sum of squared magnitudes of W = conj(X)^T. */
  method FrobeniusOf(x: array2<Complex>, ghost X: Mat) returns (total: real)
    requires forall u, n | 0 <= u < x.Length0 && 0 <= n < x.Length1 :: x[u, n] == X(u, n)
    ensures total == Frobenius2(X, x.Length0, x.Length1)
  {
    hide Abs2;
    total := 0.0;
    for n := 0 to x.Length1
      invariant total == Sum(ColumnNorms(X, x.Length0), n)
    {
      var part := 0.0;
      for u := 0 to x.Length0
        invariant part == Norm2(Column(X, n), u)
      {
        Abs2Conj(x[u, n]);
        assert Abs2Terms(Column(X, n))(u) == Abs2(X(u, n));
        part := part + Abs2(Conj(x[u, n]));
      }
      assert ColumnNorms(X, x.Length0)(n) == part;
      total := total + part;
    }
  }

  lemma Abs2Conj(a: Complex)
    ensures Abs2(Conj(a)) == Abs2(a)
  {}

  /** Writes the scaled conjugate transpose of x into slice b of the output. */
  method WriteBatch(x: array2<Complex>, scale: real, w: array3<Complex>, b: nat)
    requires b < w.Length0 && w.Length1 == x.Length1 && w.Length2 == x.Length0
    modifies w
    ensures forall n, u | 0 <= n < w.Length1 && 0 <= u < w.Length2 :: w[b, n, u] == Scale(Conj(x[u, n]), scale)
    ensures forall c, n, u | 0 <= c < w.Length0 && c != b && 0 <= n < w.Length1 && 0 <= u < w.Length2 ::
              w[c, n, u] == old(w[c, n, u])
  {
    hide Conj;
    hide Scale;
    forall n, u | 0 <= n < w.Length1 && 0 <= u < w.Length2 {
      w[b, n, u] := Scale(Conj(x[u, n]), scale);
    }
  }

  /** The body of the batch loop. */
  method PrecodeBatch(ch: Channel, b: nat, alpha: real, sq: real -> real, tiny: real,
                      w: array3<Complex>, status: array<int>)
    requires IsSqrt(sq) && tiny > 0.0
    requires 0 < ch.users && 0 < ch.antennas
    requires b < w.Length0 == status.Length && w.Length1 == ch.antennas && w.Length2 == ch.users
    requires status[b] == STATUS_OK
    requires forall n, u | 0 <= n < ch.antennas && 0 <= u < ch.users :: w[b, n, u] == ZERO
    modifies w, status
    ensures status[b] == BatchStatus(ch, b, alpha, sq)
    ensures status[b] == 1
       <==> exists u, n :: 0 <= u < ch.users && 0 <= n < ch.antennas && ch.at(b, u, n).NonFinite?
    ensures forall n, u | 0 <= n < ch.antennas && 0 <= u < ch.users ::
              w[b, n, u] == BatchW(ch, b, alpha, sq, tiny)(n, u)
    ensures status[b] != 0 ==> forall n, u | 0 <= n < ch.antennas && 0 <= u < ch.users :: w[b, n, u] == C(0.0, 0.0)
    ensures forall c | 0 <= c < status.Length && c != b :: status[c] == old(status[c])
    ensures forall c, n, u | 0 <= c < w.Length0 && c != b && 0 <= n < w.Length1 && 0 <= u < w.Length2 ::
              w[c, n, u] == old(w[c, n, u])
  {
    hide L;
    hide Solve;
    hide Frobenius2;
    hide Conj;
    hide Scale;
    var finite := IsFiniteSlice(ch, b);
    if !finite {
      status[b] := STATUS_NON_FINITE_INPUT;
      return;
    }
    var H := Slice(ch, b);
    var gram := RegularizedGramOf(H, ch.users, ch.antennas, alpha);
    ghost var A := RegGram(H, ch.antennas, alpha);
    var lower, positiveDefinite := CholeskyFactor(gram, A, sq);
    if !positiveDefinite {
      status[b] := STATUS_NOT_POSITIVE_DEFINITE;
      return;
    }
    forall i | 0 <= i < ch.users
      ensures Factor(A, sq)(i, i).re != 0.0
    {
      Diagonal(A, sq, i);
    }
    var x := SolveColumns(lower, Factor(A, sq), H, ch.antennas);
    ghost var X := SolvedX(H, ch.users, ch.antennas, alpha, sq);
    forall u, n | 0 <= u < x.Length0 && 0 <= n < x.Length1
      ensures x[u, n] == X(u, n)
    {
      assert X(u, n) == Solution(H, ch.users, ch.antennas, alpha, sq, Column(H, n))(u);
    }
    var total := FrobeniusOf(x, X);
    WriteBatch(x, 1.0 / Max(sq(total), tiny), w, b);
  }

  /** Only non-finite input is rejected, and what is rejected is zero. */
  lemma FailClosed(ch: Channel, b: int, alpha: real, sq: real -> real, tiny: real)
    requires IsSqrt(sq) && tiny > 0.0 && alpha > 0.0 && ch.antennas >= 0
    ensures BatchStatus(ch, b, alpha, sq) == if AllFinite(ch, b) then 0 else 1
    ensures !AllFinite(ch, b) ==> forall n, u :: BatchW(ch, b, alpha, sq, tiny)(n, u) == C(0.0, 0.0)
  {
    hide Precoder;
    hide RegGram;
    RegGramPositivePivots(Slice(ch, b), ch.antennas, alpha, sq, ch.users);
  }

  /** The RZF precoder of every batch element, fail-closed. */
  method RzfPrecoderCholesky(ch: Channel, alpha: real, sq: real -> real, tiny: real) returns (r: Outcome)
    requires IsSqrt(sq) && tiny > 0.0
    ensures r.Precoded? <==> ch.ndim == 3 && 0 < ch.batch && 0 < ch.users <= ch.antennas && alpha > 0.0
    ensures r.Precoded? ==>
              && r.w.Length0 == r.status.Length == ch.batch
              && r.w.Length1 == ch.antennas && r.w.Length2 == ch.users
              && (forall b | 0 <= b < ch.batch :: r.status[b] == BatchStatus(ch, b, alpha, sq))
              && (forall b, n, u | 0 <= b < ch.batch && 0 <= n < ch.antennas && 0 <= u < ch.users ::
                    r.w[b, n, u] == BatchW(ch, b, alpha, sq, tiny)(n, u))
    ensures r.Precoded? ==> forall b | 0 <= b < ch.batch ::
              if exists u, n :: 0 <= u < ch.users && 0 <= n < ch.antennas && ch.at(b, u, n).NonFinite?
              then r.status[b] == 1 && forall n, u | 0 <= n < ch.antennas && 0 <= u < ch.users ::
                                         r.w[b, n, u] == C(0.0, 0.0)
              else r.status[b] == 0
    ensures r.Raised? && ch.ndim != 3 ==> r.error == BadRank
    ensures r.Raised? && ch.ndim == 3 ==> r.error != BadRank
  {
    hide BatchStatus;
    hide BatchW;
    if ch.ndim != 3 {
      return Raised(BadRank);
    }
    var ok, e := ValidateShape(ch.batch, ch.users, ch.antennas, alpha);
    if !ok {
      return Raised(e);
    }
    var w := new Complex[ch.batch, ch.antennas, ch.users]((b, n, u) => ZERO);
    var status := new int[ch.batch](b => STATUS_OK);
    for b := 0 to ch.batch
      invariant forall c | 0 <= c < ch.batch ::
                  status[c] == if c < b then BatchStatus(ch, c, alpha, sq) else STATUS_OK
      invariant forall c, n, u | 0 <= c < b && 0 <= n < ch.antennas && 0 <= u < ch.users ::
                  w[c, n, u] == BatchW(ch, c, alpha, sq, tiny)(n, u)
      invariant forall c, n, u | b <= c < ch.batch && 0 <= n < ch.antennas && 0 <= u < ch.users ::
                  w[c, n, u] == ZERO
    {
      PrecodeBatch(ch, b, alpha, sq, tiny, w, status);
    }
    forall b | 0 <= b < ch.batch
      ensures BatchStatus(ch, b, alpha, sq) == if AllFinite(ch, b) then 0 else 1
      ensures !AllFinite(ch, b) ==> forall n, u :: BatchW(ch, b, alpha, sq, tiny)(n, u) == C(0.0, 0.0)
    {
      FailClosed(ch, b, alpha, sq, tiny);
    }
    return Precoded(w, status);
  }
}
