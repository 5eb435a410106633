/**
 The in-place factorisation and the per-column solves of kernels/cuda/rzf_cuda.cu
 on a flat U x U tile. A ghost matrix V tracks what the tile holds.
 */
module CudaTile {
  import opened Schedule
  import opened Complexes
  import opened Cholesky

  function Flat(i: int, j: int, width: int): int { i * width + j }

  lemma FlatBounds(i: int, j: int, height: int, width: int)
    requires 0 <= i < height && 0 <= j < width
    ensures 0 <= Flat(i, j, width) < height * width
  {
    assert (height - 1 - i) * width >= 0;
  }

  lemma FlatDivMod(i: int, j: int, width: int)
    requires 0 <= i && 0 <= j < width
    ensures Flat(i, j, width) / width == i && Flat(i, j, width) % width == j
  {
    var e := i * width + j;
    var q := e / width;
    ModSplit(e, width);
    assert width * (q - i) == width * q - width * i;
    QuotientZero(width, q - i);
  }

  lemma FlatInjective(i: int, j: int, r: int, c: int, width: int)
    requires 0 <= i && 0 <= j < width && 0 <= r && 0 <= c < width && Flat(i, j, width) == Flat(r, c, width)
    ensures i == r && j == c
  {
    FlatDivMod(i, j, width);
    FlatDivMod(r, c, width);
  }

  ghost predicate Holds(A: array<Complex>, height: int, width: int, V: Mat)
    reads A
  {
    && 0 <= height && 0 <= width && A.Length == height * width
    && forall r, c | 0 <= r < height && 0 <= c < width && 0 <= Flat(r, c, width) < A.Length ::
         A[Flat(r, c, width)] == V(r, c)
  }

  /** Row-major order: element e is cell (e / width, e % width). */
  lemma HoldsRowMajor(A: array<Complex>, height: int, width: int, V: Mat)
    requires 0 <= height && 0 < width && A.Length == height * width
    ensures Holds(A, height, width, V) <==> forall e | 0 <= e < A.Length :: A[e] == V(e / width, e % width)
  {
    hide Flat;
    if Holds(A, height, width, V) {
      forall e | 0 <= e < A.Length ensures A[e] == V(e / width, e % width) {
        FlatCell(e, height, width);
      }
    }
    if forall e | 0 <= e < A.Length :: A[e] == V(e / width, e % width) {
      forall r, c | 0 <= r < height && 0 <= c < width && 0 <= Flat(r, c, width) < A.Length
        ensures A[Flat(r, c, width)] == V(r, c)
      {
        FlatDivMod(r, c, width);
      }
    }
  }

  lemma FlatCell(e: int, height: int, width: int)
    requires 0 <= e < height * width && width > 0
    ensures 0 <= e / width < height && 0 <= e % width < width && Flat(e / width, e % width, width) == e
  {}

  function Updated(V: Mat, i: int, j: int, z: Complex): Mat { (r, c) => if r == i && c == j then z else V(r, c) }

  method Get(A: array<Complex>, height: int, width: int, i: int, j: int, ghost V: Mat) returns (z: Complex)
    requires Holds(A, height, width, V) && 0 <= i < height && 0 <= j < width
    ensures z == V(i, j)
  {
    FlatBounds(i, j, height, width);
    z := A[i * width + j];
    assert z == A[Flat(i, j, width)];
  }

  method Put(A: array<Complex>, height: int, width: int, i: int, j: int, z: Complex, ghost V: Mat)
    requires Holds(A, height, width, V) && 0 <= i < height && 0 <= j < width
    modifies A
    ensures Holds(A, height, width, Updated(V, i, j, z))
  {
    hide Flat;
    FlatBounds(i, j, height, width);
    forall r, c | 0 <= r < height && 0 <= c < width && Flat(r, c, width) == Flat(i, j, width)
      ensures r == i && c == j
    {
      FlatInjective(r, c, i, j, width);
    }
    A[FlatIndex(i, j, width)] := z;
  }

  /** The index expression of the code. */
  function FlatIndex(i: int, j: int, width: int): (e: int)
    ensures e == Flat(i, j, width)
  {
    i * width + j
  }

  lemma HoldsExt(A: array<Complex>, height: int, width: int, V: Mat, V': Mat)
    requires Holds(A, height, width, V)
    requires forall r, c | 0 <= r < height && 0 <= c < width :: V(r, c) == V'(r, c)
    ensures Holds(A, height, width, V')
  {}

  /** The tile in the middle of column j: rows below i of the column are final, the upper triangle untouched. */
  function Partial(M: Mat, sq: real -> real, j: int, i: int): Mat
  {
    (r, c) => if c <= r && (c < j || (c == j && r < i)) then L(M, sq, r, c) else M(r, c)
  }

  method TilePivot(A: array<Complex>, U: nat, ghost M: Mat, sq: real -> real, j: nat) returns (d: real)
    requires j < U && Holds(A, U, U, Partial(M, sq, j, j))
    ensures d == Pivot(M, sq, j, j)
  {
    hide L;
    hide Abs2;
    hide Holds;
    ghost var V := Partial(M, sq, j, j);
    var a := Get(A, U, U, j, j, V);
    d := a.re;
    for k := 0 to j
      invariant d == Pivot(M, sq, j, k)
    {
      var l := Get(A, U, U, j, k, V);
      d := d - Abs2(l);
    }
  }

  method TileEntry(A: array<Complex>, U: nat, ghost M: Mat, sq: real -> real, i: nat, j: nat) returns (v: Complex)
    requires j < i < U && Holds(A, U, U, Partial(M, sq, j, i))
    ensures v == Reduced(M, sq, i, j, j)
  {
    hide L;
    hide Times;
    hide Holds;
    ghost var V := Partial(M, sq, j, i);
    v := Get(A, U, U, i, j, V);
    for k := 0 to j
      invariant v == Reduced(M, sq, i, j, k)
    {
      var x := Get(A, U, U, i, k, V);
      var y := Get(A, U, U, j, k, V);
      v := Minus(v, Times(x, Conj(y)));
    }
  }

  lemma BelowByScale(M: Mat, sq: real -> real, i: int, j: int)
    requires IsSqrt(sq) && 0 <= j < i && Pivot(M, sq, j, j) > 0.0
    ensures sq(Pivot(M, sq, j, j)) > 0.0
    ensures L(M, sq, i, j) == Scale(Reduced(M, sq, i, j, j), 1.0 / sq(Pivot(M, sq, j, j)))
  {
    hide Scale;
    hide Over;
    ScaleIsOver(Reduced(M, sq, i, j, j), sq(Pivot(M, sq, j, j)));
  }

  /** One column of the in-place factorisation, by thread 0. */
  method TileColumn(A: array<Complex>, U: nat, ghost M: Mat, sq: real -> real, j: nat) returns (ok: bool)
    requires IsSqrt(sq) && j < U && Holds(A, U, U, Partial(M, sq, j, j))
    modifies A
    ensures ok <==> Pivot(M, sq, j, j) > 0.0
    ensures ok ==> Holds(A, U, U, Partial(M, sq, j + 1, j + 1))
  {
    hide L;
    hide Pivot;
    hide Holds;
    hide Scale;
    var d := TilePivot(A, U, M, sq, j);
    if d <= 0.0 {
      return false;
    }
    var ljj := sq(d);
    Diagonal(M, sq, j);
    Put(A, U, U, j, j, C(ljj, 0.0), Partial(M, sq, j, j));
    HoldsExt(A, U, U, Updated(Partial(M, sq, j, j), j, j, C(ljj, 0.0)), Partial(M, sq, j, j + 1));
    var inv := 1.0 / ljj;
    for i := j + 1 to U
      invariant Holds(A, U, U, Partial(M, sq, j, i))
    {
      var v := TileEntry(A, U, M, sq, i, j);
      BelowByScale(M, sq, i, j);
      Put(A, U, U, i, j, Scale(v, inv), Partial(M, sq, j, i));
      HoldsExt(A, U, U, Updated(Partial(M, sq, j, i), i, j, Scale(v, inv)), Partial(M, sq, j, i + 1));
    }
    HoldsExt(A, U, U, Partial(M, sq, j, U), Partial(M, sq, j + 1, j + 1));
    return true;
  }

  /** In place: the lower triangle becomes the factor, the upper triangle keeps the Gram entries. */
  method TileCholesky(A: array<Complex>, U: nat, ghost M: Mat, sq: real -> real) returns (positiveDefinite: bool)
    requires IsSqrt(sq) && Holds(A, U, U, M)
    modifies A
    ensures positiveDefinite <==> PositivePivots(M, sq, U)
    ensures positiveDefinite ==> Holds(A, U, U, Partial(M, sq, U, U))
  {
    hide L;
    hide Pivot;
    hide Holds;
    HoldsExt(A, U, U, M, Partial(M, sq, 0, 0));
    for j := 0 to U
      invariant PositivePivots(M, sq, j)
      invariant Holds(A, U, U, Partial(M, sq, j, j))
    {
      var ok := TileColumn(A, U, M, sq, j);
      if !ok {
        return false;
      }
    }
    return true;
  }

  ghost predicate LowerAgrees(V: Mat, M: Mat, U: int)
  {
    forall i, j | 0 <= j <= i < U :: V(i, j) == M(i, j)
  }

  method TileForward(A: array<Complex>, U: nat, ghost V: Mat, ghost M: Mat, b: Complex, ghost rhs: Vec,
                     y: array<Complex>, i: nat) returns (r: Complex)
    requires Holds(A, U, U, V) && LowerAgrees(V, M, U) && i < U <= y.Length && b == rhs(i)
    requires forall k | 0 <= k < i :: y[k] == Forward(M, rhs, k)
    requires M(i, i).re != 0.0
    ensures r == Forward(M, rhs, i)
  {
    hide Times;
    hide Over;
    hide Scale;
    hide Holds;
    var acc := b;
    for k := 0 to i
      invariant acc == ForwardAcc(M, rhs, i, k)
    {
      var a := Get(A, U, U, i, k, V);
      acc := Minus(acc, Times(a, y[k]));
    }
    var d := Get(A, U, U, i, i, V);
    ScaleIsOver(acc, d.re);
    r := Scale(acc, 1.0 / d.re);
  }

  method TileBackward(A: array<Complex>, U: nat, ghost V: Mat, ghost M: Mat, b: Complex, ghost yv: Vec,
                      x: array<Complex>, i: nat) returns (r: Complex)
    requires Holds(A, U, U, V) && LowerAgrees(V, M, U) && i < U <= x.Length && b == yv(i)
    requires forall k | i < k < U :: x[k] == Backward(M, yv, U, k)
    requires M(i, i).re != 0.0
    ensures r == Backward(M, yv, U, i)
  {
    hide Times;
    hide Over;
    hide Scale;
    hide Holds;
    var acc := b;
    for k := i + 1 to U
      invariant acc == BackwardAcc(M, yv, U, i, k)
    {
      var a := Get(A, U, U, k, i, V);
      acc := Minus(acc, Times(Conj(a), x[k]));
    }
    var d := Get(A, U, U, i, i, V);
    ScaleIsOver(acc, d.re);
    r := Scale(acc, 1.0 / d.re);
  }

  /**
   ONE column solve with the thread's private arrays y and x. V is arbitrary
   above the diagonal: the result depends on the lower triangle only.
   */
  method TileSolve(A: array<Complex>, U: nat, ghost V: Mat, ghost M: Mat, rhs: Vec,
                   y: array<Complex>, x: array<Complex>)
    requires Holds(A, U, U, V) && LowerAgrees(V, M, U)
    requires U <= y.Length && U <= x.Length && y != x && y != A && x != A
    requires forall i | 0 <= i < U :: M(i, i).re != 0.0
    modifies y, x
    ensures Holds(A, U, U, V)
    ensures forall i | 0 <= i < U :: x[i] == Solve(M, rhs, U)(i)
  {
    hide Forward;
    hide Backward;
    hide Holds;
    for i := 0 to U
      invariant forall k | 0 <= k < i :: y[k] == Forward(M, rhs, k)
      invariant Holds(A, U, U, V)
    {
      y[i] := TileForward(A, U, V, M, rhs(i), rhs, y, i);
    }
    ghost var yv := ForwardVec(M, rhs);
    for i := U downto 0
      invariant forall k | 0 <= k < U :: y[k] == yv(k)
      invariant forall k | i <= k < U :: x[k] == Backward(M, yv, U, k)
      invariant Holds(A, U, U, V)
    {
      x[i] := TileBackward(A, U, V, M, y[i], yv, x, i);
    }
  }
}
