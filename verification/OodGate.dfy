/**
 pkg/contract/validate.go, positiveDefiniteSymmetric: the tolerance-aware
 Cholesky gate on the OOD inverse covariance.
 */
module OodGate {
  import opened Floats
  import opened Complexes
  import opened Cholesky

  /** Panic: the code indexes past the end of a short row. */
  datatype Verdict = Accept | Reject | Panic

  function Entry(a: seq<seq<Float>>): RMat
  {
    (i, j) => if 0 <= i < |a| && 0 <= j < |a[i]| && a[i][j].Finite? then a[i][j].r else 0.0
  }

  function LiftM(a: RMat): Mat { (i, j) => C(a(i, j), 0.0) }

  function Abs(x: real): real { if x < 0.0 then -x else x }

  function MaxOf(x: real, y: real): real { if x >= y then x else y }

  /** How far two mirrored entries may differ. */
  function Band(x: real, y: real, tolerance: real): real { tolerance * MaxOf(1.0, MaxOf(Abs(x), Abs(y))) }

  /** The asymmetry test of one pair; comparisons with NaN or between infinities are false. */
  function Asymmetric(x: Float, y: Float, tolerance: real): bool
  {
    x.Finite? && y.Finite? && Abs(x.r - y.r) > Band(x.r, y.r, tolerance)
  }

  ghost predicate IsSquare(a: seq<seq<Float>>)
  {
    forall i | 0 <= i < |a| :: |a[i]| == |a|
  }

  /** Cell (i, j) can be inspected and passes. */
  ghost predicate CellPasses(a: seq<seq<Float>>, tolerance: real, i: int, j: int)
    requires 0 <= i < |a| && 0 <= j < |a|
  {
    && |a[i]| == |a| && |a[j]| > i
    && a[i][j].Finite? && !Asymmetric(a[i][j], a[j][i], tolerance)
  }

  /** Every cell visited before (i, j) passes. */
  ghost predicate PassesBefore(a: seq<seq<Float>>, tolerance: real, i: int, j: int)
    requires 0 <= i <= |a|
  {
    && (forall p, q | 0 <= p < i && 0 <= q < |a| :: CellPasses(a, tolerance, p, q))
    && (forall q | 0 <= q < j && i < |a| && q < |a| :: CellPasses(a, tolerance, i, q))
  }

  /** The scan reaches cell (i, j), finds it finite, and its mirror image is missing. */
  ghost predicate PanicsAt(a: seq<seq<Float>>, tolerance: real, i: int, j: int)
  {
    && 0 <= i < |a| && 0 <= j < |a|
    && PassesBefore(a, tolerance, i, j)
    && |a[i]| == |a| && a[i][j].Finite? && |a[j]| <= i
  }

  ghost predicate NearlySymmetric(a: seq<seq<Float>>, tolerance: real)
  {
    && IsSquare(a)
    && (forall i, j | 0 <= i < |a| && 0 <= j < |a| :: a[i][j].Finite?)
    && forall i, j | 0 <= i < |a| && 0 <= j < |a| :: !Asymmetric(a[i][j], a[j][i], tolerance)
  }

  /**
   The symmetry test spelled out: a square matrix of finite entries, no two mirrored ones of which differ by more
   than the tolerance and by more than the tolerance times the magnitude of either.
   */
  lemma NearlySymmetricIff(a: seq<seq<Float>>, tolerance: real)
    requires tolerance > 0.0
    ensures NearlySymmetric(a, tolerance)
       <==> && (forall i | 0 <= i < |a| :: |a[i]| == |a|)
            && (forall i, j | 0 <= i < |a| && 0 <= j < |a| :: a[i][j].Finite?)
            && forall i, j | 0 <= i < |a| && 0 <= j < |a| ::
                 var x, y := a[i][j].r, a[j][i].r;
                 !(x - y > tolerance && x - y > tolerance * x && x - y > tolerance * -x
                   && x - y > tolerance * y && x - y > tolerance * -y)
  {
    hide Asymmetric;
    if IsSquare(a) && forall i, j | 0 <= i < |a| && 0 <= j < |a| :: a[i][j].Finite? {
      forall i, j | 0 <= i < |a| && 0 <= j < |a|
        ensures Asymmetric(a[i][j], a[j][i], tolerance)
           <==> Exceeds(a[i][j].r, a[j][i].r, tolerance) || Exceeds(a[j][i].r, a[i][j].r, tolerance)
      {
        AsymmetricIff(a[i][j].r, a[j][i].r, tolerance);
      }
      if NearlySymmetric(a, tolerance) {
        forall i, j | 0 <= i < |a| && 0 <= j < |a| ensures !Exceeds(a[i][j].r, a[j][i].r, tolerance) {
          assert !Asymmetric(a[i][j], a[j][i], tolerance);
        }
      }
    }
  }

  /** x exceeds y by more than the band allows. */
  predicate Exceeds(x: real, y: real, tolerance: real)
  {
    && x - y > tolerance && x - y > tolerance * x && x - y > tolerance * -x
    && x - y > tolerance * y && x - y > tolerance * -y
  }

  lemma AsymmetricIff(x: real, y: real, tolerance: real)
    requires tolerance > 0.0
    ensures Asymmetric(Finite(x), Finite(y), tolerance) <==> Exceeds(x, y, tolerance) || Exceeds(y, x, tolerance)
  {
    var m := MaxOf(1.0, MaxOf(Abs(x), Abs(y)));
    var k, p, a, b, c, e :=
      Multiple(tolerance, m), Multiple(tolerance, 1.0), Multiple(tolerance, x), Multiple(tolerance, -x),
      Multiple(tolerance, y), Multiple(tolerance, -y);
    MultipleMono(tolerance, 1.0, m);
    MultipleMono(tolerance, x, m);
    MultipleMono(tolerance, -x, m);
    MultipleMono(tolerance, y, m);
    MultipleMono(tolerance, -y, m);
    assert m == 1.0 || m == x || m == -x || m == y || m == -y;
    hide Multiple;
    Highest(x - y, k, p, a, b, c, e);
    Highest(y - x, k, p, a, b, c, e);
    BandIs(x, y, tolerance, m);
    ExceedsIs(x, y, tolerance);
    ExceedsIs(y, x, tolerance);
    hide Exceeds;
    hide Band;
  }

  function Multiple(t: real, a: real): real { t * a }

  lemma BandIs(x: real, y: real, tolerance: real, m: real)
    requires m == MaxOf(1.0, MaxOf(Abs(x), Abs(y)))
    ensures Band(x, y, tolerance) == Multiple(tolerance, m)
  {}

  lemma ExceedsIs(x: real, y: real, t: real)
    ensures Exceeds(x, y, t)
       <==> x - y > Multiple(t, 1.0) && x - y > Multiple(t, x) && x - y > Multiple(t, -x)
            && x - y > Multiple(t, y) && x - y > Multiple(t, -y)
  {}

  lemma MultipleMono(t: real, a: real, m: real)
    requires t > 0.0 && a <= m
    ensures Multiple(t, a) <= Multiple(t, m)
  {}

  /** To exceed the largest of five numbers is to exceed each. */
  lemma Highest(d: real, k: real, p: real, a: real, b: real, c: real, e: real)
    requires p <= k && a <= k && b <= k && c <= k && e <= k
    requires k == p || k == a || k == b || k == c || k == e
    ensures d > k <==> d > p && d > a && d > b && d > c && d > e
  {}

  ghost predicate PivotsAbove(A: Mat, sq: real -> real, tolerance: real, n: int)
  {
    forall j | 0 <= j < n :: Pivot(A, sq, j, j) > tolerance
  }

  /** The gate's acceptance condition. */
  ghost predicate Accepted(a: seq<seq<Float>>, tolerance: real, sq: real -> real)
  {
    |a| > 0 && NearlySymmetric(a, tolerance) && PivotsAbove(LiftM(Entry(a)), sq, tolerance, |a|)
  }

  // ----- the factor of a real matrix is real

  lemma {:induction false} RealFactor(a: RMat, sq: real -> real, i: int, j: int)
    ensures L(LiftM(a), sq, i, j).im == 0.0
    decreases j, 1
  {
    if 0 <= j < i {
      RealReduced(a, sq, i, j, j);
    }
  }

  lemma {:induction false} RealReduced(a: RMat, sq: real -> real, i: int, j: int, m: int)
    ensures Reduced(LiftM(a), sq, i, j, m).im == 0.0
    decreases m, 0
  {
    if m > 0 {
      RealReduced(a, sq, i, j, m - 1);
      RealFactor(a, sq, i, m - 1);
      RealFactor(a, sq, j, m - 1);
    }
  }

  function Lr(a: RMat, sq: real -> real, i: int, j: int): real { L(LiftM(a), sq, i, j).re }

  lemma ReducedStep(a: RMat, sq: real -> real, i: int, j: int, k: int)
    requires k >= 0
    ensures Reduced(LiftM(a), sq, i, j, k + 1).re
         == Reduced(LiftM(a), sq, i, j, k).re - Lr(a, sq, i, k) * Lr(a, sq, j, k)
    ensures Pivot(LiftM(a), sq, j, k + 1) == Pivot(LiftM(a), sq, j, k) - Lr(a, sq, j, k) * Lr(a, sq, j, k)
  {
    hide L;
    RealFactor(a, sq, i, k);
    RealFactor(a, sq, j, k);
  }

  lemma PivotIsReduced(a: RMat, sq: real -> real, j: int, m: int)
    ensures Pivot(LiftM(a), sq, j, m) == Reduced(LiftM(a), sq, j, j, m).re
    decreases m
  {
    if m > 0 {
      PivotIsReduced(a, sq, j, m - 1);
      ReducedStep(a, sq, j, j, m - 1);
    }
  }

  // ----- the code

  /** The symmetry and finiteness scan. */
  method Scan(a: seq<seq<Float>>, tolerance: real) returns (v: Verdict)
    requires |a| > 0
    ensures v == Panic <==> exists i, j :: PanicsAt(a, tolerance, i, j)
    ensures v == Accept <==> NearlySymmetric(a, tolerance)
  {
    hide Asymmetric;
    var n := |a|;
    for i := 0 to n
      invariant PassesBefore(a, tolerance, i, 0)
    {
      if |a[i]| != n {
        NoPanicAfterBadRow(a, tolerance, i);
        return Reject;
      }
      for j := 0 to n
        invariant PassesBefore(a, tolerance, i, j)
      {
        if a[i][j].NonFinite? {
          NoPanicAfterReject(a, tolerance, i, j);
          return Reject;
        }
        if |a[j]| <= i {
          assert PanicsAt(a, tolerance, i, j);
          return Panic;
        }
        if Asymmetric(a[i][j], a[j][i], tolerance) {
          NoPanicAfterReject(a, tolerance, i, j);
          return Reject;
        }
      }
    }
    forall p | 0 <= p < n
      ensures |a[p]| == n
    {
      assert CellPasses(a, tolerance, p, 0);
    }
    forall p, q | 0 <= p < n && 0 <= q < n
      ensures a[p][q].Finite?
    {
      assert CellPasses(a, tolerance, p, q);
    }
    forall p, q | 0 <= p < n && 0 <= q < n
      ensures !Asymmetric(a[p][q], a[q][p], tolerance)
    {
      assert CellPasses(a, tolerance, p, q);
    }
    NoPanicWhenSquare(a, tolerance);
    return Accept;
  }

  lemma NoPanicAfterBadRow(a: seq<seq<Float>>, tolerance: real, i: int)
    requires 0 <= i < |a| && PassesBefore(a, tolerance, i, 0) && |a[i]| != |a|
    ensures !exists p, q :: PanicsAt(a, tolerance, p, q)
  {
    hide Asymmetric;
    forall p, q | 0 <= p < |a| && 0 <= q < |a|
      ensures !PanicsAt(a, tolerance, p, q)
    {
      assert !CellPasses(a, tolerance, i, 0);
      assert p < i ==> CellPasses(a, tolerance, p, q);
    }
  }

  lemma NoPanicAfterReject(a: seq<seq<Float>>, tolerance: real, i: int, j: int)
    requires 0 <= i < |a| && 0 <= j < |a| && PassesBefore(a, tolerance, i, j) && |a[i]| == |a|
    requires a[i][j].NonFinite? || (|a[j]| > i && Asymmetric(a[i][j], a[j][i], tolerance))
    ensures !exists p, q :: PanicsAt(a, tolerance, p, q)
  {
    hide Asymmetric;
    forall p, q | 0 <= p < |a| && 0 <= q < |a|
      ensures !PanicsAt(a, tolerance, p, q)
    {
      assert !CellPasses(a, tolerance, i, j);
      assert p < i || (p == i && q < j) ==> CellPasses(a, tolerance, p, q);
    }
  }

  /** Rows of equal length rule the panic out. */
  lemma NoPanicWhenSquare(a: seq<seq<Float>>, tolerance: real)
    requires IsSquare(a)
    ensures !exists p, q :: PanicsAt(a, tolerance, p, q)
  {}

  /** The panic is real: a two-feature matrix whose second row is empty. */
  lemma RaggedMatrixPanics(tolerance: real)
    requires tolerance > 0.0
    ensures PanicsAt([[Finite(1.0), Finite(0.0)], []], tolerance, 0, 1)
  {}

  /** One entry of the running subtraction. */
  method ReduceEntry(a: RMat, l: array2<real>, sq: real -> real, i: nat, j: nat) returns (sum: real)
    requires j <= i < l.Length0 == l.Length1
    requires forall k | 0 <= k < j :: l[i, k] == Lr(a, sq, i, k) && l[j, k] == Lr(a, sq, j, k)
    ensures sum == Reduced(LiftM(a), sq, i, j, j).re
  {
    hide Lr;
    hide L;
    hide Pivot;
    sum := a(i, j);
    for k := 0 to j
      invariant sum == Reduced(LiftM(a), sq, i, j, k).re
    {
      ReducedStep(a, sq, i, j, k);
      sum := sum - l[i, k] * l[j, k];
    }
  }

  lemma EntryBelow(a: RMat, sq: real -> real, i: int, j: int)
    requires IsSqrt(sq) && 0 <= j < i && Pivot(LiftM(a), sq, j, j) > 0.0
    ensures Lr(a, sq, j, j) > 0.0
    ensures Lr(a, sq, i, j) == Reduced(LiftM(a), sq, i, j, j).re / Lr(a, sq, j, j)
  {}

  /** One row of the factor; false when its pivot is not above the tolerance. */
  method FactorRow(a: RMat, l: array2<real>, tolerance: real, sq: real -> real, i: nat) returns (ok: bool)
    requires IsSqrt(sq) && tolerance >= 0.0
    requires i < l.Length0 == l.Length1
    requires PivotsAbove(LiftM(a), sq, tolerance, i)
    requires forall r, c | 0 <= c <= r < i :: l[r, c] == Lr(a, sq, r, c)
    modifies l
    ensures ok <==> Pivot(LiftM(a), sq, i, i) > tolerance
    ensures forall r, c | 0 <= c <= r < i :: l[r, c] == Lr(a, sq, r, c)
    ensures ok ==> forall c | 0 <= c <= i :: l[i, c] == Lr(a, sq, i, c)
  {
    hide Lr;
    hide L;
    hide Pivot;
    hide Reduced;
    for j := 0 to i
      invariant forall r, c | 0 <= c <= r < i :: l[r, c] == Lr(a, sq, r, c)
      invariant forall c | 0 <= c < j :: l[i, c] == Lr(a, sq, i, c)
    {
      var sum := ReduceEntry(a, l, sq, i, j);
      EntryBelow(a, sq, i, j);
      l[i, j] := sum / l[j, j];
    }
    var sum := ReduceEntry(a, l, sq, i, i);
    PivotIsReduced(a, sq, i, i);
    if sum <= tolerance {
      return false;
    }
    DiagonalEntry(a, sq, i);
    l[i, i] := sq(sum);
    return true;
  }

  lemma DiagonalEntry(a: RMat, sq: real -> real, i: int)
    requires IsSqrt(sq) && i >= 0 && Pivot(LiftM(a), sq, i, i) > 0.0
    ensures Lr(a, sq, i, i) == sq(Pivot(LiftM(a), sq, i, i))
  {}

  /** Accepts exactly the nearly symmetric matrices all of whose pivots exceed the tolerance. */
  method PositiveDefiniteSymmetric(a: seq<seq<Float>>, tolerance: real, sq: real -> real) returns (v: Verdict)
    requires IsSqrt(sq) && tolerance > 0.0
    ensures v == Panic <==> exists i, j :: PanicsAt(a, tolerance, i, j)
    ensures v == Accept <==> Accepted(a, tolerance, sq)
  {
    hide Pivot;
    hide Lr;
    hide NearlySymmetric;
    hide PanicsAt;
    var n := |a|;
    if n == 0 {
      NoPanicWhenSquare(a, tolerance);
      return Reject;
    }
    v := Scan(a, tolerance);
    if v != Accept {
      return;
    }
    ghost var A := LiftM(Entry(a));
    var l := new real[n, n]((i, j) => 0.0);
    for i := 0 to n
      invariant PivotsAbove(A, sq, tolerance, i)
      invariant forall r, c | 0 <= c <= r < i :: l[r, c] == Lr(Entry(a), sq, r, c)
    {
      var ok := FactorRow(Entry(a), l, tolerance, sq, i);
      if !ok {
        return Reject;
      }
    }
    return Accept;
  }
}
