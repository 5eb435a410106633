/**
 kernels/rzf/rzf_reference.py: the complex oracle, and the theorems that tie the
 explicit-Cholesky precoder to it.
 */
module RzfReference {
  import opened Floats
  import opened Sums
  import opened Complexes
  import opened Cholesky
  import opened RegularizedGram
  import opened RzfAlgorithm

  /** H H^H + alpha I as the oracle builds it. */
  function OracleMatrix(H: Mat, N: int, alpha: real): Mat
  {
    (i, j) => Plus(GramEntry(H, i, j, N), ScaledIdentity(alpha)(i, j))
  }

  /** What a linear solver promises: reg X = H, column by column. */
  ghost predicate Solves(H: Mat, U: int, N: int, alpha: real, X: Mat)
  {
    forall i, n | 0 <= i < U && 0 <= n < N :: Row(OracleMatrix(H, N, alpha), i, Column(X, n), U) == H(i, n)
  }

  /** The oracle's output for the solved system X. */
  function Oracle(X: Mat, U: int, N: int, sq: real -> real, tiny: real): Mat
    requires tiny > 0.0
  {
    (n, u) => Over(Conj(X(u, n)), Max(sq(Frobenius2(X, U, N)), tiny))
  }

  /** A finite channel never triggers a fail-closed status: pivots are at least alpha. */
  lemma StatusOkIffFinite(ch: Channel, b: int, alpha: real, sq: real -> real)
    requires IsSqrt(sq) && alpha > 0.0 && ch.antennas >= 0
    ensures BatchStatus(ch, b, alpha, sq) == STATUS_OK <==> AllFinite(ch, b)
    ensures BatchStatus(ch, b, alpha, sq) != STATUS_NOT_POSITIVE_DEFINITE
  {
    RegGramPositivePivots(Slice(ch, b), ch.antennas, alpha, sq, ch.users);
  }

  lemma RowExt(A: Mat, B: Mat, i: int, x: Vec, y: Vec, n: int)
    requires forall j | 0 <= j < n :: A(i, j) == B(i, j) && x(j) == y(j)
    ensures Row(A, i, x, n) == Row(B, i, y, n)
  {
    hide Times;
    hide CSum;
    forall j | 0 <= j < n
      ensures RowTerms(A, i, x)(j) == RowTerms(B, i, y)(j)
    {
      assert RowTerms(A, i, x)(j) == Times(A(i, j), x(j));
      assert RowTerms(B, i, y)(j) == Times(B(i, j), y(j));
    }
    CSumExt(RowTerms(A, i, x), RowTerms(B, i, y), n);
  }

  lemma OracleRow(H: Mat, U: int, N: int, alpha: real, i: int, x: Vec)
    ensures Row(OracleMatrix(H, N, alpha), i, x, U) == Row(RegGram(H, N, alpha), i, x, U)
  {
    hide Row;
    hide GramEntry;
    forall j | 0 <= j < U
      ensures OracleMatrix(H, N, alpha)(i, j) == RegGram(H, N, alpha)(i, j)
    {
      RegGramSplit(H, N, alpha, i, j);
    }
    RowExt(OracleMatrix(H, N, alpha), RegGram(H, N, alpha), i, x, x, U);
  }

  lemma RegGramSplit(H: Mat, N: int, alpha: real, i: int, j: int)
    ensures RegGram(H, N, alpha)(i, j) == Plus(GramEntry(H, i, j, N), ScaledIdentity(alpha)(i, j))
  {
    hide CSum;
    RegGramHermitian(H, N, alpha, i, j);
  }

  /** The substitutions produce a solution of the oracle's system ... */
  lemma CholeskySolves(H: Mat, U: int, N: int, alpha: real, sq: real -> real)
    requires IsSqrt(sq) && N >= 0 && alpha > 0.0
    ensures Solves(H, U, N, alpha, SolvedX(H, U, N, alpha, sq))
  {
    hide Row;
    hide Solution;
    var X := SolvedX(H, U, N, alpha, sq);
    forall i, n | 0 <= i < U && 0 <= n < N
      ensures Row(OracleMatrix(H, N, alpha), i, Column(X, n), U) == H(i, n)
    {
      var x := Solution(H, U, N, alpha, sq, Column(H, n));
      SolutionSolves(H, U, N, alpha, sq, Column(H, n), i);
      RowExt(RegGram(H, N, alpha), RegGram(H, N, alpha), i, x, Column(X, n), U);
      OracleRow(H, U, N, alpha, i, Column(X, n));
    }
  }

  /** ... and it is the only one. */
  lemma SolvedUnique(H: Mat, U: int, N: int, alpha: real, X: Mat, Y: Mat)
    requires N >= 0 && alpha > 0.0
    requires Solves(H, U, N, alpha, X) && Solves(H, U, N, alpha, Y)
    ensures forall u, n | 0 <= u < U && 0 <= n < N :: X(u, n) == Y(u, n)
  {
    hide Row;
    forall u, n | 0 <= u < U && 0 <= n < N
      ensures X(u, n) == Y(u, n)
    {
      forall i | 0 <= i < U
        ensures Row(RegGram(H, N, alpha), i, Column(X, n), U) == Row(RegGram(H, N, alpha), i, Column(Y, n), U)
      {
        OracleRow(H, U, N, alpha, i, Column(X, n));
        OracleRow(H, U, N, alpha, i, Column(Y, n));
      }
      SolutionUnique(H, U, N, alpha, Column(X, n), Column(Y, n));
      assert Column(X, n)(u) == Column(Y, n)(u);
    }
  }

  /** Whatever solver the oracle uses, it returns the precoder of the Cholesky algorithm. */
  lemma OracleAgrees(H: Mat, U: int, N: int, alpha: real, sq: real -> real, tiny: real, X: Mat)
    requires IsSqrt(sq) && N >= 0 && alpha > 0.0 && tiny > 0.0
    requires Solves(H, U, N, alpha, X)
    ensures forall n, u | 0 <= n < N && 0 <= u < U ::
              Precoder(H, U, N, alpha, sq, tiny)(n, u) == Oracle(X, U, N, sq, tiny)(n, u)
  {
    hide Frobenius2;
    hide Scale;
    hide Over;
    hide Conj;
    hide Solves;
    hide Solution;
    var Y := SolvedX(H, U, N, alpha, sq);
    CholeskySolves(H, U, N, alpha, sq);
    SolvedUnique(H, U, N, alpha, X, Y);
    FrobeniusExt(X, Y, U, N);
    var m := Max(sq(Frobenius2(Y, U, N)), tiny);
    forall n, u | 0 <= n < N && 0 <= u < U
      ensures Precoder(H, U, N, alpha, sq, tiny)(n, u) == Oracle(X, U, N, sq, tiny)(n, u)
    {
      ScaleIsOver(Conj(Y(u, n)), m);
      assert X(u, n) == Y(u, n);
    }
  }

  // ----- the matched-filter identity W A = H^H

  function ProductTerms(W: Mat, A: Mat, n: int, j: int): Vec { u => Times(W(n, u), A(u, j)) }

  /** (W A)[n, j] = conj(H[j, n]). */
  lemma UnnormalisedInverts(H: Mat, U: int, N: int, alpha: real, sq: real -> real, n: int, j: int)
    requires IsSqrt(sq) && N >= 0 && alpha > 0.0 && 0 <= n < N && 0 <= j < U
    ensures CSum(ProductTerms(Unnormalised(SolvedX(H, U, N, alpha, sq)), RegGram(H, N, alpha), n, j), U)
         == Conj(H(j, n))
  {
    hide CSum;
    hide Times;
    hide Solution;
    hide RegGram;
    var A := RegGram(H, N, alpha);
    var x := Solution(H, U, N, alpha, sq, Column(H, n));
    var W := Unnormalised(SolvedX(H, U, N, alpha, sq));
    SolutionSolves(H, U, N, alpha, sq, Column(H, n), j);
    forall u | 0 <= u < U
      ensures ProductTerms(W, A, n, j)(u) == Conj(RowTerms(A, j, x)(u))
    {
      ConjTimes(A(j, u), x(u));
      RegGramFlip(H, N, alpha, u, j);
      TimesComm(Conj(x(u)), A(u, j));
      assert W(n, u) == Conj(x(u));
      assert ProductTerms(W, A, n, j)(u) == Times(W(n, u), A(u, j));
      assert RowTerms(A, j, x)(u) == Times(A(j, u), x(u));
    }
    CSumConj(RowTerms(A, j, x), ProductTerms(W, A, n, j), U);
  }

  lemma RegGramFlip(H: Mat, N: int, alpha: real, i: int, j: int)
    ensures RegGram(H, N, alpha)(i, j) == Conj(RegGram(H, N, alpha)(j, i))
  {
    hide CSum;
    GramFlip(H, i, j, N);
  }

  // ----- the norm of the normalised precoder

  function Transposed(W: Mat): Mat { (u, n) => W(n, u) }

  lemma ScaledAbs2(a: Complex, s: real)
    ensures Abs2(Scale(Conj(a), s)) == (s * s) * Abs2(a)
  {}

  /** |W|_F^2 is at most 1, with equality exactly when |X|_F reaches tiny. */
  lemma PrecoderNorm(H: Mat, U: int, N: int, alpha: real, sq: real -> real, tiny: real)
    requires IsSqrt(sq) && tiny > 0.0
    ensures var w2 := Frobenius2(Transposed(Precoder(H, U, N, alpha, sq, tiny)), U, N);
            var norm := sq(Frobenius2(SolvedX(H, U, N, alpha, sq), U, N));
            w2 <= 1.0 && (w2 == 1.0 <==> norm >= tiny)
  {
    hide Abs2;
    hide Solution;
    hide Max;
    var X := SolvedX(H, U, N, alpha, sq);
    var W := Transposed(Precoder(H, U, N, alpha, sq, tiny));
    var s := Normaliser(X, U, N, sq, tiny);
    var f := Frobenius2(X, U, N);
    var norm := sq(f);
    forall n | 0 <= n < N
      ensures ColumnNorms(W, U)(n) == (s * s) * ColumnNorms(X, U)(n)
      ensures ColumnNorms(X, U)(n) >= 0.0
    {
      ScaledColumn(X, W, s, n, U);
      Norm2Bound(Column(X, n), U);
    }
    SumScale(s * s, ColumnNorms(X, U), ColumnNorms(W, U), N);
    SumNonNegative(ColumnNorms(X, U), N);
    FinishNorm(f, norm, tiny, s, sq);
  }

  lemma ScaledColumn(X: Mat, W: Mat, s: real, n: int, U: int)
    requires forall u: int :: W(u, n) == Scale(Conj(X(u, n)), s)
    ensures Norm2(Column(W, n), U) == (s * s) * Norm2(Column(X, n), U)
  {
    hide Abs2;
    forall u | 0 <= u < U
      ensures Abs2Terms(Column(W, n))(u) == (s * s) * Abs2Terms(Column(X, n))(u)
    {
      ScaledAbs2(X(u, n), s);
    }
    SumScale(s * s, Abs2Terms(Column(X, n)), Abs2Terms(Column(W, n)), U);
  }

  lemma FinishNorm(f: real, norm: real, tiny: real, s: real, sq: real -> real)
    requires IsSqrt(sq) && f >= 0.0 && norm == sq(f) && tiny > 0.0 && s == 1.0 / Max(norm, tiny)
    ensures (s * s) * f <= 1.0
    ensures (s * s) * f == 1.0 <==> norm >= tiny
  {}

  // ----- the precoder without its algorithm

  lemma ScaledTerm(x: Complex, a: Complex, s: real)
    ensures Times(Scale(Conj(x), s), a) == Times(C(s, 0.0), Times(Conj(x), a))
    ensures Times(C(s, 0.0), a) == Scale(a, s)
  {}

  lemma ScaledProduct(H: Mat, U: int, N: int, alpha: real, sq: real -> real, s: real, W: Mat, A: Mat, n: int, j: int)
    requires IsSqrt(sq) && N >= 0 && alpha > 0.0 && 0 <= n < N && 0 <= j < U
    requires forall u | 0 <= u < U :: W(n, u) == Scale(Conj(SolvedX(H, U, N, alpha, sq)(u, n)), s)
    requires forall u | 0 <= u < U :: A(u, j) == RegGram(H, N, alpha)(u, j)
    ensures CSum(u => Times(W(n, u), A(u, j)), U) == Scale(Conj(H(j, n)), s)
  {
    hide CSum;
    hide Times;
    hide Conj;
    hide Scale;
    hide Solution;
    hide RegGram;
    var X := SolvedX(H, U, N, alpha, sq);
    var f := ProductTerms(Unnormalised(X), RegGram(H, N, alpha), n, j);
    UnnormalisedInverts(H, U, N, alpha, sq, n, j);
    forall u | 0 <= u < U
      ensures Times(W(n, u), A(u, j)) == Times(C(s, 0.0), f(u))
    {
      ScaledTerm(X(u, n), A(u, j), s);
      assert f(u) == Times(Conj(X(u, n)), A(u, j));
    }
    CSumScale(C(s, 0.0), f, u => Times(W(n, u), A(u, j)), U);
    ScaledTerm(ZERO, Conj(H(j, n)), s);
  }

  lemma NormaliserRange(norm: real, tiny: real)
    requires tiny > 0.0
    ensures 0.0 < 1.0 / Max(norm, tiny) <= 1.0 / tiny
    ensures norm < tiny ==> 1.0 / Max(norm, tiny) == 1.0 / tiny
  {}

  /**
   What the precoder of a finite element is, with no Cholesky in it: W (G G^H + alpha I) = s G^H, where the
   common factor s makes the Frobenius norm 1, or is 1 / tiny when the norm stays below.
   */
  lemma PrecoderEquation(
    ch: Channel, b: int, alpha: real, sq: real -> real, tiny: real, G: Mat, A: Mat, W: Mat) returns (s: real)
    requires IsSqrt(sq) && tiny > 0.0 && alpha > 0.0 && ch.antennas >= 0
    requires forall u, n | 0 <= u < ch.users && 0 <= n < ch.antennas :: ch.at(b, u, n) == Finite(G(u, n))
    requires forall i, j | 0 <= i < ch.users && 0 <= j < ch.users ::
               A(i, j) == Plus(CSum(m => Times(G(i, m), Conj(G(j, m))), ch.antennas),
                               C(if i == j then alpha else 0.0, 0.0))
    requires forall n, u | 0 <= n < ch.antennas && 0 <= u < ch.users ::
               W(n, u) == BatchW(ch, b, alpha, sq, tiny)(n, u)
    ensures 0.0 < s <= 1.0 / tiny
    ensures forall n, j | 0 <= n < ch.antennas && 0 <= j < ch.users ::
              CSum(u => Times(W(n, u), A(u, j)), ch.users) == Scale(Conj(G(j, n)), s)
    ensures var norm2 := Sum(n => Sum(u => Abs2(W(n, u)), ch.users), ch.antennas);
            norm2 <= 1.0 && (norm2 == 1.0 || s == 1.0 / tiny)
  {
    hide CSum;
    hide Times;
    hide Conj;
    hide Scale;
    hide Abs2;
    hide Max;
    hide Solution;
    hide RegGram;
    var U, N, H := ch.users, ch.antennas, Slice(ch, b);
    var X := SolvedX(H, U, N, alpha, sq);
    s := Normaliser(X, U, N, sq, tiny);
    NormaliserRange(sq(Frobenius2(X, U, N)), tiny);
    StatusOkIffFinite(ch, b, alpha, sq);
    forall i, j | 0 <= i < U && 0 <= j < U
      ensures A(i, j) == RegGram(H, N, alpha)(i, j)
    {
      RegGramSplit(H, N, alpha, i, j);
      CSumExt(GramTerms(H, i, j), m => Times(G(i, m), Conj(G(j, m))), N);
    }
    forall n, j | 0 <= n < N && 0 <= j < U
      ensures CSum(u => Times(W(n, u), A(u, j)), U) == Scale(Conj(G(j, n)), s)
    {
      ScaledProduct(H, U, N, alpha, sq, s, W, A, n, j);
    }
    PrecoderNorm(H, U, N, alpha, sq, tiny);
    var P := Precoder(H, U, N, alpha, sq, tiny);
    forall n | 0 <= n < N
      ensures Sum(u => Abs2(W(n, u)), U) == ColumnNorms(Transposed(P), U)(n)
    {
      SumExt(u => Abs2(W(n, u)), Abs2Terms(Column(Transposed(P), n)), U);
    }
    SumExt(n => Sum(u => Abs2(W(n, u)), U), ColumnNorms(Transposed(P), U), N);
  }
}
