/** Complex numbers over exact reals, complex sums, and Hermitian forms. */
module Complexes {
  import opened Sums

  datatype Complex = C(re: real, im: real)

  const ZERO := C(0.0, 0.0)
  const ONE := C(1.0, 0.0)

  function Plus(a: Complex, b: Complex): Complex { C(a.re + b.re, a.im + b.im) }

  function Minus(a: Complex, b: Complex): Complex { C(a.re - b.re, a.im - b.im) }

  function Times(a: Complex, b: Complex): Complex
  {
    C(a.re * b.re - a.im * b.im, a.re * b.im + a.im * b.re)
  }

  function Conj(a: Complex): Complex { C(a.re, -a.im) }

  function Scale(a: Complex, s: real): Complex { C(a.re * s, a.im * s) }

  function Over(a: Complex, s: real): Complex
    requires s != 0.0
  {
    C(a.re / s, a.im / s)
  }

  function Square(a: real): real { a * a }

  function SquareTerms(f: int -> real): int -> real { k => Square(f(k)) }

  function Abs2(a: Complex): real { Square(a.re) + Square(a.im) }

  type Vec = int -> Complex
  type Mat = (int, int) -> Complex

  function Re(f: Vec): int -> real { k => f(k).re }

  function Im(f: Vec): int -> real { k => f(k).im }

  function CSum(f: Vec, n: int): Complex
  {
    C(Sum(Re(f), n), Sum(Im(f), n))
  }

  function Abs2Terms(x: Vec): int -> real { k => Abs2(x(k)) }

  /** The squared Euclidean norm of the first n components. */
  function Norm2(x: Vec, n: int): real
  {
    Sum(Abs2Terms(x), n)
  }

  function DotTerms(p: Vec, x: Vec): Vec { i => Times(Conj(p(i)), x(i)) }

  /** conj(p)^T x over the first n components. */
  function Dot(p: Vec, x: Vec, n: int): Complex
  {
    CSum(DotTerms(p, x), n)
  }

  function RowTerms(A: Mat, i: int, x: Vec): Vec { j => Times(A(i, j), x(j)) }

  /** Row i of A applied to x. */
  function Row(A: Mat, i: int, x: Vec, n: int): Complex
  {
    CSum(RowTerms(A, i, x), n)
  }

  function Apply(A: Mat, x: Vec, n: int): Vec { i => Row(A, i, x, n) }

  /** The form x^H A x over the first n indices. */
  function Form(A: Mat, x: Vec, n: int): Complex
  {
    Dot(x, Apply(A, x, n), n)
  }

  // ----- ring identities

  lemma TimesPlus(a: Complex, b: Complex, c: Complex)
    ensures Times(a, Plus(b, c)) == Plus(Times(a, b), Times(a, c))
  {}

  lemma TimesComm(a: Complex, b: Complex)
    ensures Times(a, b) == Times(b, a)
  {}

  lemma TimesAssoc(a: Complex, b: Complex, c: Complex)
    ensures Times(Times(a, b), c) == Times(a, Times(b, c))
  {}

  lemma TimesSwap(a: Complex, c: Complex, b: Complex)
    ensures Times(a, Times(c, b)) == Times(c, Times(a, b))
  {
    hide Times;
    TimesAssoc(a, c, b);
    TimesAssoc(c, a, b);
    TimesComm(a, c);
  }

  lemma ConjTimes(a: Complex, b: Complex)
    ensures Conj(Times(a, b)) == Times(Conj(a), Conj(b))
  {}

  lemma ConjZero()
    ensures Conj(ZERO) == ZERO
  {}

  lemma ConjReal(a: Complex)
    requires a.im == 0.0
    ensures Conj(a) == a == C(a.re, 0.0)
  {}

  lemma TimesConjSelf(a: Complex)
    ensures Times(a, Conj(a)) == Times(Conj(a), a) == C(Abs2(a), 0.0)
  {}

  lemma ScaleIsOver(a: Complex, m: real)
    requires m != 0.0
    ensures Scale(a, 1.0 / m) == Over(a, m)
  {}

  // ----- complex sums

  lemma CSumStep(f: Vec, n: int)
    requires n >= 0
    ensures CSum(f, n + 1) == Plus(CSum(f, n), f(n))
  {}

  lemma CSumEmpty(f: Vec)
    ensures CSum(f, 0) == ZERO
  {}

  lemma CSumExt(f: Vec, g: Vec, n: int)
    requires forall k | 0 <= k < n :: f(k) == g(k)
    ensures CSum(f, n) == CSum(g, n)
  {
    SumExt(Re(f), Re(g), n);
    SumExt(Im(f), Im(g), n);
  }

  lemma CSumAdd(f: Vec, g: Vec, h: Vec, n: int)
    requires forall k | 0 <= k < n :: h(k) == Plus(f(k), g(k))
    ensures CSum(h, n) == Plus(CSum(f, n), CSum(g, n))
  {
    SumAdd(Re(f), Re(g), Re(h), n);
    SumAdd(Im(f), Im(g), Im(h), n);
  }

  lemma TimesZero(a: Complex)
    ensures Times(a, ZERO) == ZERO == Times(ZERO, a)
  {}

  lemma {:induction false} CSumScale(c: Complex, f: Vec, h: Vec, n: int)
    requires forall k | 0 <= k < n :: h(k) == Times(c, f(k))
    ensures CSum(h, n) == Times(c, CSum(f, n))
  {
    hide Times;
    hide Plus;
    if n <= 0 {
      TimesZero(c);
    } else {
      CSumScale(c, f, h, n - 1);
      CSumStep(f, n - 1);
      CSumStep(h, n - 1);
      TimesPlus(c, CSum(f, n - 1), f(n - 1));
    }
  }

  lemma CSumConj(f: Vec, h: Vec, n: int)
    requires forall k | 0 <= k < n :: h(k) == Conj(f(k))
    ensures CSum(h, n) == Conj(CSum(f, n))
  {
    SumExt(Re(f), Re(h), n);
    SumScale(-1.0, Im(f), Im(h), n);
  }

  lemma CSumZero(f: Vec, n: int)
    requires forall k | 0 <= k < n :: f(k) == ZERO
    ensures CSum(f, n) == ZERO
  {
    SumZero(Re(f), n);
    SumZero(Im(f), n);
  }

  lemma CSumTail(f: Vec, n: int, m: int)
    requires 0 <= n <= m
    requires forall k | n <= k < m :: f(k) == ZERO
    ensures CSum(f, m) == CSum(f, n)
  {
    SumTail(Re(f), n, m);
    SumTail(Im(f), n, m);
  }

  lemma CSumSingle(f: Vec, p: int, n: int)
    requires 0 <= p < n
    requires forall k | 0 <= k < n && k != p :: f(k) == ZERO
    ensures CSum(f, n) == f(p)
  {
    SumSingle(Re(f), p, n);
    SumSingle(Im(f), p, n);
  }

  function ColOf(F: Mat, k: int): Vec { i => F(i, k) }

  // ----- norms and inner products

  lemma Norm2Ext(x: Vec, y: Vec, n: int)
    requires forall k | 0 <= k < n :: x(k) == y(k)
    ensures Norm2(x, n) == Norm2(y, n)
  {
    SumExt(Abs2Terms(x), Abs2Terms(y), n);
  }

  lemma DotSelf(x: Vec, n: int)
    ensures Dot(x, x, n) == C(Norm2(x, n), 0.0)
  {
    forall k: int
      ensures DotTerms(x, x)(k) == C(Abs2Terms(x)(k), 0.0)
    {
      TimesConjSelf(x(k));
    }
    SumExt(Re(DotTerms(x, x)), Abs2Terms(x), n);
    SumZero(Im(DotTerms(x, x)), n);
  }

  lemma ProductPositive(a: real, b: real, s: real)
    requires s == a * b
    requires (a > 0.0 && b > 0.0) || (a < 0.0 && b < 0.0)
    ensures s > 0.0
  {}

  lemma ProductNonNegative(a: real, b: real, s: real)
    requires s == a * b && a >= 0.0 && b >= 0.0
    ensures s >= 0.0
  {}

  lemma SquarePositive(a: real)
    ensures Square(a) >= 0.0
    ensures a != 0.0 ==> Square(a) > 0.0
  {
    if a != 0.0 {
      ProductPositive(a, a, Square(a));
    }
  }

  lemma Abs2NonNegative(a: Complex)
    ensures Abs2(a) >= 0.0
    ensures a != ZERO ==> Abs2(a) > 0.0
  {
    hide Square;
    SquarePositive(a.re);
    SquarePositive(a.im);
  }

  /** Every squared component is at most the squared norm. */
  lemma Norm2Bound(x: Vec, n: int)
    ensures Norm2(x, n) >= 0.0
    ensures forall p | 0 <= p < n :: Abs2(x(p)) <= Norm2(x, n)
  {
    forall k: int
      ensures Abs2Terms(x)(k) >= 0.0
    {
      Abs2NonNegative(x(k));
    }
    SumNonNegative(Abs2Terms(x), n);
    forall p | 0 <= p < n
      ensures Abs2(x(p)) <= Norm2(x, n)
    {
      SumTermBound(Abs2Terms(x), p, n);
    }
  }

  /** conj(x)^T p is the conjugate of conj(p)^T x. */
  lemma DotFlip(p: Vec, x: Vec, n: int)
    ensures Dot(x, p, n) == Conj(Dot(p, x, n))
  {
    forall i: int
      ensures DotTerms(x, p)(i) == Conj(DotTerms(p, x)(i))
    {
      ConjTimes(Conj(p(i)), x(i));
      TimesComm(Conj(x(i)), p(i));
    }
    CSumConj(DotTerms(p, x), DotTerms(x, p), n);
  }

  lemma DotPlus(x: Vec, f: Vec, g: Vec, h: Vec, n: int)
    requires forall k | 0 <= k < n :: h(k) == Plus(f(k), g(k))
    ensures Dot(x, h, n) == Plus(Dot(x, f, n), Dot(x, g, n))
  {
    forall k | 0 <= k < n
      ensures DotTerms(x, h)(k) == Plus(DotTerms(x, f)(k), DotTerms(x, g)(k))
    {
      TimesPlus(Conj(x(k)), f(k), g(k));
    }
    CSumAdd(DotTerms(x, f), DotTerms(x, g), DotTerms(x, h), n);
  }

  lemma DotScale(x: Vec, f: Vec, h: Vec, c: Complex, n: int)
    requires forall k | 0 <= k < n :: h(k) == Times(c, f(k))
    ensures Dot(x, h, n) == Times(c, Dot(x, f, n))
  {
    forall k | 0 <= k < n
      ensures DotTerms(x, h)(k) == Times(c, DotTerms(x, f)(k))
    {
      TimesSwap(Conj(x(k)), c, f(k));
    }
    CSumScale(c, DotTerms(x, f), DotTerms(x, h), n);
  }

  // ----- rank-one updates

  lemma RankOneTerm(f: Complex, p: Complex, q: Complex, e: Complex, b: Complex)
    requires f == Plus(Times(p, q), e)
    ensures Times(f, b) == Plus(Times(p, Times(q, b)), Times(e, b))
  {
    hide Times;
    TimesComm(f, b);
    TimesPlus(b, Times(p, q), e);
    TimesComm(b, Times(p, q));
    TimesComm(b, e);
    TimesAssoc(p, q, b);
  }

  lemma RowRankOne(p: Vec, E: Mat, F: Mat, x: Vec, i: int, n: int)
    requires forall j | 0 <= j < n :: F(i, j) == Plus(Times(p(i), Conj(p(j))), E(i, j))
    ensures Row(F, i, x, n) == Plus(Times(p(i), Dot(p, x, n)), Row(E, i, x, n))
  {
    hide Times;
    hide Plus;
    var left := (j: int) => Times(p(i), DotTerms(p, x)(j));
    forall j | 0 <= j < n
      ensures RowTerms(F, i, x)(j) == Plus(left(j), RowTerms(E, i, x)(j))
    {
      RankOneTerm(F(i, j), p(i), Conj(p(j)), E(i, j), x(j));
      assert RowTerms(F, i, x)(j) == Times(F(i, j), x(j));
      assert RowTerms(E, i, x)(j) == Times(E(i, j), x(j));
      assert DotTerms(p, x)(j) == Times(Conj(p(j)), x(j));
      assert left(j) == Times(p(i), DotTerms(p, x)(j));
    }
    CSumAdd(left, RowTerms(E, i, x), RowTerms(F, i, x), n);
    CSumScale(p(i), DotTerms(p, x), left, n);
  }

  /** A rank-one update p p^H adds |p^H x|^2 to the form. */
  lemma RankOne(p: Vec, E: Mat, F: Mat, x: Vec, n: int)
    requires forall i, j | 0 <= i < n && 0 <= j < n :: F(i, j) == Plus(Times(p(i), Conj(p(j))), E(i, j))
    ensures Form(F, x, n) == Plus(C(Abs2(Dot(p, x, n)), 0.0), Form(E, x, n))
  {
    var d := Dot(p, x, n);
    var outer := (i: int) => Times(d, p(i));
    forall i | 0 <= i < n
      ensures Apply(F, x, n)(i) == Plus(outer(i), Apply(E, x, n)(i))
    {
      RowRankOne(p, E, F, x, i, n);
      TimesComm(d, p(i));
    }
    DotPlus(x, outer, Apply(E, x, n), Apply(F, x, n), n);
    DotScale(x, p, outer, d, n);
    DotFlip(p, x, n);
    TimesConjSelf(d);
  }
}
