/** Strings as the version code uses them: byte order, decimal numerals, splitting. */
module Texts {

  datatype Option<T> = None | Some(value: T)

  /** Go's < on strings. */
  predicate Less(a: string, b: string)
  {
    if b == "" then false
    else if a == "" then true
    else if a[0] != b[0] then a[0] < b[0]
    else Less(a[1..], b[1..])
  }

  /** At position i the two texts differ for the first time, and a is lower. */
  predicate LowerAt(a: string, b: string, i: int)
  {
    0 <= i < |a| && i < |b| && a[..i] == b[..i] && a[i] < b[i]
  }

  /** A proper prefix comes first; otherwise the first difference decides. */
  predicate Before(a: string, b: string) { a < b || exists i :: 0 <= i < |a| && LowerAt(a, b, i) }

  lemma LowerTail(a: string, b: string, i: int)
    requires a != "" && b != "" && a[0] == b[0]
    ensures LowerAt(a, b, i) <==> LowerAt(a[1..], b[1..], i - 1)
  {
    if 0 < i < |a| && i < |b| {
      assert a[..i] == [a[0]] + a[1..][..i - 1] && b[..i] == [b[0]] + b[1..][..i - 1];
      assert a[..i][1..] == a[1..][..i - 1] && b[..i][1..] == b[1..][..i - 1];
    }
  }

  lemma {:induction false} LessIsBefore(a: string, b: string)
    ensures Less(a, b) <==> Before(a, b)
  {
    if a != "" && b != "" {
      if a[0] == b[0] {
        LessIsBefore(a[1..], b[1..]);
        assert a == [a[0]] + a[1..] && b == [b[0]] + b[1..];
        forall i: int ensures LowerAt(a, b, i) <==> LowerAt(a[1..], b[1..], i - 1) {
          LowerTail(a, b, i);
        }
        hide LowerAt;
        if i :| 0 <= i < |a[1..]| && LowerAt(a[1..], b[1..], i) {
          assert LowerAt(a, b, i + 1);
        }
      } else {
        assert LowerAt(a, b, 0) <==> a[0] < b[0];
      }
    }
  }

  /** Less is that order. */
  lemma LessIff(a: string, b: string)
    ensures Less(a, b) <==> a < b || exists i :: 0 <= i < |a| && i < |b| && a[..i] == b[..i] && a[i] < b[i]
  {
    LessIsBefore(a, b);
    if i :| 0 <= i < |a| && i < |b| && a[..i] == b[..i] && a[i] < b[i] {
      assert LowerAt(a, b, i);
    }
  }

  lemma {:induction false} LessTotal(a: string, b: string)
    ensures a == b ==> !Less(a, b) && !Less(b, a)
    ensures a != b ==> Less(a, b) != Less(b, a)
  {
    if a != "" && b != "" && a[0] == b[0] {
      LessTotal(a[1..], b[1..]);
      assert a == [a[0]] + a[1..] && b == [b[0]] + b[1..];
    }
  }

  lemma {:induction false} LessTransitive(a: string, b: string, c: string)
    requires Less(a, b) && Less(b, c)
    ensures Less(a, c)
  {
    if a != "" && a[0] == b[0] == c[0] {
      LessTransitive(a[1..], b[1..], c[1..]);
    }
  }

  // ----- decimal numerals

  predicate IsDigit(c: char) { '0' <= c <= '9' }

  predicate AllDigits(s: string) { forall i | 0 <= i < |s| :: IsDigit(s[i]) }

  function DigitsValue(s: string): nat
    requires AllDigits(s)
  {
    if s == "" then 0 else 10 * DigitsValue(s[..|s| - 1]) + (s[|s| - 1] - '0') as nat
  }

  /** A decimal numeral without leading zeros. */
  predicate IsNumeral(s: string) { s != "" && AllDigits(s) && (s[0] != '0' || |s| == 1) }

  function Decimal(n: nat): string
  {
    if n < 10 then [('0' as int + n) as char] else Decimal(n / 10) + [('0' as int + n % 10) as char]
  }

  lemma {:induction false} NumeralPositive(s: string)
    requires IsNumeral(s) && s[0] != '0'
    ensures DigitsValue(s) > 0
    ensures |s| > 1 ==> DigitsValue(s) >= 10
  {
    if |s| > 1 {
      NumeralPositive(s[..|s| - 1]);
    }
  }

  /** Numerals are determined by their values. */
  lemma {:induction false} NumeralInjective(a: string, b: string)
    requires IsNumeral(a) && IsNumeral(b) && DigitsValue(a) == DigitsValue(b)
    ensures a == b
  {
    var x, y := a[..|a| - 1], b[..|b| - 1];
    var d, e := (a[|a| - 1] - '0') as nat, (b[|b| - 1] - '0') as nat;
    assert a == x + [a[|a| - 1]] && b == y + [b[|b| - 1]];
    assert d < 10 && e < 10;
    assert DigitsValue(x) == DigitsValue(y) && d == e;
    if |a| > 1 && |b| > 1 {
      NumeralInjective(x, y);
    } else if |a| > 1 {
      NumeralPositive(a);
    } else if |b| > 1 {
      NumeralPositive(b);
    }
  }

  lemma {:induction false} DecimalIsNumeral(n: nat)
    ensures IsNumeral(Decimal(n)) && DigitsValue(Decimal(n)) == n
    ensures n > 0 ==> Decimal(n)[0] != '0'
  {
    if n >= 10 {
      DecimalIsNumeral(n / 10);
      var s := Decimal(n);
      assert s[..|s| - 1] == Decimal(n / 10);
    } else {
      var s := Decimal(n);
      assert s[..0] == "";
    }
  }

  lemma {:induction false} LessSnoc(p: string, q: string, c: char, d: char)
    requires |p| == |q|
    ensures Less(p + [c], q + [d]) <==> Less(p, q) || (p == q && c < d)
  {
    if p == "" {
      assert p + [c] == [c] && q + [d] == [d];
    } else {
      assert (p + [c])[1..] == p[1..] + [c] && (q + [d])[1..] == q[1..] + [d];
      assert p == [p[0]] + p[1..] && q == [q[0]] + q[1..];
      LessSnoc(p[1..], q[1..], c, d);
    }
  }

  /** A longer decimal is a larger number, and decimals of one length are in byte order as numbers. */
  lemma {:induction false} DecimalOrder(a: nat, b: nat)
    ensures |Decimal(a)| < |Decimal(b)| ==> a < b
    ensures |Decimal(a)| == |Decimal(b)| ==> (Less(Decimal(a), Decimal(b)) <==> a < b)
    ensures Decimal(a) == Decimal(b) ==> a == b
  {
    DecimalIsNumeral(a);
    DecimalIsNumeral(b);
    if a >= 10 && b >= 10 {
      var p, q := Decimal(a / 10), Decimal(b / 10);
      DecimalOrder(a / 10, b / 10);
      if |p| == |q| {
        LessSnoc(p, q, ('0' as int + a % 10) as char, ('0' as int + b % 10) as char);
      }
    }
  }

  // ----- splitting

  /** strings.Split(s, separator) for a one-character separator. */
  function Split(s: string, separator: char): (parts: seq<string>)
    ensures parts != []
  {
    if s == "" then [""]
    else
      var rest := Split(s[1..], separator);
      if s[0] == separator then [""] + rest else [[s[0]] + rest[0]] + rest[1..]
  }

  lemma SplitParts(s: string, separator: char)
    ensures forall i | 0 <= i < |Split(s, separator)| :: separator !in Split(s, separator)[i]
  {}

  lemma {:induction false} SplitInjective(a: string, b: string, separator: char)
    requires Split(a, separator) == Split(b, separator)
    ensures a == b
  {
    SplitParts(a, separator);
    SplitParts(b, separator);
    if a == "" || b == "" {
      SplitEmpty(a, separator);
      SplitEmpty(b, separator);
    } else {
      var x, y := Split(a[1..], separator), Split(b[1..], separator);
      var p, q := Split(a, separator), Split(b, separator);
      assert p[0] == "" <==> a[0] == separator;
      assert q[0] == "" <==> b[0] == separator;
      if a[0] == separator {
        assert p[1..] == x && q[1..] == y;
      } else {
        assert p[0][0] == a[0] && p[0][1..] == x[0];
        assert q[0][0] == b[0] && q[0][1..] == y[0];
        assert p[1..] == x[1..] && q[1..] == y[1..];
        assert x == [x[0]] + x[1..] && y == [y[0]] + y[1..];
      }
      SplitInjective(a[1..], b[1..], separator);
      assert a == [a[0]] + a[1..] && b == [b[0]] + b[1..];
    }
  }

  lemma SplitEmpty(s: string, separator: char)
    ensures s == "" <==> Split(s, separator) == [""]
  {}

  lemma {:induction false} SplitWhole(s: string, separator: char)
    requires separator !in s
    ensures Split(s, separator) == [s]
  {
    if s != "" {
      SplitWhole(s[1..], separator);
      assert s == [s[0]] + s[1..];
    }
  }

  /** The first part ends at the first separator. */
  lemma {:induction false} SplitFirst(a: string, b: string, separator: char)
    requires separator !in a
    ensures Split(a + [separator] + b, separator) == [a] + Split(b, separator)
  {
    var s := a + [separator] + b;
    if a == "" {
      assert s[1..] == b;
    } else {
      SplitFirst(a[1..], b, separator);
      assert s[1..] == a[1..] + [separator] + b;
      assert a == [a[0]] + a[1..];
    }
  }

  lemma SplitTwo(a: string, b: string, separator: char)
    requires separator !in a && separator !in b
    ensures Split(a + [separator] + b, separator) == [a, b]
  {
    SplitFirst(a, b, separator);
    SplitWhole(b, separator);
  }

  /** strings.Join with a one-character separator. */
  function Join(parts: seq<string>, separator: char): string
    requires parts != []
  {
    if |parts| == 1 then parts[0] else parts[0] + [separator] + Join(parts[1..], separator)
  }

  /** Splitting undoes joining. */
  lemma {:induction false} SplitJoin(parts: seq<string>, separator: char)
    requires parts != [] && forall i | 0 <= i < |parts| :: separator !in parts[i]
    ensures Split(Join(parts, separator), separator) == parts
  {
    if |parts| == 1 {
      SplitWhole(parts[0], separator);
    } else {
      SplitJoin(parts[1..], separator);
      SplitFirst(parts[0], Join(parts[1..], separator), separator);
      assert parts == [parts[0]] + parts[1..];
    }
  }

  // ----- white space

  /** unicode.IsSpace. */
  predicate IsSpace(c: char)
  {
    || '\t' <= c <= '\r' || c == ' ' || c == '\U{85}' || c == '\U{A0}' || c == '\U{1680}'
    || '\U{2000}' <= c <= '\U{200A}' || c == '\U{2028}' || c == '\U{2029}' || c == '\U{202F}'
    || c == '\U{205F}' || c == '\U{3000}'
  }

  /** The 25 white space characters. */
  lemma SpacesAre(c: char)
    ensures IsSpace(c)
       <==> c as int in {0x9, 0xA, 0xB, 0xC, 0xD, 0x20, 0x85, 0xA0, 0x1680, 0x2000, 0x2001, 0x2002, 0x2003, 0x2004,
                         0x2005, 0x2006, 0x2007, 0x2008, 0x2009, 0x200A, 0x2028, 0x2029, 0x202F, 0x205F, 0x3000}
  {}

  function TrimLeft(s: string): string
  {
    if s != "" && IsSpace(s[0]) then TrimLeft(s[1..]) else s
  }

  function TrimRight(s: string): string
  {
    if s != "" && IsSpace(s[|s| - 1]) then TrimRight(s[..|s| - 1]) else s
  }

  function TrimSpace(s: string): string { TrimRight(TrimLeft(s)) }

  /** A string with no space at either end is left alone. */
  lemma TrimNothing(s: string)
    requires s == "" || (!IsSpace(s[0]) && !IsSpace(s[|s| - 1]))
    ensures TrimSpace(s) == s
  {}

  lemma {:induction false} TrimLeftEnds(s: string)
    ensures TrimLeft(s) == "" || !IsSpace(TrimLeft(s)[0])
  {
    if s != "" && IsSpace(s[0]) {
      TrimLeftEnds(s[1..]);
    }
  }

  lemma {:induction false} TrimRightEnds(s: string)
    requires s == "" || !IsSpace(s[0])
    ensures TrimRight(s) == "" || (!IsSpace(TrimRight(s)[0]) && !IsSpace(TrimRight(s)[|TrimRight(s)| - 1]))
    decreases |s|
  {
    if s != "" && IsSpace(s[|s| - 1]) {
      TrimRightEnds(s[..|s| - 1]);
    }
  }

  lemma TrimEnds(s: string)
    ensures var t := TrimSpace(s); t == "" || (!IsSpace(t[0]) && !IsSpace(t[|t| - 1]))
  {
    TrimLeftEnds(s);
    TrimRightEnds(TrimLeft(s));
  }

  predicate AllSpace(s: string) { forall i | 0 <= i < |s| :: IsSpace(s[i]) }

  lemma {:induction false} TrimLeftOf(l: string, s: string)
    requires AllSpace(l) && (s == "" || !IsSpace(s[0]))
    ensures TrimLeft(l + s) == s
  {
    if l == "" {
      assert l + s == s;
    } else {
      assert (l + s)[1..] == l[1..] + s;
      TrimLeftOf(l[1..], s);
    }
  }

  lemma {:induction false} TrimRightOf(s: string, r: string)
    requires AllSpace(r) && (s == "" || !IsSpace(s[|s| - 1]))
    ensures TrimRight(s + r) == s
    decreases |r|
  {
    if r == "" {
      assert s + r == s;
    } else {
      assert (s + r)[..|s + r| - 1] == s + r[..|r| - 1];
      TrimRightOf(s, r[..|r| - 1]);
    }
  }

  lemma {:induction false} TrimLeftAll(l: string)
    requires AllSpace(l)
    ensures TrimLeft(l) == ""
  {
    if l != "" {
      TrimLeftAll(l[1..]);
    }
  }

  /** White space around a text is dropped, and nothing else. */
  lemma TrimPadded(l: string, s: string, r: string)
    requires AllSpace(l) && AllSpace(r) && (s == "" || (!IsSpace(s[0]) && !IsSpace(s[|s| - 1])))
    ensures TrimSpace(l + s + r) == s
  {
    if s == "" {
      TrimLeftAll(l + s + r);
    } else {
      assert l + s + r == l + (s + r);
      TrimLeftOf(l, s + r);
      TrimRightOf(s, r);
    }
  }

  lemma {:induction false} TrimLeftEmpty(s: string)
    ensures TrimLeft(s) == "" ==> AllSpace(s)
  {
    if s != "" && IsSpace(s[0]) {
      TrimLeftEmpty(s[1..]);
      assert s == [s[0]] + s[1..];
    }
  }

  lemma {:induction false} TrimRightFull(s: string)
    requires s != "" && !IsSpace(s[0])
    ensures TrimRight(s) != ""
    decreases |s|
  {
    if IsSpace(s[|s| - 1]) {
      TrimRightFull(s[..|s| - 1]);
    }
  }

  lemma TrimEmpty(s: string)
    ensures TrimSpace(s) == "" <==> AllSpace(s)
  {
    if AllSpace(s) {
      TrimLeftAll(s);
    } else {
      TrimLeftEmpty(s);
      TrimLeftEnds(s);
      TrimRightFull(TrimLeft(s));
    }
  }
}
