/** pkg/contract/semver.go: version comparison and range matching. */
module Semver {
  import opened Texts

  const MAX_INT64 := 0x7fff_ffff_ffff_ffff

  datatype SemVersion = SemVersion(major: int, minor: int, patch: int, pre: string)

  // ----- comparison

  /** strconv.ParseInt(s, 10, 64). */
  function ParseInt(s: string): Option<int>
  {
    var negative := s != "" && s[0] == '-';
    var digits := if s != "" && (s[0] == '-' || s[0] == '+') then s[1..] else s;
    if digits == "" || !AllDigits(digits) then None
    else
      var v: int := DigitsValue(digits);
      if negative then (if v > MAX_INT64 + 1 then None else Some(-v))
      else if v > MAX_INT64 then None else Some(v)
  }

  /** A run of digits, with or without a sign, is read if it is in range ... */
  lemma ParseIntReads(digits: string)
    requires digits != "" && AllDigits(digits)
    ensures var n: int := DigitsValue(digits);
            && ParseInt(digits) == ParseInt("+" + digits) == (if n <= 9223372036854775807 then Some(n) else None)
            && ParseInt("-" + digits) == (if n <= 9223372036854775808 then Some(-n) else None)
  {
    hide DigitsValue;
    var plus, minus := "+" + digits, "-" + digits;
    assert plus[0] == '+' && plus[1..] == digits;
    assert minus[0] == '-' && minus[1..] == digits;
    assert IsDigit(digits[0]);
  }

  /** ... and nothing else is. */
  lemma ParseIntOnly(s: string)
    requires ParseInt(s).Some?
    ensures s != "" && exists digits ::
              digits != "" && AllDigits(digits) && (s == digits || s == "+" + digits || s == "-" + digits)
  {
    hide DigitsValue;
    if s != "" && (s[0] == '+' || s[0] == '-') {
      assert AllDigits(s[1..]) && s == [s[0]] + s[1..];
    }
  }

  /** One step of the identifier loop, for identifiers that differ. */
  function CompareIdentifiers(x: string, y: string): int
  {
    match (ParseInt(x), ParseInt(y))
    case (Some(a), Some(b)) => if a < b then -1 else 1
    case (Some(_), None) => -1
    case (None, Some(_)) => 1
    case (None, None) => if Less(x, y) then -1 else 1
  }

  /** The loop of comparePrerelease over the split identifiers. */
  function CompareLists(xs: seq<string>, ys: seq<string>): int
  {
    if xs == [] then (if ys == [] then 0 else -1)
    else if ys == [] then 1
    else if xs[0] == ys[0] then CompareLists(xs[1..], ys[1..])
    else CompareIdentifiers(xs[0], ys[0])
  }

  method ComparePrerelease(a: string, b: string) returns (r: int)
    ensures r == CompareLists(Split(a, '.'), Split(b, '.'))
  {
    hide Split;
    hide CompareIdentifiers;
    var xs, ys := Split(a, '.'), Split(b, '.');
    var i := 0;
    while i < |xs| && i < |ys|
      invariant i <= |xs| && i <= |ys|
      invariant CompareLists(xs, ys) == CompareLists(xs[i..], ys[i..])
    {
      if xs[i] != ys[i] {
        return CompareIdentifiers(xs[i], ys[i]);
      }
      i := i + 1;
    }
    if |xs| < |ys| {
      return -1;
    }
    if |xs| > |ys| {
      return 1;
    }
    return 0;
  }

  function Sign(a: int, b: int): int { if a < b then -1 else if a > b then 1 else 0 }

  function Compare(v: SemVersion, o: SemVersion): int
  {
    if v.major != o.major then (if v.major < o.major then -1 else 1)
    else if v.minor != o.minor then (if v.minor < o.minor then -1 else 1)
    else if v.patch != o.patch then (if v.patch < o.patch then -1 else 1)
    else if v.pre == o.pre then 0
    else if v.pre == "" then 1
    else if o.pre == "" then -1
    else CompareLists(Split(v.pre, '.'), Split(o.pre, '.'))
  }

  // ----- precedence, section 11 of Semantic Versioning 2.0.0

  datatype Identifier = Numeric(n: int) | Alphanumeric(s: string)

  /** Numeric identifiers compare as numbers and precede alphanumeric ones. */
  function PrecedenceOne(x: Identifier, y: Identifier): int
  {
    match (x, y)
    case (Numeric(a), Numeric(b)) => Sign(a, b)
    case (Numeric(_), Alphanumeric(_)) => -1
    case (Alphanumeric(_), Numeric(_)) => 1
    case (Alphanumeric(a), Alphanumeric(b)) => if a == b then 0 else if Before(a, b) then -1 else 1
  }

  /** Left to right; a longer list of fields wins when all the preceding ones are equal. */
  function PrecedenceList(xs: seq<Identifier>, ys: seq<Identifier>): int
  {
    if xs == [] then (if ys == [] then 0 else -1)
    else if ys == [] then 1
    else
      var c := PrecedenceOne(xs[0], ys[0]);
      if c != 0 then c else PrecedenceList(xs[1..], ys[1..])
  }

  function Classify(id: string): Identifier
  {
    if id != "" && AllDigits(id) then Numeric(DigitsValue(id)) else Alphanumeric(id)
  }

  function ClassifyAll(ids: seq<string>): (r: seq<Identifier>)
    ensures |r| == |ids|
  {
    if ids == [] then [] else [Classify(ids[0])] + ClassifyAll(ids[1..])
  }

  /** A release has higher precedence than its pre-releases. */
  function Precedence(v: SemVersion, o: SemVersion): int
  {
    if v.major != o.major then Sign(v.major, o.major)
    else if v.minor != o.minor then Sign(v.minor, o.minor)
    else if v.patch != o.patch then Sign(v.patch, o.patch)
    else if v.pre == "" then (if o.pre == "" then 0 else 1)
    else if o.pre == "" then -1
    else PrecedenceList(ClassifyAll(Split(v.pre, '.')), ClassifyAll(Split(o.pre, '.')))
  }

  /** Digits mean a numeral in int64 range, and nothing else reads as an integer. */
  predicate CanonicalIdentifier(id: string)
  {
    && id != ""
    && (AllDigits(id) ==> IsNumeral(id) && DigitsValue(id) <= MAX_INT64)
    && (!AllDigits(id) ==> ParseInt(id).None?)
  }

  predicate CanonicalList(ids: seq<string>) { forall i | 0 <= i < |ids| :: CanonicalIdentifier(ids[i]) }

  predicate Canonical(v: SemVersion) { v.pre == "" || CanonicalList(Split(v.pre, '.')) }

  /** Pre-releases of letters and digits are canonical when their numbers have no leading zeros and fit in an int64. */
  lemma PlainIsCanonical(v: SemVersion)
    requires v.pre == "" || forall id | id in Split(v.pre, '.') ::
               && id != "" && (forall c | c in id :: '0' <= c <= '9' || 'A' <= c <= 'Z' || 'a' <= c <= 'z')
               && (AllDigits(id) ==> (id[0] != '0' || |id| == 1) && DigitsValue(id) <= 9223372036854775807)
    ensures Canonical(v)
  {
    hide Split;
    hide DigitsValue;
    if v.pre != "" {
      var ids := Split(v.pre, '.');
      forall i | 0 <= i < |ids| ensures CanonicalIdentifier(ids[i]) {
        assert ids[i] in ids && ids[i][0] in ids[i];
      }
    }
  }

  lemma DigitsParse(id: string)
    requires CanonicalIdentifier(id)
    ensures ParseInt(id) == if AllDigits(id) then Some(DigitsValue(id)) else None
  {}

  lemma IdentifierAgrees(x: string, y: string)
    requires CanonicalIdentifier(x) && CanonicalIdentifier(y)
    ensures x != y ==> CompareIdentifiers(x, y) == PrecedenceOne(Classify(x), Classify(y)) != 0
    ensures x == y ==> PrecedenceOne(Classify(x), Classify(y)) == 0
  {
    hide ParseInt;
    DigitsParse(x);
    DigitsParse(y);
    LessIsBefore(x, y);
    hide Before;
    hide Less;
    if x != y && AllDigits(x) && AllDigits(y) && DigitsValue(x) == DigitsValue(y) {
      NumeralInjective(x, y);
    }
  }

  lemma {:induction false} ListAgrees(xs: seq<string>, ys: seq<string>)
    requires CanonicalList(xs) && CanonicalList(ys)
    ensures CompareLists(xs, ys) == PrecedenceList(ClassifyAll(xs), ClassifyAll(ys))
  {
    hide CompareIdentifiers;
    hide PrecedenceOne;
    hide CanonicalIdentifier;
    if xs != [] && ys != [] {
      IdentifierAgrees(xs[0], ys[0]);
      ListAgrees(xs[1..], ys[1..]);
      assert ClassifyAll(xs)[1..] == ClassifyAll(xs[1..]) && ClassifyAll(ys)[1..] == ClassifyAll(ys[1..]);
    }
  }

  /** On canonical versions compare is the precedence of the standard. */
  lemma CompareIsPrecedence(v: SemVersion, o: SemVersion)
    requires Canonical(v) && Canonical(o)
    ensures Compare(v, o) == Precedence(v, o)
  {
    hide Split;
    hide CompareLists;
    hide PrecedenceList;
    if v.pre != "" && o.pre != "" {
      ListAgrees(Split(v.pre, '.'), Split(o.pre, '.'));
      if v.pre == o.pre {
        ListZero(Split(v.pre, '.'), Split(o.pre, '.'));
      }
    }
  }

  // ----- the order, on all versions

  lemma {:induction false} ListZero(xs: seq<string>, ys: seq<string>)
    ensures CompareLists(xs, ys) == 0 <==> xs == ys
  {
    hide ParseInt;
    if xs != [] && ys != [] {
      ListZero(xs[1..], ys[1..]);
      assert xs == [xs[0]] + xs[1..] && ys == [ys[0]] + ys[1..];
    }
  }

  /** Two identifiers that both read as integers and read as the same one. */
  predicate SameInteger(x: string, y: string) { ParseInt(x).Some? && ParseInt(x) == ParseInt(y) }

  /** The first identifiers that differ are different spellings of one integer. */
  predicate Clash(xs: seq<string>, ys: seq<string>)
  {
    && xs != [] && ys != []
    && if xs[0] == ys[0] then Clash(xs[1..], ys[1..]) else SameInteger(xs[0], ys[0])
  }

  /** The same release, and pre-releases that clash. */
  predicate Clashes(v: SemVersion, o: SemVersion)
  {
    && v.major == o.major && v.minor == o.minor && v.patch == o.patch
    && v.pre != "" && o.pre != "" && Clash(Split(v.pre, '.'), Split(o.pre, '.'))
  }

  lemma IdentifierFlip(x: string, y: string)
    requires x != y
    ensures SameInteger(x, y) ==> CompareIdentifiers(x, y) == CompareIdentifiers(y, x) == 1
    ensures !SameInteger(x, y) ==> CompareIdentifiers(x, y) == -CompareIdentifiers(y, x)
  {
    hide ParseInt;
    LessTotal(x, y);
  }

  lemma IdentifierTransitive(x: string, y: string, z: string)
    requires CompareIdentifiers(x, y) < 0 && CompareIdentifiers(y, z) < 0
    ensures CompareIdentifiers(x, z) < 0 && x != z
  {
    hide ParseInt;
    hide Less;
    LessTotal(x, z);
    if Less(x, y) && Less(y, z) {
      LessTransitive(x, y, z);
    }
  }

  lemma {:induction false} ListFlip(xs: seq<string>, ys: seq<string>)
    ensures Clash(xs, ys) ==> CompareLists(xs, ys) == CompareLists(ys, xs) == 1
    ensures !Clash(xs, ys) ==> CompareLists(xs, ys) == -CompareLists(ys, xs)
  {
    hide CompareIdentifiers;
    hide SameInteger;
    if xs != [] && ys != [] {
      if xs[0] == ys[0] {
        ListFlip(xs[1..], ys[1..]);
      } else {
        IdentifierFlip(xs[0], ys[0]);
      }
    }
  }

  lemma {:induction false} ListTransitive(xs: seq<string>, ys: seq<string>, zs: seq<string>)
    requires CompareLists(xs, ys) <= 0 && CompareLists(ys, zs) <= 0
    ensures CompareLists(xs, zs) <= 0
  {
    hide CompareIdentifiers;
    if xs != [] && ys != [] && zs != [] {
      if xs[0] == ys[0] == zs[0] {
        ListTransitive(xs[1..], ys[1..], zs[1..]);
      } else if xs[0] != ys[0] && ys[0] != zs[0] {
        IdentifierNonZero(xs[0], ys[0]);
        IdentifierNonZero(ys[0], zs[0]);
        IdentifierTransitive(xs[0], ys[0], zs[0]);
      }
    }
  }

  lemma IdentifierNonZero(x: string, y: string)
    ensures CompareIdentifiers(x, y) != 0
  {
    hide ParseInt;
  }

  /**
   Antisymmetry holds exactly for versions that do not clash; on versions that do, compare
   puts each of the two after the other.
   */
  lemma AntisymmetricIff(v: SemVersion, o: SemVersion)
    ensures Compare(v, o) == -Compare(o, v) <==> !Clashes(v, o)
    ensures Clashes(v, o) ==> Compare(v, o) == Compare(o, v) == 1
  {
    hide Split;
    hide CompareLists;
    hide Clash;
    if v.pre != "" && o.pre != "" {
      ListFlip(Split(v.pre, '.'), Split(o.pre, '.'));
      ListZero(Split(v.pre, '.'), Split(o.pre, '.'));
      if v.pre == o.pre {
        NoSelfClash(Split(v.pre, '.'));
      }
    }
  }

  lemma {:induction false} NoSelfClash(xs: seq<string>)
    ensures !Clash(xs, xs)
  {
    if xs != [] {
      NoSelfClash(xs[1..]);
    }
  }

  /**
   On all versions, canonical or not: compare is transitive, 0 means equal, and what is before
   a version has that version after it.
   */
  lemma CompareOrder(u: SemVersion, v: SemVersion, w: SemVersion)
    ensures Compare(u, v) == 0 <==> u == v
    ensures Compare(u, v) < 0 ==> Compare(v, u) > 0
    ensures Compare(u, v) <= 0 && Compare(v, w) <= 0 ==> Compare(u, w) <= 0
  {
    CompareZero(u, v);
    AntisymmetricIff(u, v);
    hide Split;
    hide CompareLists;
    hide Clashes;
    if Compare(u, v) <= 0 && Compare(v, w) <= 0 && u.pre != "" && v.pre != "" && w.pre != "" {
      var xs, ys, zs := Split(u.pre, '.'), Split(v.pre, '.'), Split(w.pre, '.');
      ListZero(xs, ys);
      ListZero(ys, zs);
      if CompareLists(xs, ys) <= 0 && CompareLists(ys, zs) <= 0 {
        ListTransitive(xs, ys, zs);
      }
    }
  }

  lemma CompareZero(u: SemVersion, v: SemVersion)
    ensures Compare(u, v) == 0 <==> u == v
  {
    hide Split;
    hide CompareLists;
    if u.pre != "" && v.pre != "" {
      ListZero(Split(u.pre, '.'), Split(v.pre, '.'));
      if Split(u.pre, '.') == Split(v.pre, '.') {
        SplitInjective(u.pre, v.pre, '.');
      }
    }
  }

  /** Canonical versions never clash, so on them compare is a total order. */
  lemma CanonicalNeverClash(v: SemVersion, o: SemVersion)
    requires Canonical(v) && Canonical(o)
    ensures !Clashes(v, o) && Compare(v, o) == -Compare(o, v)
  {
    hide Split;
    hide Clash;
    hide Compare;
    if v.pre != "" && o.pre != "" {
      CanonicalListsNeverClash(Split(v.pre, '.'), Split(o.pre, '.'));
    }
    AntisymmetricIff(v, o);
  }

  lemma {:induction false} CanonicalListsNeverClash(xs: seq<string>, ys: seq<string>)
    requires CanonicalList(xs) && CanonicalList(ys)
    ensures !Clash(xs, ys)
  {
    hide ParseInt;
    if xs != [] && ys != [] {
      if xs[0] == ys[0] {
        CanonicalListsNeverClash(xs[1..], ys[1..]);
      } else {
        DigitsParse(xs[0]);
        DigitsParse(ys[0]);
        if AllDigits(xs[0]) && AllDigits(ys[0]) && DigitsValue(xs[0]) == DigitsValue(ys[0]) {
          NumeralInjective(xs[0], ys[0]);
        }
      }
    }
  }

  /** Such a clash: 1.0.0-01 and 1.0.0-1 are each after the other. */
  lemma LeadingZeroBreaksOrder()
    ensures var v, o := SemVersion(1, 0, 0, "01"), SemVersion(1, 0, 0, "1");
            Clashes(v, o) && Compare(v, o) == Compare(o, v) == 1
  {
    var v, o := SemVersion(1, 0, 0, "01"), SemVersion(1, 0, 0, "1");
    assert ParseInt("01") == ParseInt("1") == Some(1) by {
      assert "01"[..1] == "0" && "0"[..0] == "" && "1"[..0] == "";
      assert DigitsValue("0") == 0 && DigitsValue("01") == 1 && DigitsValue("1") == 1;
    }
    SplitWhole("01", '.');
    SplitWhole("1", '.');
    assert "01" != "1";
    hide Split;
    hide Compare;
    AntisymmetricIff(v, o);
  }
}
