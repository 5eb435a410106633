/** The Mojo version window: scripts/check_mojo_version.py against the range of semver.go. */
module MojoWindow {
  import opened Texts
  import opened Semver
  import opened VersionRange

  /** A version in the compact spelling, e.g. 1.0.0b2, every numeral without leading zeros. */
  datatype Compact = Compact(major: nat, minor: nat, patch: nat, pre: Option<(Tag, nat)>)

  function SuffixText(pre: Option<(Tag, nat)>): string
  {
    match pre
    case None => ""
    case Some((tag, number)) => TagText(tag) + (Decimal(number) + "")
  }

  function CompactCore(v: Compact): Core
  {
    Core(Decimal(v.major), Decimal(v.minor), Decimal(v.patch), SuffixText(v.pre))
  }

  function Text(v: Compact): string { CoreText(CompactCore(v)) }

  // ----- the Python key

  datatype Key = Key(major: nat, minor: nat, patch: nat, phase: nat, number: nat)

  function Phase(t: Tag): nat
  {
    match t
    case Alpha => 0
    case Beta => 1
    case Candidate => 2
  }

  /** The full match of the version pattern, as the script's version_key. */
  function PythonKey(raw: string): Option<Key>
  {
    match TakeCore(raw)
    case None => None
    case Some(c) =>
      var major, minor, patch := DigitsValue(c.major), DigitsValue(c.minor), DigitsValue(c.patch);
      if c.rest == "" then Some(Key(major, minor, patch, 3, 0))
      else
        match TakeSuffix(c.rest)
        case None => None
        case Some((tag, number, rest)) =>
          if rest != "" then None else Some(Key(major, minor, patch, Phase(tag), DigitsValue(number)))
  }

  /** < on Python tuples. */
  predicate KeyLess(a: Key, b: Key)
  {
    if a.major != b.major then a.major < b.major
    else if a.minor != b.minor then a.minor < b.minor
    else if a.patch != b.patch then a.patch < b.patch
    else if a.phase != b.phase then a.phase < b.phase
    else a.number < b.number
  }

  const MINIMUM := Key(1, 0, 0, 1, 2)
  const MAXIMUM := Key(1, 1, 0, 0, 0)

  predicate InWindow(k: Key) { !KeyLess(k, MINIMUM) && KeyLess(k, MAXIMUM) }

  function KeyOf(v: Compact): Key
  {
    match v.pre
    case None => Key(v.major, v.minor, v.patch, 3, 0)
    case Some((tag, number)) => Key(v.major, v.minor, v.patch, Phase(tag), number)
  }

  lemma CompactWellFormed(v: Compact)
    ensures WellFormed(CompactCore(v))
    ensures v.pre.Some? ==> TakeSuffix(SuffixText(v.pre)) == Some((v.pre.value.0, Decimal(v.pre.value.1), ""))
  {
    hide TakeSuffix;
    hide Decimal;
    DecimalIsNumeral(v.major);
    DecimalIsNumeral(v.minor);
    DecimalIsNumeral(v.patch);
    if v.pre.Some? {
      DecimalIsNumeral(v.pre.value.1);
      TakeSuffixOf(v.pre.value.0, Decimal(v.pre.value.1), "");
    }
  }

  /** The script reads the compact spelling as the tuple it denotes. */
  lemma PythonReads(v: Compact)
    ensures PythonKey(Text(v)) == Some(KeyOf(v))
  {
    hide TakeSuffix;
    hide TakeCore;
    hide CoreText;
    hide Decimal;
    hide DigitsValue;
    hide TagText;
    CompactWellFormed(v);
    TakeCoreOf(CompactCore(v));
    DecimalIsNumeral(v.major);
    DecimalIsNumeral(v.minor);
    DecimalIsNumeral(v.patch);
    if v.pre.Some? {
      DecimalIsNumeral(v.pre.value.1);
    }
  }

  // ----- the Go reading of the compact spelling

  function PreText(pre: Option<(Tag, nat)>): string
  {
    match pre
    case None => ""
    case Some((tag, number)) => TagText(tag) + "." + Decimal(number)
  }

  function GoVersion(v: Compact): SemVersion { SemVersion(v.major, v.minor, v.patch, PreText(v.pre)) }

  predicate EndsInDigit(s: string) { s != "" && IsDigit(s[|s| - 1]) }

  lemma DecimalEnds(n: nat)
    ensures EndsInDigit(Decimal(n)) && AllDigits(Decimal(n)) && Decimal(n) != ""
  {}

  /** Such a text starts and ends in a digit, so trimming leaves it alone. */
  lemma NothingToTrim(c: Core)
    requires WellFormed(c) && EndsInDigit(c.patch + c.rest)
    ensures TrimSpace(CoreText(c)) == CoreText(c) && !HasV(CoreText(c))
  {}

  lemma TextEnds(v: Compact)
    ensures EndsInDigit(CompactCore(v).patch + CompactCore(v).rest)
  {}

  lemma NormalizeCore(c: Core)
    requires WellFormed(c) && EndsInDigit(c.patch + c.rest)
    ensures TakeSuffix(c.rest).None? ==> Normalize(CoreText(c)) == CoreText(c)
    ensures TakeSuffix(c.rest).Some? && TakeSuffix(c.rest).value.2 == "" ==>
      var (tag, number, rest) := TakeSuffix(c.rest).value;
      Normalize(CoreText(c)) == CoreText(c.(rest := "-" + TagText(tag) + "." + number + rest))
  {
    hide TrimSpace;
    hide HasV;
    hide TakeCore;
    hide TakeSuffix;
    hide CoreText;
    hide TagText;
    NothingToTrim(c);
    TakeCoreOf(c);
    assert CoreText(c)[0..] == CoreText(c);
    forall s: string ensures "" + s == s {}
  }

  lemma NoSuffix()
    ensures TakeSuffix("").None? && PreTail("") + "" == ""
  {}

  lemma TailText(tag: string, number: string)
    ensures "-" + tag + "." + number + "" == PreTail(tag + "." + number) + ""
  {}

  /** The compact spelling is normalised to the spelling of Semantic Versioning. */
  lemma NormalizeText(v: Compact)
    ensures Normalize(Text(v)) == CoreText(VersionCore(GoVersion(v), ""))
  {
    hide Normalize;
    hide PreTail;
    hide TakeSuffix;
    hide CoreText;
    hide Decimal;
    hide TagText;
    CompactWellFormed(v);
    TextEnds(v);
    NormalizeCore(CompactCore(v));
    if v.pre.None? {
      NoSuffix();
    } else {
      TailText(TagText(v.pre.value.0), Decimal(v.pre.value.1));
    }
  }

  lemma TagIdentifier(t: Tag)
    ensures ParseInt(TagText(t)).None? && Words(TagText(t)) && '.' !in TagText(t)
  {}

  lemma PreParts(t: Tag, number: nat)
    ensures Split(PreText(Some((t, number))), '.') == [TagText(t), Decimal(number)]
    ensures Words(PreText(Some((t, number))))
  {
    hide Decimal;
    hide TagText;
    hide Split;
    TagIdentifier(t);
    DecimalEnds(number);
    SplitTwo(TagText(t), Decimal(number), '.');
  }

  /** The Go reading of a compact version: an error exactly when x, y or z of x.y.z exceeds int64. */
  lemma GoReads(v: Compact)
    ensures ParseSemVersion(Normalize(Text(v))) == if CoreFits(GoVersion(v)) then Some(GoVersion(v)) else None
  {
    hide Normalize;
    hide ParseSemVersion;
    hide CoreText;
    hide Decimal;
    hide TagText;
    hide Split;
    NormalizeText(v);
    if v.pre.Some? {
      PreParts(v.pre.value.0, v.pre.value.1);
    }
    ParseRoundTrip(GoVersion(v), "", "");
    var s := CoreText(VersionCore(GoVersion(v), ""));
    assert "" + s == s;
  }

  // ----- the two orders agree

  lemma TagOrder(s: Tag, t: Tag)
    requires s != t
    ensures TagText(s) != TagText(t)
    ensures CompareIdentifiers(TagText(s), TagText(t)) == Sign(Phase(s), Phase(t)) != 0
  {}

  lemma ComparePair(s: string, x: string, t: string, y: string)
    ensures CompareLists([s, x], [t, y])
         == if s != t then CompareIdentifiers(s, t) else if x != y then CompareIdentifiers(x, y) else 0
  {
    hide CompareIdentifiers;
    assert [s, x][1..] == [x] && [t, y][1..] == [y];
    assert [x][1..] == [] && [y][1..] == [];
    assert CompareLists([x], [y]) == if x != y then CompareIdentifiers(x, y) else 0;
  }

  /** Both numbers exceed int64, and the longer one comes first in byte order. */
  predicate Misordered(a: nat, b: nat)
  {
    && a > MAX_INT64 && b > MAX_INT64 && |Decimal(a)| != |Decimal(b)|
    && if |Decimal(a)| < |Decimal(b)| then Less(Decimal(b), Decimal(a)) else Less(Decimal(a), Decimal(b))
  }

  /** Numbers beyond int64 are compared as text, which is right unless they are misordered. */
  lemma NumberOrder(a: nat, b: nat)
    requires a != b
    ensures Decimal(a) != Decimal(b)
    ensures CompareIdentifiers(Decimal(a), Decimal(b)) == Sign(a, b) <==> !Misordered(a, b)
  {
    hide Decimal;
    hide ParseInt;
    PartOf(a);
    PartOf(b);
    DecimalOrder(a, b);
    DecimalOrder(b, a);
    LessTotal(Decimal(a), Decimal(b));
  }

  lemma PreOrder(x: (Tag, nat), y: (Tag, nat))
    requires x != y
    ensures PreText(Some(x)) != PreText(Some(y))
    ensures var c := CompareLists(Split(PreText(Some(x)), '.'), Split(PreText(Some(y)), '.'));
            && c in {-1, 1}
            && (x.0 != y.0 ==> c == Sign(Phase(x.0), Phase(y.0)))
            && (x.0 == y.0 ==> (c == Sign(x.1, y.1) <==> !Misordered(x.1, y.1)))
  {
    hide Split;
    hide PreText;
    hide TagText;
    hide Decimal;
    hide Misordered;
    hide ParseInt;
    PreParts(x.0, x.1);
    PreParts(y.0, y.1);
    ComparePair(TagText(x.0), Decimal(x.1), TagText(y.0), Decimal(y.1));
    if x.0 != y.0 {
      TagOrder(x.0, y.0);
    } else {
      NumberOrder(x.1, y.1);
    }
  }

  lemma PreTextEmpty(pre: Option<(Tag, nat)>)
    ensures PreText(pre) == "" <==> pre.None?
  {}

  /** The same release and tag, with misordered numbers. */
  predicate MisorderedVersions(v: Compact, w: Compact)
  {
    && v.major == w.major && v.minor == w.minor && v.patch == w.patch && v.pre.Some? && w.pre.Some?
    && v.pre.value.0 == w.pre.value.0 && Misordered(v.pre.value.1, w.pre.value.1)
  }

  /**
   compare on the normalised versions is the order of the Python keys, a < b < rc < final and
   numeric within a tag, exactly on the pairs that are not misordered.
   */
  lemma NormalizeEmbedsOrder(v: Compact, w: Compact)
    ensures (Compare(GoVersion(v), GoVersion(w)) < 0 <==> KeyLess(KeyOf(v), KeyOf(w))) <==> !MisorderedVersions(v, w)
    ensures Compare(GoVersion(v), GoVersion(w)) == 0 <==> v == w
  {
    hide Split;
    hide CompareLists;
    hide PreText;
    hide Misordered;
    PreTextEmpty(v.pre);
    PreTextEmpty(w.pre);
    if v.pre.Some? && w.pre.Some? {
      NeverMisorderedWithSelf(v.pre.value.1);
      if v.pre != w.pre {
        PreOrder(v.pre.value, w.pre.value);
      }
    }
  }

  lemma NeverMisorderedWithSelf(a: nat)
    ensures !Misordered(a, a)
  {}

  function Pow10(k: nat): (p: nat)
    ensures p >= 1
  {
    if k == 0 then 1 else 10 * Pow10(k - 1)
  }

  lemma AppendDigit(m: nat, r: nat)
    requires m >= 1 && r < 10
    ensures |Decimal(10 * m + r)| == |Decimal(m)| + 1 && Decimal(10 * m + r)[0] == Decimal(m)[0]
  {
    assert (10 * m + r) / 10 == m;
    DecimalIsNumeral(m);
  }

  lemma {:induction false} DecimalPower(k: nat)
    requires k > 0
    ensures |Decimal(Pow10(k))| == k + 1 && Decimal(Pow10(k))[0] == '1'
    ensures Pow10(k) >= 10 && |Decimal(Pow10(k) - 1)| == k && Decimal(Pow10(k) - 1)[0] == '9'
  {
    if k > 1 {
      hide Decimal;
      DecimalPower(k - 1);
      AppendDigit(Pow10(k - 1), 0);
      AppendDigit(Pow10(k - 1) - 1, 9);
    }
  }

  /** Beyond int64 every power of ten is put before its predecessor. */
  lemma PowersMisordered(k: nat)
    requires k >= 19
    ensures Misordered(Pow10(k) - 1, Pow10(k))
  {
    hide Decimal;
    DecimalPower(k);
    PowerLarge(k);
  }

  lemma FiveMore(k: nat)
    ensures Pow10(k + 5) == 100000 * Pow10(k)
  {
    assert Pow10(k + 2) == 100 * Pow10(k);
    assert Pow10(k + 4) == 100 * Pow10(k + 2);
  }

  lemma {:induction false} PowerLarge(k: nat)
    requires k >= 19
    ensures Pow10(k) >= 10000000000000000000
  {
    if k == 19 {
      assert Pow10(1) == 10 && Pow10(2) == 100 && Pow10(3) == 1000 && Pow10(4) == 10000;
      FiveMore(4);
      FiveMore(9);
      FiveMore(14);
    } else {
      PowerLarge(k - 1);
    }
  }

  // ----- the window

  const LOWER := Compact(1, 0, 0, Some((Beta, 2)))
  const UPPER := Compact(1, 1, 0, None)
  const WINDOW := ">=1.0.0b2,<1.1.0"

  lemma LowerComparator()
    ensures TakeOperator(TrimSpace(">=" + Text(LOWER))) == (AtLeast, Text(LOWER))
    ensures TrimSpace(">=" + Text(LOWER)) != ""
  {}

  lemma UpperComparator()
    ensures TakeOperator(TrimSpace("<" + Text(UPPER))) == (Below, Text(UPPER))
    ensures TrimSpace("<" + Text(UPPER)) != ""
  {}

  lemma WindowText()
    ensures Text(LOWER) == "1.0.0b2" && Text(UPPER) == "1.1.0"
    ensures WINDOW == ">=" + Text(LOWER) + [','] + ("<" + Text(UPPER))
  {
    assert Decimal(1) == "1" && Decimal(0) == "0" && Decimal(2) == "2";
    assert SuffixText(LOWER.pre) == "b2" && SuffixText(UPPER.pre) == "";
  }

  lemma WindowComparators()
    ensures Comparators(WINDOW) == [">=" + Text(LOWER), "<" + Text(UPPER)]
  {
    hide Split;
    hide TrimSpace;
    WindowText();
    TrimNothing(WINDOW);
    SplitTwo(">=" + Text(LOWER), "<" + Text(UPPER), ',');
  }

  lemma WindowFits()
    ensures CoreFits(GoVersion(LOWER)) && CoreFits(GoVersion(UPPER))
  {}

  lemma MatchWindow(v: SemVersion)
    ensures MatchAll(v, Comparators(WINDOW))
         == if Compare(v, GoVersion(LOWER)) >= 0 && Compare(v, GoVersion(UPPER)) < 0 then Accepted else Rejected
  {
    hide Text;
    hide TrimSpace;
    hide TakeOperator;
    hide Normalize;
    hide ParseSemVersion;
    hide Comparators;
    hide GoVersion;
    hide Compare;
    WindowComparators();
    LowerComparator();
    UpperComparator();
    WindowFits();
    GoReads(LOWER);
    GoReads(UPPER);
    var low, high := ">=" + Text(LOWER), "<" + Text(UPPER);
    assert Target(low) == Some(GoVersion(LOWER)) && Target(high) == Some(GoVersion(UPPER));
    assert [low, high][1..] == [high] && [high][1..] == [];
    assert MatchAll(v, [high]) == MatchOne(v, high);
  }

  /**
   The exact difference between the two implementations of the window on canonical 1.x versions:
   beyond int64 in x.y.z the Go program reports an error, and otherwise it also accepts the
   pre-releases of 1.1.0.
   */
  lemma WindowsDifferOnUpperPrereleases(v: Compact)
    requires v.major == 1
    ensures PythonKey(Text(v)).Some?
    ensures MatchText(Text(v), WINDOW).Failed? <==> !CoreFits(GoVersion(v))
    ensures CoreFits(GoVersion(v)) ==>
      (MatchText(Text(v), WINDOW) == Accepted
       <==> InWindow(PythonKey(Text(v)).value) || (v.minor == 1 && v.patch == 0 && v.pre.Some?))
    ensures (v.minor == 1 && v.patch == 0 && v.pre.Some?) ==> !InWindow(PythonKey(Text(v)).value)
  {
    hide Text;
    hide Normalize;
    hide ParseSemVersion;
    hide Comparators;
    hide GoVersion;
    hide CoreFits;
    hide Compare;
    hide PythonKey;
    hide Decimal;
    GoReads(v);
    PythonReads(v);
    MatchWindow(GoVersion(v));
    NormalizeEmbedsOrder(v, LOWER);
    NormalizeEmbedsOrder(v, UPPER);
  }
}
