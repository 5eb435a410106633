/** pkg/contract/semver.go: parsing versions, normalising PEP 440 pre-releases, matching ranges. */
module VersionRange {
  import opened Texts
  import opened Semver

  // ----- the shared numeric core x.y.z of the three regular expressions

  datatype Core = Core(major: string, minor: string, patch: string, rest: string)

  /** The maximal run of digits at the front, and what follows it. */
  function TakeDigits(s: string): (r: (string, string))
    ensures AllDigits(r.0)
  {
    if s == "" || !IsDigit(s[0]) then ("", s)
    else
      var (digits, rest) := TakeDigits(s[1..]);
      ([s[0]] + digits, rest)
  }

  lemma {:induction false} TakeDigitsOf(digits: string, rest: string)
    requires AllDigits(digits) && (rest != "" ==> !IsDigit(rest[0]))
    ensures TakeDigits(digits + rest) == (digits, rest)
  {
    var s := digits + rest;
    if digits == "" {
      assert s == rest;
    } else {
      assert s[1..] == digits[1..] + rest;
      assert [s[0]] + digits[1..] == digits;
      TakeDigitsOf(digits[1..], rest);
    }
  }

  /** A non-empty run of digits followed by a dot. */
  function TakeDotted(s: string): Option<(string, string)>
  {
    var (digits, rest) := TakeDigits(s);
    if digits == "" || rest == "" || rest[0] != '.' then None else Some((digits, rest[1..]))
  }

  lemma TakeDottedOf(digits: string, rest: string)
    requires digits != "" && AllDigits(digits)
    ensures TakeDotted(digits + "." + rest) == Some((digits, rest))
  {
    assert digits + "." + rest == digits + ("." + rest);
    TakeDigitsOf(digits, "." + rest);
  }

  function TakeCore(s: string): Option<Core>
  {
    match TakeDotted(s)
    case None => None
    case Some((major, afterMajor)) =>
      match TakeDotted(afterMajor)
      case None => None
      case Some((minor, afterMinor)) =>
        var (patch, rest) := TakeDigits(afterMinor);
        if patch == "" then None else Some(Core(major, minor, patch, rest))
  }

  function CoreText(c: Core): string { c.major + "." + (c.minor + "." + (c.patch + c.rest)) }

  ghost predicate WellFormed(c: Core)
  {
    && c.major != "" && AllDigits(c.major)
    && c.minor != "" && AllDigits(c.minor)
    && c.patch != "" && AllDigits(c.patch)
    && (c.rest != "" ==> !IsDigit(c.rest[0]))
  }

  /** The core of a well-formed text is read back. */
  lemma TakeCoreOf(c: Core)
    requires WellFormed(c)
    ensures TakeCore(CoreText(c)) == Some(c)
  {
    hide TakeDigits;
    hide TakeDotted;
    TakeDottedOf(c.major, c.minor + "." + (c.patch + c.rest));
    TakeDottedOf(c.minor, c.patch + c.rest);
    TakeDigitsOf(c.patch, c.rest);
  }

  predicate HasV(s: string) { s != "" && (s[0] == 'v' || s[0] == 'V') }

  // ----- parseSemVersion

  predicate IsWord(c: char) { IsDigit(c) || 'A' <= c <= 'Z' || 'a' <= c <= 'z' || c == '.' || c == '-' }

  /** The code points of pre-releases and build metadata: letters, digits, hyphen and dot. */
  lemma WordsAre(c: char)
    ensures IsWord(c) <==> var n := c as int; 48 <= n < 58 || 65 <= n < 91 || 97 <= n < 123 || n in {45, 46}
  {}

  predicate Words(s: string) { forall i | 0 <= i < |s| :: IsWord(s[i]) }

  function TakeWords(s: string): (string, string)
  {
    if s == "" || !IsWord(s[0]) then ("", s)
    else
      var (words, rest) := TakeWords(s[1..]);
      ([s[0]] + words, rest)
  }

  lemma {:induction false} TakeWordsOf(words: string, rest: string)
    requires Words(words) && (rest != "" ==> !IsWord(rest[0]))
    ensures TakeWords(words + rest) == (words, rest)
  {
    var s := words + rest;
    if words == "" {
      assert s == rest;
    } else {
      assert s[1..] == words[1..] + rest;
      assert [s[0]] + words[1..] == words;
      TakeWordsOf(words[1..], rest);
    }
  }

  predicate IsBuild(s: string) { s == "" || (s[0] == '+' && |s| > 1 && Words(s[1..])) }

  /** The pre-release part after x.y.z, if the tail has the form of one. */
  function ParseTail(s: string): Option<string>
  {
    if s != "" && s[0] == '-' then
      var (pre, build) := TakeWords(s[1..]);
      if pre == "" || !IsBuild(build) then None else Some(pre)
    else if IsBuild(s) then Some("")
    else None
  }

  function ParsePart(s: string): Option<int> { if IsNumeral(s) then ParseInt(s) else None }

  function ParseSemVersion(s: string): Option<SemVersion>
  {
    var t := TrimSpace(s);
    match TakeCore(if HasV(t) then t[1..] else t)
    case None => None
    case Some(c) =>
      match (ParsePart(c.major), ParsePart(c.minor), ParsePart(c.patch), ParseTail(c.rest))
      case (Some(major), Some(minor), Some(patch), Some(pre)) => Some(SemVersion(major, minor, patch, pre))
      case _ => None
  }

  lemma PartOf(n: nat)
    ensures ParsePart(Decimal(n)) == ParseInt(Decimal(n)) == if n <= MAX_INT64 then Some(n) else None
  {
    hide Decimal;
    hide DigitsValue;
    DecimalIsNumeral(n);
    assert IsDigit(Decimal(n)[0]);
  }

  function PreTail(pre: string): string { if pre == "" then "" else "-" + pre }

  function VersionCore(v: SemVersion, build: string): Core
    requires v.major >= 0 && v.minor >= 0 && v.patch >= 0
  {
    Core(Decimal(v.major), Decimal(v.minor), Decimal(v.patch), PreTail(v.pre) + build)
  }

  lemma TailRoundTrip(pre: string, build: string)
    requires Words(pre) && IsBuild(build)
    ensures ParseTail(PreTail(pre) + build) == Some(pre)
  {
    hide TakeWords;
    if pre != "" {
      assert (PreTail(pre) + build)[1..] == pre + build;
      TakeWordsOf(pre, build);
    } else {
      assert PreTail(pre) + build == build;
    }
  }

  lemma LastNotSpace(v: SemVersion, build: string)
    requires v.major >= 0 && v.minor >= 0 && v.patch >= 0 && Words(v.pre) && IsBuild(build)
    ensures WellFormed(VersionCore(v, build))
    ensures var s := CoreText(VersionCore(v, build)); s != "" && IsDigit(s[0]) && !IsSpace(s[|s| - 1])
  {
    hide Decimal;
    DecimalIsNumeral(v.major);
    DecimalIsNumeral(v.minor);
    DecimalIsNumeral(v.patch);
    var c := VersionCore(v, build);
    var s := CoreText(c);
    var tail := c.patch + c.rest;
    assert s == c.major + "." + (c.minor + ".") + tail;
    assert s[|s| - 1] == tail[|tail| - 1];
    assert s[0] == c.major[0];
    assert IsWord(tail[|tail| - 1]);
  }

  predicate CoreFits(v: SemVersion) { v.major <= MAX_INT64 && v.minor <= MAX_INT64 && v.patch <= MAX_INT64 }

  /**
   Printing and parsing is the identity, a leading v and build metadata dropped, unless one of the
   three numbers exceeds int64, which is an error. Numbers in the pre-release are never parsed.
   */
  lemma ParseRoundTrip(v: SemVersion, prefix: string, build: string)
    requires 0 <= v.major && 0 <= v.minor && 0 <= v.patch
    requires Words(v.pre) && IsBuild(build) && prefix in {"", "v", "V"}
    ensures ParseSemVersion(prefix + CoreText(VersionCore(v, build))) == if CoreFits(v) then Some(v) else None
  {
    hide TrimSpace;
    hide TakeCore;
    hide CoreText;
    hide Decimal;
    hide ParseTail;
    hide ParsePart;
    hide PreTail;
    hide IsBuild;
    var c := VersionCore(v, build);
    var s := CoreText(c);
    LastNotSpace(v, build);
    TrimNothing(prefix + s);
    TakeCoreOf(c);
    PartOf(v.major);
    PartOf(v.minor);
    PartOf(v.patch);
    TailRoundTrip(v.pre, build);
    assert HasV(prefix + s) <==> prefix != "";
    assert (prefix + s)[|prefix|..] == s;
    assert prefix == "" ==> prefix + s == s;
  }

  // ----- only version texts are parsed

  lemma {:induction false} TakeDigitsSplit(s: string)
    ensures var (digits, rest) := TakeDigits(s); s == digits + rest && (rest != "" ==> !IsDigit(rest[0]))
  {
    if s != "" && IsDigit(s[0]) {
      TakeDigitsSplit(s[1..]);
      assert s == [s[0]] + s[1..];
    }
  }

  lemma {:induction false} TakeWordsSplit(s: string)
    ensures var (words, rest) := TakeWords(s); s == words + rest && Words(words)
  {
    if s != "" && IsWord(s[0]) {
      TakeWordsSplit(s[1..]);
      assert s == [s[0]] + s[1..];
    }
  }

  lemma TakeDottedSplit(s: string)
    requires TakeDotted(s).Some?
    ensures var (digits, rest) := TakeDotted(s).value; s == digits + "." + rest && digits != "" && AllDigits(digits)
  {
    TakeDigitsSplit(s);
  }

  lemma TakeCoreSplit(s: string)
    requires TakeCore(s).Some?
    ensures WellFormed(TakeCore(s).value) && s == CoreText(TakeCore(s).value)
  {
    hide TakeDotted;
    hide TakeDigits;
    var (major, afterMajor) := TakeDotted(s).value;
    var (minor, afterMinor) := TakeDotted(afterMajor).value;
    TakeDottedSplit(s);
    TakeDottedSplit(afterMajor);
    TakeDigitsSplit(afterMinor);
  }

  lemma PartSplit(s: string)
    requires ParsePart(s).Some?
    ensures ParsePart(s).value >= 0 && s == Decimal(ParsePart(s).value)
  {
    var n := ParsePart(s).value;
    assert IsDigit(s[0]);
    hide Decimal;
    DecimalIsNumeral(n);
    NumeralInjective(s, Decimal(n));
  }

  lemma TailSplit(s: string)
    requires ParseTail(s).Some?
    ensures Words(ParseTail(s).value)
    ensures exists build :: IsBuild(build) && s == PreTail(ParseTail(s).value) + build
  {
    hide TakeWords;
    if s != "" && s[0] == '-' {
      TakeWordsSplit(s[1..]);
      hide Words;
      hide IsBuild;
      var (pre, build) := TakeWords(s[1..]);
      assert s == ("-" + pre) + build;
    } else {
      hide IsBuild;
      assert s == PreTail("") + s;
    }
  }

  /** s is x.y.z with its pre-release, an optional leading v and optional build metadata. */
  ghost predicate Denotes(s: string, v: SemVersion)
  {
    && 0 <= v.major && 0 <= v.minor && 0 <= v.patch && (forall k | 0 <= k < |v.pre| :: IsWord(v.pre[k]))
    && exists prefix: string, build: string :: prefix in {"", "v", "V"} && Builds(build)
         && s == prefix + Decimal(v.major) + "." + Decimal(v.minor) + "." + Decimal(v.patch)
                 + (if v.pre == "" then "" else "-" + v.pre) + build
  }

  /** A plus and at least one word character, or nothing. */
  predicate Builds(s: string)
  {
    s == "" || (|s| > 1 && s[0] == '+' && forall k | 1 <= k < |s| :: IsWord(s[k]))
  }

  lemma BuildsIff(s: string)
    ensures IsBuild(s) <==> Builds(s)
  {
    if Builds(s) && s != "" {
      forall k | 0 <= k < |s[1..]| ensures IsWord(s[1..][k]) {}
    }
    if IsBuild(s) && s != "" {
      forall k | 1 <= k < |s| ensures IsWord(s[k]) {
        assert s[k] == s[1..][k - 1];
      }
    }
  }

  lemma CoreTextFlat(prefix: string, v: SemVersion, build: string)
    requires 0 <= v.major && 0 <= v.minor && 0 <= v.patch
    ensures prefix + CoreText(VersionCore(v, build))
         == prefix + Decimal(v.major) + "." + Decimal(v.minor) + "." + Decimal(v.patch) + PreTail(v.pre) + build
  {
    hide Decimal;
    hide PreTail;
  }

  lemma TrimAgain(s: string)
    ensures TrimSpace(TrimSpace(s)) == TrimSpace(s)
  {
    TrimEnds(s);
    TrimNothing(TrimSpace(s));
  }

  lemma TakeV(t: string)
    ensures var prefix := if HasV(t) then t[..1] else "";
            prefix in {"", "v", "V"} && t == prefix + (if HasV(t) then t[1..] else t)
  {
    if HasV(t) {
      assert t[..1] == [t[0]];
    }
  }

  lemma CorePartsSplit(c: Core)
    requires ParsePart(c.major).Some? && ParsePart(c.minor).Some? && ParsePart(c.patch).Some?
    requires ParseTail(c.rest).Some?
    ensures var v := SemVersion(ParsePart(c.major).value, ParsePart(c.minor).value, ParsePart(c.patch).value,
                                ParseTail(c.rest).value);
            && 0 <= v.major && 0 <= v.minor && 0 <= v.patch && CoreFits(v) && Words(v.pre)
            && exists build :: IsBuild(build) && c == VersionCore(v, build)
  {
    hide Decimal;
    hide ParseTail;
    hide PreTail;
    hide IsBuild;
    hide Words;
    hide ParsePart;
    PartSplit(c.major);
    PartSplit(c.minor);
    PartSplit(c.patch);
    PartOf(ParsePart(c.major).value);
    PartOf(ParsePart(c.minor).value);
    PartOf(ParsePart(c.patch).value);
    TailSplit(c.rest);
    var build :| IsBuild(build) && c.rest == PreTail(ParseTail(c.rest).value) + build;
    assert c == VersionCore(SemVersion(ParsePart(c.major).value, ParsePart(c.minor).value, ParsePart(c.patch).value,
                                       ParseTail(c.rest).value), build);
  }

  lemma ParsesOnly(s: string)
    requires ParseSemVersion(s).Some?
    ensures Denotes(TrimSpace(s), ParseSemVersion(s).value) && CoreFits(ParseSemVersion(s).value)
  {
    hide TrimSpace;
    hide TakeCore;
    hide CoreText;
    hide Decimal;
    hide ParseTail;
    hide PreTail;
    hide IsBuild;
    hide Builds;
    hide IsWord;
    hide ParsePart;
    hide CoreFits;
    hide VersionCore;
    var t, v := TrimSpace(s), ParseSemVersion(s).value;
    TakeV(t);
    var prefix, core := if HasV(t) then t[..1] else "", if HasV(t) then t[1..] else t;
    var c := TakeCore(core).value;
    TakeCoreSplit(core);
    CorePartsSplit(c);
    var build :| IsBuild(build) && c == VersionCore(v, build);
    CoreTextFlat(prefix, v, build);
    BuildsIff(build);
    PreTailIs(v.pre);
  }

  lemma PreTailIs(pre: string)
    ensures PreTail(pre) == if pre == "" then "" else "-" + pre
  {}

  /**
   A text parses to a version exactly when, spaces around it dropped, it is that version written out with
   an optional v before and build metadata behind, and its three numbers fit in an int64.
   */
  lemma ParseIff(s: string, v: SemVersion)
    ensures ParseSemVersion(s) == Some(v) <==> Denotes(TrimSpace(s), v) && CoreFits(v)
  {
    hide TrimSpace;
    hide Denotes;
    hide CoreFits;
    if ParseSemVersion(s) == Some(v) {
      ParsesOnly(s);
    }
    if Denotes(TrimSpace(s), v) && CoreFits(v) {
      DenotedParses(TrimSpace(s), v);
      TrimAgain(s);
    }
  }

  lemma DenotedParses(s: string, v: SemVersion)
    requires Denotes(s, v) && CoreFits(v)
    ensures ParseSemVersion(s) == Some(v)
  {
    hide Decimal;
    hide PreTail;
    hide IsBuild;
    hide Builds;
    hide IsWord;
    hide CoreFits;
    hide ParseSemVersion;
    hide CoreText;
    var prefix: string, build: string :| prefix in {"", "v", "V"} && Builds(build)
      && s == prefix + Decimal(v.major) + "." + Decimal(v.minor) + "." + Decimal(v.patch)
              + (if v.pre == "" then "" else "-" + v.pre) + build;
    BuildsIff(build);
    PreTailIs(v.pre);
    assert Words(v.pre) by {
      assert forall k | 0 <= k < |v.pre| :: IsWord(v.pre[k]);
    }
    CoreTextFlat(prefix, v, build);
    ParseRoundTrip(v, prefix, build);
  }

  // ----- normalizeBetaVersion

  datatype Tag = Alpha | Beta | Candidate

  function TagText(t: Tag): string
  {
    match t
    case Alpha => "a"
    case Beta => "b"
    case Candidate => "rc"
  }

  /** The tag at the front of s, and what follows it. */
  function TakeTag(s: string): Option<(Tag, string)>
  {
    if s != "" && s[0] == 'a' then Some((Alpha, s[1..]))
    else if s != "" && s[0] == 'b' then Some((Beta, s[1..]))
    else if |s| > 1 && s[0] == 'r' && s[1] == 'c' then Some((Candidate, s[2..]))
    else None
  }

  lemma TakeTagOf(t: Tag, rest: string)
    ensures TakeTag(TagText(t) + rest) == Some((t, rest))
  {}

  /** The tag and number of a compact pre-release suffix, and what follows. */
  function TakeSuffix(s: string): Option<(Tag, string, string)>
  {
    match TakeTag(s)
    case None => None
    case Some((tag, afterTag)) =>
      var (number, rest) := TakeDigits(afterTag);
      if number == "" then None else Some((tag, number, rest))
  }

  lemma TakeSuffixOf(t: Tag, number: string, rest: string)
    requires number != "" && AllDigits(number) && (rest != "" ==> !IsDigit(rest[0]))
    ensures TakeSuffix(TagText(t) + (number + rest)) == Some((t, number, rest))
  {
    hide TakeTag;
    hide TakeDigits;
    TakeTagOf(t, number + rest);
    TakeDigitsOf(number, rest);
  }

  function Normalize(s: string): string
  {
    var t := TrimSpace(s);
    var v := if HasV(t) then t[..1] else "";
    match TakeCore(t[|v|..])
    case None => t
    case Some(c) =>
      match TakeSuffix(c.rest)
      case None => t
      case Some((tag, number, rest)) =>
        if '\n' in rest then t
        else v + CoreText(c.(rest := "-" + TagText(tag) + "." + number + rest))
  }

  /** A core as the pattern sees it: x.y.z in digits, with an optional v before. */
  ghost predicate Compactly(s: string, prefix: string, c: Core, tag: Tag, number: string, rest: string)
  {
    && prefix in {"", "v", "V"} && WellFormed(c) && number != "" && AllDigits(number) && '\n' !in rest
    && (rest != "" ==> !IsDigit(rest[0]))
    && c.rest == TagText(tag) + (number + rest)
    && s == prefix + CoreText(c)
  }

  lemma CompactSplit(s: string)
    requires Normalize(s) != TrimSpace(s)
    ensures exists prefix, c, tag, number, rest :: Compactly(TrimSpace(s), prefix, c, tag, number, rest)
  {
    hide TakeCore;
    hide TakeTag;
    hide CoreText;
    hide WellFormed;
    hide TrimSpace;
    hide TagText;
    var t := TrimSpace(s);
    TakeV(t);
    var v := if HasV(t) then t[..1] else "";
    var c := TakeCore(t[|v|..]).value;
    TakeCoreSplit(t[|v|..]);
    var (tag, number, rest) := TakeSuffix(c.rest).value;
    TagSplit(c.rest);
    TakeDigitsSplit(TakeTag(c.rest).value.1);
    assert Compactly(t, v, c, tag, number, rest);
  }

  lemma TagSplit(s: string)
    requires TakeTag(s).Some?
    ensures s == TagText(TakeTag(s).value.0) + TakeTag(s).value.1
  {}

  lemma VFree(c: Core, prefix: string)
    requires WellFormed(c) && prefix in {"", "v", "V"}
    ensures HasV(prefix + CoreText(c)) <==> prefix != ""
    ensures (prefix + CoreText(c))[|prefix|..] == CoreText(c)
    ensures prefix != "" ==> (prefix + CoreText(c))[..1] == prefix
  {
    assert CoreText(c)[0] == c.major[0] && IsDigit(c.major[0]);
    if prefix == "" {
      assert prefix + CoreText(c) == CoreText(c);
    }
  }

  /**
   Exactly the texts of the form x.y.z, tag, digits and a rest in one line are rewritten, whatever white
   space surrounds them: a hyphen goes before the tag and a dot after it. Other texts are only trimmed.
   */
  lemma NormalizeIff(s: string)
    ensures forall prefix, c, tag, number, rest | Compactly(TrimSpace(s), prefix, c, tag, number, rest) ::
              Normalize(s) == prefix + CoreText(c.(rest := "-" + TagText(tag) + "." + number + rest))
    ensures Normalize(s) == TrimSpace(s)
         || exists prefix, c, tag, number, rest :: Compactly(TrimSpace(s), prefix, c, tag, number, rest)
  {
    hide TakeCore;
    hide TakeSuffix;
    hide CoreText;
    hide TrimSpace;
    hide TagText;
    hide WellFormed;
    forall prefix, c, tag, number, rest | Compactly(TrimSpace(s), prefix, c, tag, number, rest)
      ensures Normalize(s) == prefix + CoreText(c.(rest := "-" + TagText(tag) + "." + number + rest))
    {
      VFree(c, prefix);
      TakeCoreOf(c);
      TakeSuffixOf(tag, number, rest);
    }
    if Normalize(s) != TrimSpace(s) {
      CompactSplit(s);
    }
  }

  // ----- MatchVersionRange

  datatype Operator = AtLeast | AtMost | Above | Below | Exactly

  datatype RangeError = InvalidVersion | EmptyComparator | InvalidComparator

  datatype Match = Accepted | Rejected | Failed(error: RangeError)

  /** The comparator's operator and its operand; two-character operators are tried first. */
  function TakeOperator(part: string): (Operator, string)
  {
    if |part| > 1 && part[0] == '>' && part[1] == '=' then (AtLeast, TrimSpace(part[2..]))
    else if |part| > 1 && part[0] == '<' && part[1] == '=' then (AtMost, TrimSpace(part[2..]))
    else if part != "" && part[0] == '>' then (Above, TrimSpace(part[1..]))
    else if part != "" && part[0] == '<' then (Below, TrimSpace(part[1..]))
    else if part != "" && part[0] == '=' then (Exactly, TrimSpace(part[1..]))
    else (Exactly, part)
  }

  predicate Holds(op: Operator, comparison: int)
  {
    match op
    case AtLeast => comparison >= 0
    case AtMost => comparison <= 0
    case Above => comparison > 0
    case Below => comparison < 0
    case Exactly => comparison == 0
  }

  /** The version a comparator names. */
  function Target(raw: string): Option<SemVersion>
  {
    ParseSemVersion(Normalize(TakeOperator(TrimSpace(raw)).1))
  }

  function MatchOne(v: SemVersion, raw: string): Match
  {
    if TrimSpace(raw) == "" then Failed(EmptyComparator)
    else
      match Target(raw)
      case None => Failed(InvalidComparator)
      case Some(target) =>
        if Holds(TakeOperator(TrimSpace(raw)).0, Compare(v, target)) then Accepted else Rejected
  }

  /** The first comparator that is not accepted decides. */
  function MatchAll(v: SemVersion, raws: seq<string>): Match
  {
    if raws == [] then Accepted
    else if MatchOne(v, raws[0]) != Accepted then MatchOne(v, raws[0])
    else MatchAll(v, raws[1..])
  }

  function Comparators(range: string): seq<string>
  {
    var r := TrimSpace(range);
    if r == "" || r == "*" then [] else Split(r, ',')
  }

  function MatchText(version: string, range: string): Match
  {
    match ParseSemVersion(Normalize(version))
    case None => Failed(InvalidVersion)
    case Some(v) => MatchAll(v, Comparators(range))
  }

  method MatchVersionRange(version: string, range: string) returns (r: Match)
    ensures r == MatchText(version, range)
  {
    hide Normalize;
    hide ParseSemVersion;
    hide TrimSpace;
    hide Split;
    hide Compare;
    hide TakeOperator;
    hide Holds;
    var normalized := Normalize(version);
    var parsed := ParseSemVersion(normalized);
    if parsed.None? {
      return Failed(InvalidVersion);
    }
    var v := parsed.value;
    var trimmed := TrimSpace(range);
    if trimmed == "" || trimmed == "*" {
      return Accepted;
    }
    var raws := Split(trimmed, ',');
    var i := 0;
    while i < |raws|
      invariant i <= |raws|
      invariant MatchAll(v, raws) == MatchAll(v, raws[i..])
    {
      var part := TrimSpace(raws[i]);
      if part == "" {
        return Failed(EmptyComparator);
      }
      var (op, operand) := TakeOperator(part);
      var target := ParseSemVersion(Normalize(operand));
      if target.None? {
        return Failed(InvalidComparator);
      }
      if !Holds(op, Compare(v, target.value)) {
        return Rejected;
      }
      i := i + 1;
    }
    return Accepted;
  }

  // ----- what a range accepts

  /** A range accepts what every comparator accepts; otherwise the first one that does not decides. */
  lemma {:induction false} MatchAllIff(v: SemVersion, raws: seq<string>)
    ensures MatchAll(v, raws) == Accepted <==> forall i | 0 <= i < |raws| :: MatchOne(v, raws[i]) == Accepted
    ensures MatchAll(v, raws) == Accepted
         || exists i :: 0 <= i < |raws| && MatchAll(v, raws) == MatchOne(v, raws[i])
                        && forall j | 0 <= j < i :: MatchOne(v, raws[j]) == Accepted
  {
    hide MatchOne;
    if raws != [] {
      MatchAllIff(v, raws[1..]);
      assert raws == [raws[0]] + raws[1..];
      if MatchOne(v, raws[0]) == Accepted && MatchAll(v, raws) != Accepted {
        var i :| 0 <= i < |raws[1..]| && MatchAll(v, raws[1..]) == MatchOne(v, raws[1..][i])
                 && forall j | 0 <= j < i :: MatchOne(v, raws[1..][j]) == Accepted;
        assert MatchAll(v, raws) == MatchOne(v, raws[i + 1]);
        forall j | 0 <= j < i + 1 ensures MatchOne(v, raws[j]) == Accepted {
          assert j > 0 ==> raws[j] == raws[1..][j - 1];
        }
      }
    }
  }

  lemma NoTag(pre: string)
    ensures TakeSuffix(PreTail(pre) + "").None?
  {
    assert pre != "" ==> (PreTail(pre) + "")[0] == '-';
  }

  /** A version text in the spelling of Semantic Versioning is already normal. */
  lemma NormalAlready(t: SemVersion)
    requires t.major >= 0 && t.minor >= 0 && t.patch >= 0 && Words(t.pre)
    ensures var s := CoreText(VersionCore(t, ""));
            s != "" && IsDigit(s[0]) && !IsSpace(s[|s| - 1]) && TrimSpace(s) == s && Normalize(s) == s
  {
    hide TrimSpace;
    hide TakeCore;
    hide CoreText;
    hide Decimal;
    var s := CoreText(VersionCore(t, ""));
    LastNotSpace(t, "");
    TrimNothing(s);
    TakeCoreOf(VersionCore(t, ""));
    NoTag(t.pre);
    assert s[0..] == s;
  }

  /** part is an operator, or none, and a version, with white space around either. */
  ghost predicate IsComparator(part: string, op: string, t: SemVersion)
  {
    && op in {">=", "<=", ">", "<", "=", ""}
    && 0 <= t.major && 0 <= t.minor && 0 <= t.patch && CoreFits(t) && Words(t.pre)
    && exists l: string, m: string, r: string :: AllSpace(l) && AllSpace(m) && AllSpace(r)
         && part == l + (op + m + CoreText(VersionCore(t, ""))) + r
  }

  lemma OperatorOf(op: string, m: string, s: string)
    requires op in {">=", "<=", ">", "<", "="} && AllSpace(m)
    requires s != "" && IsDigit(s[0]) && !IsSpace(s[|s| - 1])
    ensures var part := op + m + s;
            && TakeOperator(part).1 == s && TrimSpace(m + s) == s
            && TakeOperator(part).0 == match op case ">=" => AtLeast case "<=" => AtMost case ">" => Above
                                                case "<" => Below case _ => Exactly
  {
    hide TrimSpace;
    var part := op + m + s;
    TrimPadded(m, s, "");
    assert m + s + "" == m + s;
    assert part[|op|..] == m + s;
    assert part[|op|] != '=' by {
      assert part[|op|] == (m + s)[0];
    }
  }

  lemma PaddedOperand(v: SemVersion, op: string, m: string, s: string, l: string, r: string)
    requires op in {">=", "<=", ">", "<", "=", ""} && AllSpace(l) && AllSpace(m) && AllSpace(r)
    requires s != "" && IsDigit(s[0]) && !IsSpace(s[|s| - 1])
    ensures var part := TrimSpace(l + (op + m + s) + r);
            part != "" && TakeOperator(part) == (match op case ">=" => AtLeast case "<=" => AtMost case ">" => Above
                                                 case "<" => Below case _ => Exactly, s)
  {
    hide TrimSpace;
    if op == "" {
      TrimPadded(l + m, s, r);
      assert l + (op + m + s) + r == l + m + s + r;
    } else {
      TrimPadded(l, op + m + s, r);
      OperatorOf(op, m, s);
    }
  }

  /** What each operator before a version means; without an operator the version itself is meant. */
  lemma ComparatorMeaning(v: SemVersion, t: SemVersion, op: string, part: string)
    requires IsComparator(part, op, t)
    ensures var m, c := MatchOne(v, part), Compare(v, t);
            && m in {Accepted, Rejected}
            && (op == ">=" ==> (m == Accepted <==> c >= 0)) && (op == "<=" ==> (m == Accepted <==> c <= 0))
            && (op == ">" ==> (m == Accepted <==> c > 0)) && (op == "<" ==> (m == Accepted <==> c < 0))
            && (op == "=" || op == "" ==> (m == Accepted <==> c == 0))
  {
    hide TrimSpace;
    hide CoreText;
    hide Normalize;
    hide ParseSemVersion;
    hide Compare;
    hide VersionCore;
    hide CoreFits;
    hide TakeOperator;
    hide Words;
    var s := CoreText(VersionCore(t, ""));
    NormalAlready(t);
    ParseRoundTrip(t, "", "");
    assert "" + s == s;
    var l: string, m: string, r: string :| AllSpace(l) && AllSpace(m) && AllSpace(r) && part == l + (op + m + s) + r;
    PaddedOperand(v, op, m, s, l, r);
  }

  lemma SpaceOrWord(c: char)
    ensures IsSpace(c) || IsWord(c) ==> c != ',' && c != '*'
  {}

  /** A comparator has a dot and no comma. */
  lemma ComparatorCharacters(part: string, op: string, t: SemVersion)
    requires IsComparator(part, op, t)
    ensures ',' !in part && '.' in part
  {
    hide IsSpace;
    hide IsWord;
    hide Decimal;
    hide CoreFits;
    SpaceOrWord(',');
    var l: string, m: string, r: string :| AllSpace(l) && AllSpace(m) && AllSpace(r)
      && part == l + (op + m + CoreText(VersionCore(t, ""))) + r;
    VersionCharacters(t);
    assert ',' !in op;
  }

  lemma VersionCharacters(t: SemVersion)
    requires 0 <= t.major && 0 <= t.minor && 0 <= t.patch && Words(t.pre)
    ensures ',' !in CoreText(VersionCore(t, "")) && '.' in CoreText(VersionCore(t, ""))
  {
    hide Decimal;
    SpaceOrWord(',');
    DecimalIsNumeral(t.major);
    DecimalIsNumeral(t.minor);
    DecimalIsNumeral(t.patch);
    assert ',' !in PreTail(t.pre) + "" by {
      hide IsWord;
    }
    CoreTextFlat("", t, "");
  }

  lemma {:induction false} JoinContains(parts: seq<string>, separator: char, c: char)
    requires parts != [] && c in parts[0]
    ensures c in Join(parts, separator)
  {}

  /**
   The range language: comparators separated by commas, white space anywhere around them, accept exactly
   the versions that stand in the named order to every version they name.
   */
  lemma RangeAccepts(
    version: string, range: string, v: SemVersion, parts: seq<string>, ops: seq<string>, ts: seq<SemVersion>)
    requires ParseSemVersion(Normalize(version)) == Some(v)
    requires parts != [] && |parts| == |ops| == |ts| && TrimSpace(range) == Join(parts, ',')
    requires forall i | 0 <= i < |parts| :: IsComparator(parts[i], ops[i], ts[i])
    ensures MatchText(version, range) in {Accepted, Rejected}
    ensures MatchText(version, range) == Accepted
       <==> forall i | 0 <= i < |parts| ::
              var op, c := ops[i], Compare(v, ts[i]);
              && (op == ">=" ==> c >= 0) && (op == "<=" ==> c <= 0) && (op == ">" ==> c > 0)
              && (op == "<" ==> c < 0) && (op == "=" || op == "" ==> c == 0)
  {
    hide TrimSpace;
    hide Normalize;
    hide ParseSemVersion;
    hide Compare;
    hide MatchOne;
    hide IsComparator;
    hide Split;
    hide Join;
    forall i | 0 <= i < |parts| ensures ',' !in parts[i] && '.' in parts[i] {
      ComparatorCharacters(parts[i], ops[i], ts[i]);
    }
    JoinContains(parts, ',', '.');
    SplitJoin(parts, ',');
    assert '.' !in "*" && '.' !in "";
    MatchAllIff(v, parts);
    forall i | 0 <= i < |parts|
      ensures MatchOne(v, parts[i]) in {Accepted, Rejected}
      ensures var op, c := ops[i], Compare(v, ts[i]);
              MatchOne(v, parts[i]) == Accepted
              <==> (op == ">=" ==> c >= 0) && (op == "<=" ==> c <= 0) && (op == ">" ==> c > 0)
                   && (op == "<" ==> c < 0) && (op == "=" || op == "" ==> c == 0)
    {
      ComparatorMeaning(v, ts[i], ops[i], parts[i]);
      OperatorKnown(parts[i], ops[i], ts[i]);
    }
  }

  lemma OperatorKnown(part: string, op: string, t: SemVersion)
    requires IsComparator(part, op, t)
    ensures op in {">=", "<=", ">", "<", "=", ""}
  {}

  /** An empty range and a star accept every version, and a version text that is none is an error before that. */
  lemma WildcardAccepts(version: string, l: string, r: string, range: string)
    requires AllSpace(l) && AllSpace(r) && (range == l + r || range == l + "*" + r)
    ensures MatchText(version, range)
         == if ParseSemVersion(Normalize(version)).Some? then Accepted else Failed(InvalidVersion)
  {
    hide TrimSpace;
    hide Normalize;
    hide ParseSemVersion;
    TrimPadded(l, "", r);
    TrimPadded(l, "*", r);
    assert l + "" + r == l + r;
  }

  /** A blank comparator and one that names no version are errors. */
  lemma ComparatorErrors(v: SemVersion, raw: string)
    ensures MatchOne(v, raw) == Failed(EmptyComparator) <==> AllSpace(raw)
    ensures MatchOne(v, raw) == Failed(InvalidComparator) <==> !AllSpace(raw) && Target(raw).None?
  {
    hide Target;
    hide TakeOperator;
    hide Compare;
    TrimEmpty(raw);
  }

  lemma MatchOneConvex(u: SemVersion, v: SemVersion, w: SemVersion, raw: string)
    requires Compare(u, v) <= 0 && Compare(v, w) <= 0
    requires MatchOne(u, raw) == Accepted && MatchOne(w, raw) == Accepted
    ensures MatchOne(v, raw) == Accepted
  {
    hide Compare;
    hide Target;
    hide TrimSpace;
    hide TakeOperator;
    var t := Target(raw).value;
    CompareOrder(u, v, t);
    CompareOrder(v, w, t);
    CompareOrder(u, t, t);
    CompareOrder(v, t, t);
    CompareOrder(w, t, t);
  }

  /** The versions a range accepts form a convex set, whatever the versions and the range. */
  lemma RangeConvex(u: SemVersion, v: SemVersion, w: SemVersion, range: string)
    requires Compare(u, v) <= 0 && Compare(v, w) <= 0
    requires MatchAll(u, Comparators(range)) == Accepted && MatchAll(w, Comparators(range)) == Accepted
    ensures MatchAll(v, Comparators(range)) == Accepted
  {
    hide Compare;
    hide Target;
    hide MatchOne;
    var raws := Comparators(range);
    MatchAllIff(u, raws);
    MatchAllIff(v, raws);
    MatchAllIff(w, raws);
    forall i | 0 <= i < |raws| ensures MatchOne(v, raws[i]) == Accepted {
      MatchOneConvex(u, v, w, raws[i]);
    }
  }
}
