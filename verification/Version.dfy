/** The `version = "x.y.z"` lines of `src/merge_driver.rs` and the order on versions. */
module Version {
  import opened Text
  import opened Numbers

  datatype Version = Version(major: nat, minor: nat, patch: nat)

  // ---------- The order: tuples of numbers, compared from the left ----------

  predicate Less(a: Version, b: Version) {
    || a.major < b.major
    || (a.major == b.major && a.minor < b.minor)
    || (a.major == b.major && a.minor == b.minor && a.patch < b.patch)
  }

  predicate AtLeast(a: Version, b: Version) {
    !Less(a, b)
  }

  // ---------- Version lines ----------

  function StripPrefix(s: string, prefix: string): Option<string> {
    if StartsWith(s, prefix) then Some(s[|prefix|..]) else None
  }

  function StripQuote(s: string): Option<string> {
    if s != "" && s[|s| - 1] == '"' then Some(s[..|s| - 1]) else None
  }

  function ParseTriple(inner: string): Option<Version> {
    var parts := SplitOn(inner, '.');
    if |parts| != 3 then None
    else
      var major, minor, patch := ParseU64(parts[0]), ParseU64(parts[1]), ParseU64(parts[2]);
      if major.None? || minor.None? || patch.None? then None
      else Some(Version(major.value, minor.value, patch.value))
  }

  function ParseQuoted(afterSign: string): Option<Version> {
    match StripPrefix(TrimStart(afterSign), "\"")
    case None => None
    case Some(quoted) =>
      match StripQuote(quoted)
      case None => None
      case Some(inner) => ParseTriple(inner)
  }

  function ParseAssigned(afterName: string): Option<Version> {
    match StripPrefix(TrimStart(afterName), "=")
    case None => None
    case Some(afterSign) => ParseQuoted(afterSign)
  }

  /** `parse_version_line`. */
  function ParseVersionLine(line: string): Option<Version> {
    match StripPrefix(Trim(line), "version")
    case None => None
    case Some(afterName) => ParseAssigned(afterName)
  }

  /** A numeral the program reads: digits below 2^64, leading zeros and one plus sign allowed. */
  predicate IsNumeral(x: string) {
    ParseU64(x).Some?
  }

  function Triple(x: string, y: string, z: string): string {
    x + "." + y + "." + z
  }

  /** A version line with any spacing where the format allows it. */
  function VersionLine(before: string, left: string, right: string, after: string, inner: string): string {
    before + "version" + left + "=" + right + "\"" + inner + "\"" + after
  }

  /** The spaces and numerals of a version line. */
  datatype Pieces = Pieces(before: string, left: string, right: string, after: string, x: string, y: string, z: string)
  {
    function Line(): string {
      VersionLine(before, left, right, after, Triple(x, y, z))
    }
  }

  predicate Carries(p: Pieces, v: Version) {
    && IsBlank(p.before) && IsBlank(p.left) && IsBlank(p.right) && IsBlank(p.after)
    && ParseU64(p.x) == Some(v.major) && ParseU64(p.y) == Some(v.minor) && ParseU64(p.z) == Some(v.patch)
  }

  /** The lines that carry version `v`. */
  ghost predicate IsVersionLine(line: string, v: Version) {
    exists p: Pieces :: Carries(p, v) && line == p.Line()
  }

  lemma ParseOfTriple(x: string, y: string, z: string)
    requires IsNumeral(x) && IsNumeral(y) && IsNumeral(z)
    ensures ParseTriple(Triple(x, y, z))
         == Some(Version(ParseU64(x).value, ParseU64(y).value, ParseU64(z).value))
  {
    hide ParseU64, SplitOn;
    NoDot(x);
    NoDot(y);
    NoDot(z);
    SplitOnJoin([x, y, z], '.');
    JoinThree(x, y, z, ".");
  }

  lemma NoDot(x: string)
    requires IsNumeral(x)
    ensures '.' !in x
  {
    assert forall i :: 0 <= i < |x| ==> x[i] == '+' || IsDigit(x[i]) by {
      if x[0] == '+' {
        assert forall i :: 1 <= i < |x| ==> x[1..][i - 1] == x[i];
      }
    }
  }

  lemma TripleOfParse(inner: string) returns (x: string, y: string, z: string)
    requires ParseTriple(inner).Some?
    ensures inner == Triple(x, y, z)
    ensures ParseU64(x) == Some(ParseTriple(inner).value.major)
    ensures ParseU64(y) == Some(ParseTriple(inner).value.minor)
    ensures ParseU64(z) == Some(ParseTriple(inner).value.patch)
  {
    hide ParseU64, SplitOn;
    var parts := SplitOn(inner, '.');
    JoinSplit(inner, '.');
    x, y, z := parts[0], parts[1], parts[2];
    assert parts == [x, y, z];
    JoinThree(x, y, z, ".");
  }

  lemma JoinThree(x: string, y: string, z: string, sep: string)
    ensures Join([x, y, z], sep) == x + sep + y + sep + z
  {
    assert [x, y, z][1..] == [y, z] && [y, z][1..] == [z];
    assert Join([y, z], sep) == y + sep + z;
    assert x + sep + (y + sep + z) == x + sep + y + sep + z;
  }

  lemma {:induction false} TrimStartSkips(blank: string, s: string)
    requires IsBlank(blank) && s != "" && !IsWhitespace(s[0])
    ensures TrimStart(blank + s) == s
  {
    if blank == "" {
      assert blank + s == s;
    } else {
      assert (blank + s)[1..] == blank[1..] + s;
      TrimStartSkips(blank[1..], s);
    }
  }

  lemma {:induction false} TrimEndSkips(s: string, blank: string)
    requires IsBlank(blank) && s != "" && !IsWhitespace(s[|s| - 1])
    ensures TrimEnd(s + blank) == s
  {
    if blank == "" {
      assert s + blank == s;
    } else {
      assert (s + blank)[..|s + blank| - 1] == s + blank[..|blank| - 1];
      TrimEndSkips(s, blank[..|blank| - 1]);
    }
  }

  /** Every spacing of a version line parses as what its quotes hold does. */
  lemma VersionLineParses(before: string, left: string, right: string, after: string, inner: string)
    requires IsBlank(before) && IsBlank(left) && IsBlank(right) && IsBlank(after)
    ensures ParseVersionLine(VersionLine(before, left, right, after, inner)) == ParseTriple(inner)
  {
    hide *;
    Letters();
    var tail := left + "=" + right + "\"" + inner + "\"";
    var core := "version" + tail;
    assert VersionLine(before, left, right, after, inner) == before + (core + after) by {
      LineIs(before, left, right, after, inner);
    }
    TrimStartSkips(before, core + after);
    TrimEndSkips(core, after);
    StripOwn("version", tail);
    AssignedParses(left, right, inner);
    ParseStep(before + (core + after), core, tail);
  }

  lemma LineIs(before: string, left: string, right: string, after: string, inner: string)
    ensures VersionLine(before, left, right, after, inner)
         == before + ("version" + (left + "=" + right + "\"" + inner + "\"") + after)
  {
  }

  lemma ParseStep(line: string, core: string, tail: string)
    requires TrimEnd(TrimStart(line)) == core && StripPrefix(core, "version") == Some(tail)
    ensures ParseVersionLine(line) == ParseAssigned(tail)
  {
  }

  lemma AssignedParses(left: string, right: string, inner: string)
    requires IsBlank(left) && IsBlank(right)
    ensures ParseAssigned(left + "=" + right + "\"" + inner + "\"") == ParseTriple(inner)
  {
    hide ParseTriple, IsWhitespace, IsBlank, TrimStart, StripPrefix, StripQuote;
    Letters();
    var closed := inner + "\"";
    var quoted := "\"" + closed;
    var value := "=" + (right + quoted);
    assert left + "=" + right + "\"" + inner + "\"" == left + value;
    TrimStartSkips(left, value);
    StripOwn("=", right + quoted);
    TrimStartSkips(right, quoted);
    StripOwn("\"", closed);
    StripOwnQuote(inner);
  }

  /** Nothing else parses. */
  lemma ParsedLineIs(line: string) returns (before: string, left: string, right: string, after: string, inner: string)
    requires ParseVersionLine(line).Some?
    ensures IsBlank(before) && IsBlank(left) && IsBlank(right) && IsBlank(after)
    ensures line == VersionLine(before, left, right, after, inner) && ParseVersionLine(line) == ParseTriple(inner)
  {
    hide *;
    var core, tail;
    before, core, after := TrimSplits(line);
    tail := ParsePrefix(line);
    left, right, inner := AssignedIs(tail);
    assert core == "version" + tail;
    LineIs(before, left, right, after, inner);
  }

  lemma TrimSplits(line: string) returns (before: string, core: string, after: string)
    ensures core == Trim(line) && line == before + (core + after) && IsBlank(before) && IsBlank(after)
  {
    hide IsBlank;
    var front := TrimStart(line);
    core := TrimEnd(front);
    before, after := line[..|line| - |front|], front[|core|..];
    Splits(line, |before|);
    Splits(front, |core|);
  }

  lemma Splits(s: string, n: nat)
    requires n <= |s|
    ensures s == s[..n] + s[n..]
  {
  }

  lemma ParsePrefix(line: string) returns (tail: string)
    requires ParseVersionLine(line).Some?
    ensures Trim(line) == "version" + tail && ParseVersionLine(line) == ParseAssigned(tail)
  {
    hide ParseAssigned, Trim;
    tail := Trim(line)[|"version"|..];
    PrefixIs(Trim(line), "version");
  }

  lemma PrefixIs(s: string, prefix: string)
    requires StripPrefix(s, prefix).Some?
    ensures s == prefix + StripPrefix(s, prefix).value
  {
  }

  lemma AssignedIs(tail: string) returns (left: string, right: string, inner: string)
    requires ParseAssigned(tail).Some?
    ensures IsBlank(left) && IsBlank(right)
    ensures tail == left + "=" + right + "\"" + inner + "\"" && ParseAssigned(tail) == ParseTriple(inner)
  {
    hide ParseTriple, IsBlank, TrimStart, StripPrefix;
    var value := TrimStart(tail);
    left := tail[..|tail| - |value|];
    PrefixIs(value, "=");
    var afterSign := StripPrefix(value, "=").value;
    var quoted := TrimStart(afterSign);
    right := afterSign[..|afterSign| - |quoted|];
    PrefixIs(quoted, "\"");
    var closed := StripPrefix(quoted, "\"").value;
    inner := StripQuote(closed).value;
    assert closed == inner + "\"";
    assert tail == left + ("=" + (right + ("\"" + (inner + "\""))));
  }

  /** A line parses to a version exactly when it is one of the spacings of its numerals, plus signs and leading zeros
      included. */
  lemma ParsesExactlyVersionLines(line: string, v: Version)
    ensures ParseVersionLine(line) == Some(v) <==> IsVersionLine(line, v)
  {
    hide ParseTriple, Triple, ParseU64, ParseVersionLine, IsBlank, VersionLine, Carries;
    if ParseVersionLine(line) == Some(v) {
      var p := CarriedPieces(line, v);
    }
    if IsVersionLine(line, v) {
      var p: Pieces :| Carries(p, v) && line == p.Line();
      CarriedParses(p, v);
    }
  }

  lemma CarriedPieces(line: string, v: Version) returns (p: Pieces)
    requires ParseVersionLine(line) == Some(v)
    ensures Carries(p, v) && line == p.Line()
  {
    hide ParseTriple, Triple, ParseU64, ParseVersionLine, IsBlank, VersionLine;
    var before, left, right, after, inner := ParsedLineIs(line);
    var x, y, z := TripleOfParse(inner);
    p := Pieces(before, left, right, after, x, y, z);
  }

  lemma CarriedParses(p: Pieces, v: Version)
    requires Carries(p, v)
    ensures ParseVersionLine(p.Line()) == Some(v)
  {
    hide VersionLine, Triple, ParseU64, IsBlank, ParseVersionLine, ParseTriple;
    ParseOfTriple(p.x, p.y, p.z);
    VersionLineParses(p.before, p.left, p.right, p.after, Triple(p.x, p.y, p.z));
  }

  /** So the line a release is printed with gives its version back. */
  lemma PrintedVersionParses(v: Version)
    requires v.major < U64_LIMIT && v.minor < U64_LIMIT && v.patch < U64_LIMIT
    ensures ParseVersionLine("version = \"" + Triple(Decimal(v.major), Decimal(v.minor), Decimal(v.patch)) + "\"")
         == Some(v)
  {
    hide *;
    var inner := Triple(Decimal(v.major), Decimal(v.minor), Decimal(v.patch));
    ParseDecimal(v.major);
    ParseDecimal(v.minor);
    ParseDecimal(v.patch);
    Numerals(v);
    ParseOfTriple(Decimal(v.major), Decimal(v.minor), Decimal(v.patch));
    PlainLine(inner);
    VersionLineParses("", " ", " ", "", inner);
  }

  lemma Numerals(v: Version)
    requires v.major < U64_LIMIT && v.minor < U64_LIMIT && v.patch < U64_LIMIT
    ensures IsNumeral(Decimal(v.major)) && IsNumeral(Decimal(v.minor)) && IsNumeral(Decimal(v.patch))
  {
    hide Decimal, ParseU64;
    ParseDecimal(v.major);
    ParseDecimal(v.minor);
    ParseDecimal(v.patch);
  }

  lemma PlainLine(inner: string)
    ensures VersionLine("", " ", " ", "", inner) == "version = \"" + inner + "\""
    ensures IsBlank("") && IsBlank(" ")
  {
    assert "" + "version" + " " + "=" + " " + "\"" == "version = \"";
  }

  /** A plus sign before a number is one of them. */
  lemma PlusSignParses()
    ensures ParseVersionLine("version = \"+1.2.3\"") == Some(Version(1, 2, 3))
  {
    hide *;
    SmallNumerals();
    ParseOfTriple("+1", "2", "3");
    PlainLine(Triple("+1", "2", "3"));
    VersionLineParses("", " ", " ", "", Triple("+1", "2", "3"));
    PlusLine();
  }

  lemma PlusLine()
    ensures "version = \"" + Triple("+1", "2", "3") + "\"" == "version = \"+1.2.3\""
  {
  }

  lemma SmallNumerals()
    ensures ParseU64("+1") == Some(1) && ParseU64("2") == Some(2) && ParseU64("3") == Some(3)
    ensures IsNumeral("+1") && IsNumeral("2") && IsNumeral("3")
  {
    assert "+1"[1..] == "1" && Number("1") == 1 && Number("2") == 2 && Number("3") == 3;
  }

  lemma StripOwn(prefix: string, rest: string)
    ensures StripPrefix(prefix + rest, prefix) == Some(rest)
  {
  }

  lemma StripOwnQuote(s: string)
    ensures StripQuote(s + "\"") == Some(s)
  {
  }

  lemma Letters()
    ensures !IsWhitespace('v') && !IsWhitespace('=') && !IsWhitespace('"')
  {
  }
}
