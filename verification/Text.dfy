/** Strings, lines and optional values as the modelled programs use them. */
module Text {
  type Byte = x: int | 0 <= x < 256

  datatype Option<+T> = None | Some(value: T)

  datatype Result<+T, +E> = Ok(value: T) | Err(error: E)

  predicate StartsWith(s: string, prefix: string) {
    prefix <= s
  }

  function Join(parts: seq<string>, sep: string): string {
    if parts == [] then ""
    else if |parts| == 1 then parts[0]
    else parts[0] + sep + Join(parts[1..], sep)
  }

  /** Leftmost index of `c` at or after `from`. */
  function IndexOf(s: string, c: char, from: nat): (r: Option<nat>)
    requires from <= |s|
    ensures r.Some? ==> from <= r.value < |s| && s[r.value] == c && c !in s[from..r.value]
    ensures r.None? ==> c !in s[from..]
    decreases |s| - from
  {
    if from == |s| then None else if s[from] == c then Some(from) else IndexOf(s, c, from + 1)
  }

  /** Rightmost index of `c` before `to`. */
  function LastIndexOf(s: string, c: char, to: nat): (r: Option<nat>)
    requires to <= |s|
    ensures r.Some? ==> r.value < to && s[r.value] == c && c !in s[r.value + 1..to]
    ensures r.None? ==> c !in s[..to]
  {
    if to == 0 then None else if s[to - 1] == c then Some(to - 1) else LastIndexOf(s, c, to - 1)
  }

  lemma {:induction false} IndexOfIs(s: string, c: char, from: nat, at: nat)
    requires from <= at < |s| && s[at] == c && c !in s[from..at]
    ensures IndexOf(s, c, from) == Some(at)
    decreases at - from
  {
    if from < at {
      assert s[from] == s[from..at][0];
      assert s[from + 1..at] == s[from..at][1..];
      IndexOfIs(s, c, from + 1, at);
    }
  }

  // ---------- Whitespace ----------

  /** `char::is_whitespace`: the White_Space property of Unicode. */
  predicate IsWhitespace(c: char) {
    || '\t' <= c <= '\r' || c == ' ' || c == '\U{85}' || c == '\U{A0}' || c == '\U{1680}'
    || '\U{2000}' <= c <= '\U{200A}' || c == '\U{2028}' || c == '\U{2029}' || c == '\U{202F}' || c == '\U{205F}'
    || c == '\U{3000}'
  }

  predicate IsBlank(s: string) {
    forall i :: 0 <= i < |s| ==> IsWhitespace(s[i])
  }

  lemma BlankParts(a: string, b: string)
    ensures IsBlank(a + b) <==> IsBlank(a) && IsBlank(b)
  {
    hide IsWhitespace;
    assert forall i :: 0 <= i < |a| ==> (a + b)[i] == a[i];
    assert forall i :: 0 <= i < |b| ==> (a + b)[|a| + i] == b[i];
  }

  function TrimStart(s: string): (r: string)
    ensures |r| <= |s| && r == s[|s| - |r|..] && IsBlank(s[..|s| - |r|])
    ensures r != "" ==> !IsWhitespace(r[0])
    ensures r == "" <==> IsBlank(s)
  {
    hide IsWhitespace;
    if s == "" || !IsWhitespace(s[0]) then s
    else
      var r := TrimStart(s[1..]);
      TrimStep(s, r);
      r
  }

  lemma TrimStep(s: string, r: string)
    requires s != "" && IsWhitespace(s[0]) && |r| <= |s| - 1 && r == s[1..][|s| - 1 - |r|..]
    requires IsBlank(s[1..][..|s| - 1 - |r|]) && (r == "" <==> IsBlank(s[1..]))
    ensures r == s[|s| - |r|..] && IsBlank(s[..|s| - |r|]) && (r == "" <==> IsBlank(s))
  {
    hide IsWhitespace, IsBlank;
    BlankHead(s, |s|);
    BlankHead(s, |s| - |r|);
    assert s[..|s|] == s && s[1..][..|s| - 1] == s[1..];
  }

  lemma BlankHead(s: string, n: nat)
    requires 0 < n <= |s| && IsWhitespace(s[0])
    ensures IsBlank(s[..n]) <==> IsBlank(s[1..][..n - 1])
  {
    hide IsWhitespace;
    assert s[..n] == [s[0]] + s[1..][..n - 1];
    BlankParts([s[0]], s[1..][..n - 1]);
  }

  function TrimEnd(s: string): (r: string)
    ensures |r| <= |s| && r == s[..|r|] && IsBlank(s[|r|..])
    ensures r != "" ==> !IsWhitespace(r[|r| - 1])
  {
    hide IsWhitespace;
    if s == "" || !IsWhitespace(s[|s| - 1]) then s
    else
      var r := TrimEnd(s[..|s| - 1]);
      BlankParts(s[..|s| - 1][|r|..], [s[|s| - 1]]);
      assert s[|r|..] == s[..|s| - 1][|r|..] + [s[|s| - 1]];
      r
  }

  function Trim(s: string): string {
    TrimEnd(TrimStart(s))
  }

  // ---------- Lines ----------

  function StripCr(line: string): string {
    if line != "" && line[|line| - 1] == '\r' then line[..|line| - 1] else line
  }

  /** `str::lines`: a final newline ends the last line, and one carriage return before a newline goes with it. */
  function Lines(text: string): seq<string>
    decreases |text|
  {
    if text == "" then []
    else
      match IndexOf(text, '\n', 0)
      case None => [text]
      case Some(at) => [StripCr(text[..at])] + Lines(text[at + 1..])
  }

  /** The pieces of `s` between the `c`s, always at least one. */
  function SplitOn(s: string, c: char): (parts: seq<string>)
    ensures |parts| >= 1
    ensures forall i :: 0 <= i < |parts| ==> c !in parts[i]
    decreases |s|
  {
    match IndexOf(s, c, 0)
    case None => [s]
    case Some(at) => [s[..at]] + SplitOn(s[at + 1..], c)
  }

  lemma {:induction false} SplitOnJoin(parts: seq<string>, c: char)
    requires parts != [] && forall i :: 0 <= i < |parts| ==> c !in parts[i]
    ensures SplitOn(Join(parts, [c]), c) == parts
  {
    var s := Join(parts, [c]);
    if |parts| == 1 {
      assert s[0..] == s;
      assert IndexOf(s, c, 0).None?;
    } else {
      var rest := Join(parts[1..], [c]);
      var n := |parts[0]|;
      assert s == parts[0] + [c] + rest;
      assert s[0..n] == parts[0] && s[n] == c && s[n + 1..] == rest;
      IndexOfIs(s, c, 0, n);
      SplitOnJoin(parts[1..], c);
    }
  }

  lemma JoinCons(first: string, rest: seq<string>, sep: string)
    requires rest != []
    ensures Join([first] + rest, sep) == first + sep + Join(rest, sep)
  {
    assert ([first] + rest)[1..] == rest;
  }

  lemma {:induction false} JoinSplit(s: string, c: char)
    ensures Join(SplitOn(s, c), [c]) == s
    decreases |s|
  {
    hide IndexOf;
    var at := IndexOf(s, c, 0);
    if at.Some? {
      var rest := s[at.value + 1..];
      JoinSplit(rest, c);
      JoinCons(s[..at.value], SplitOn(rest, c), [c]);
      assert s == s[..at.value] + [c] + rest;
    }
  }

  // ---------- Printing lines ----------

  function Closed(lines: seq<string>, newline: bool): string {
    Join(lines, "\n") + (if newline then "\n" else "")
  }

  predicate EndsWithNewline(text: string) {
    text != "" && text[|text| - 1] == '\n'
  }

  predicate IsLine(line: string) {
    '\n' !in line && (line != "" ==> line[|line| - 1] != '\r')
  }

  predicate AreLines(lines: seq<string>) {
    forall i :: 0 <= i < |lines| ==> IsLine(lines[i])
  }

  lemma ClosedCons(line: string, rest: seq<string>, newline: bool)
    requires rest != []
    ensures Closed([line] + rest, newline) == line + ("\n" + Closed(rest, newline))
  {
    assert ([line] + rest)[1..] == rest;
  }

  lemma LinesOfCons(line: string, rest: string)
    requires IsLine(line)
    ensures Lines(line + ("\n" + rest)) == [line] + Lines(rest)
  {
    var text := line + ("\n" + rest);
    assert text[0..|line|] == line && text[|line|] == '\n' && text[|line| + 1..] == rest;
    IndexOfIs(text, '\n', 0, |line|);
  }

  /** Printed lines are read back as themselves. */
  lemma {:induction false} LinesOfClosed(lines: seq<string>, newline: bool)
    requires AreLines(lines)
    requires if newline then lines != [] else lines == [] || lines[|lines| - 1] != ""
    ensures Lines(Closed(lines, newline)) == lines
    ensures EndsWithNewline(Closed(lines, newline)) == newline
  {
    hide Lines, Closed, EndsWithNewline, IsLine;
    if lines == [] {
      NoLines();
    } else if |lines| == 1 {
      OneClosedLine(lines[0], newline);
      assert lines == [lines[0]];
    } else {
      ClosedCons(lines[0], lines[1..], newline);
      assert [lines[0]] + lines[1..] == lines;
      LinesOfClosed(lines[1..], newline);
      LinesOfCons(lines[0], Closed(lines[1..], newline));
      EndsLikeRest(lines[0], Closed(lines[1..], newline));
    }
  }

  lemma EndsLikeRest(line: string, rest: string)
    requires Lines(rest) != []
    ensures EndsWithNewline(line + ("\n" + rest)) == EndsWithNewline(rest)
  {
  }

  lemma NoLines()
    ensures Closed([], false) == "" && Lines("") == [] && !EndsWithNewline("")
  {
  }

  lemma OneClosedLine(line: string, newline: bool)
    requires IsLine(line) && (newline || line != "")
    ensures Lines(Closed([line], newline)) == [line]
    ensures EndsWithNewline(Closed([line], newline)) == newline
  {
    if newline {
      assert Closed([line], newline) == line + ("\n" + "");
      LinesOfCons(line, "");
    } else {
      assert Closed([line], newline) == line;
      assert line[0..] == line;
    }
  }
}
