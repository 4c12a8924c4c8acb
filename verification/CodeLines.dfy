/** The line counter of `src/fn_size_guard.rs`, and the character automaton it computes. */
module CodeLines {
  import opened Text

  // ---------- The reference: one character at a time ----------

  /** Where the last character left off. `Slash` is a slash outside comments whose successor decides what it is;
      `Star` is a star inside a block comment. */
  datatype Place = Outside | Slash | LineComment | Block | Star

  /** `code`: the current line already has a non-blank character outside comments. */
  datatype Counter = Counter(place: Place, code: bool, count: nat)

  function EndLine(s: Counter): Counter {
    Counter(if s.place == Block || s.place == Star then Block else Outside, false,
            s.count + (if s.code || s.place == Slash then 1 else 0))
  }

  function Advance(s: Counter, c: char): Counter {
    if c == '\n' then EndLine(s)
    else
      match s.place
      case Outside =>
        if c == '/' then s.(place := Slash) else if IsWhitespace(c) then s else s.(code := true)
      case Slash =>
        if c == '/' then s.(place := LineComment)
        else if c == '*' then s.(place := Block)
        else s.(place := Outside, code := true)
      case LineComment => s
      case Block => if c == '*' then s.(place := Star) else s
      case Star => if c == '/' then s.(place := Outside) else if c == '*' then s else s.(place := Block)
  }

  function Run(s: Counter, text: string): Counter
    decreases |text|
  {
    if text == "" then s else Run(Advance(s, text[0]), text[1..])
  }

  const START := Counter(Outside, false, 0)

  /** How many lines of `text` have a non-blank character outside comments. */
  function CountCode(text: string): nat {
    EndLine(Run(START, text)).count
  }

  // ---------- The program: find and skip ----------

  /** `str::find` of a two-character string. */
  function FindPair(s: string, a: char, b: char): (r: Option<nat>)
    ensures r.Some? ==> r.value + 1 < |s| && s[r.value] == a && s[r.value + 1] == b
    ensures r.Some? ==> forall i :: 0 <= i < r.value ==> !(s[i] == a && s[i + 1] == b)
    ensures r.None? ==> forall i :: 0 <= i < |s| - 1 ==> !(s[i] == a && s[i + 1] == b)
  {
    if |s| < 2 then None
    else if s[0] == a && s[1] == b then Some(0)
    else
      match FindPair(s[1..], a, b)
      case None => None
      case Some(i) =>
        assert forall j :: 1 <= j < i + 1 ==> s[j] == s[1..][j - 1] && s[j + 1] == s[1..][j];
        Some(i + 1)
  }

  function Or(found: Option<nat>, otherwise: nat): nat {
    if found.Some? then found.value else otherwise
  }

  /** The inner loop on what is left of a line: whether the line has code, and whether it ends in a comment. */
  function ScanLine(rest: string, inComment: bool, code: bool): (bool, bool)
    decreases |rest|
  {
    var line := TrimStart(rest);
    if line == "" then (code, inComment)
    else if inComment then
      match FindPair(line, '*', '/')
      case None => (code, true)
      case Some(i) => ScanLine(line[i + 2..], false, code)
    else
      var multi, single := Or(FindPair(line, '/', '*'), |line|), Or(FindPair(line, '/', '/'), |line|);
      var code' := code || (multi > 0 && single > 0);
      if multi < single then ScanLine(line[multi + 2..], true, code') else (code', false)
  }

  function ScanLines(lines: seq<string>, inComment: bool): nat {
    if lines == [] then 0
    else
      var (code, inComment') := ScanLine(lines[0], inComment, false);
      (if code then 1 else 0) + ScanLines(lines[1..], inComment')
  }

  function Inner(body: string): string {
    if body != "" && body[0] == '{' && |body| >= 2 && body[|body| - 1] == '}' then body[1..|body| - 1] else body
  }

  // ---------- One line ----------

  lemma {:induction false} RunConcat(s: Counter, a: string, b: string)
    ensures Run(s, a + b) == Run(Run(s, a), b)
    decreases |a|
  {
    if a == "" {
      assert a + b == b;
    } else {
      assert (a + b)[1..] == a[1..] + b;
      RunConcat(Advance(s, a[0]), a[1..], b);
    }
  }

  predicate IsOneLine(s: string) {
    '\n' !in s
  }

  /** Blanks within a line move nothing outside line comments. */
  lemma {:induction false} BlanksSkip(s: Counter, blanks: string)
    requires IsBlank(blanks) && IsOneLine(blanks) && (s.place == Outside || s.place == Block)
    ensures Run(s, blanks) == s
    decreases |blanks|
  {
    if blanks != "" {
      assert !IsWhitespace('/') && !IsWhitespace('*');
      assert blanks[0] in blanks;
      BlanksSkip(s, blanks[1..]);
    }
  }

  lemma {:induction false} LineCommentStays(s: Counter, text: string)
    requires s.place == LineComment && IsOneLine(text)
    ensures Run(s, text) == s
    decreases |text|
  {
    if text != "" {
      assert text[0] in text;
      LineCommentStays(s, text[1..]);
    }
  }

  /** Inside a block comment, text without its end stays inside. */
  lemma {:induction false} BlockStays(s: Counter, text: string)
    requires s.place == Block && IsOneLine(text)
    requires forall i :: 0 <= i < |text| - 1 ==> !(text[i] == '*' && text[i + 1] == '/')
    ensures Run(s, text) == s.(place := if text != "" && text[|text| - 1] == '*' then Star else Block)
    decreases |text|
  {
    if text != "" {
      var n := |text| - 1;
      assert text[n] in text && text == text[..n] + [text[n]];
      RunConcat(s, text[..n], [text[n]]);
      BlockStays(s, text[..n]);
    }
  }

  /** Outside comments, text without a comment start is code as soon as it has a non-blank character, a last slash
      still undecided. */
  lemma {:induction false} OutsideStays(s: Counter, text: string)
    requires s.place == Outside && IsOneLine(text)
    requires forall i :: 0 <= i < |text| - 1 ==> !(text[i] == '/' && (text[i + 1] == '*' || text[i + 1] == '/'))
    ensures var end := Run(s, text);
            && end.count == s.count
            && end.place == (if text != "" && text[|text| - 1] == '/' then Slash else Outside)
            && (end.code || end.place == Slash <==> s.code || !IsBlank(text))
            && (end.place == Outside ==> (end.code <==> s.code || !IsBlank(text)))
    decreases |text|
  {
    assert !IsWhitespace('/');
    if text != "" {
      var n := |text| - 1;
      assert text[n] in text && text == text[..n] + [text[n]];
      RunConcat(s, text[..n], [text[n]]);
      OutsideStays(s, text[..n]);
      assert IsBlank(text) <==> IsBlank(text[..n]) && IsWhitespace(text[n]);
    }
  }

  function At(inComment: bool, code: bool, count: nat): Counter {
    Counter(if inComment then Block else Outside, code, count)
  }

  /** Two characters at `i` split a line in three. */
  lemma RunAround(s: Counter, line: string, i: nat)
    requires i + 2 <= |line|
    ensures Run(s, line) == Run(Advance(Advance(Run(s, line[..i]), line[i]), line[i + 1]), line[i + 2..])
  {
    assert line == line[..i] + line[i..];
    RunConcat(s, line[..i], line[i..]);
    assert line[i..][1..] == line[i + 1..] && line[i + 1..][1..] == line[i + 2..];
  }

  lemma BlockEndsAt(line: string, i: nat, code: bool, count: nat)
    requires FindPair(line, '*', '/') == Some(i) && IsOneLine(line)
    ensures Run(At(true, code, count), line) == Run(At(false, code, count), line[i + 2..])
  {
    hide FindPair;
    RunAround(At(true, code, count), line, i);
    BlockStays(At(true, code, count), line[..i]);
  }

  /** The first comment start at `m`, whichever kind it is. */
  lemma OutsideUntil(line: string, m: nat, code: bool, count: nat)
    requires m + 2 <= |line| && IsOneLine(line) && line[m] == '/' && !IsWhitespace(line[0])
    requires forall i :: 0 <= i < m ==> !(line[i] == '/' && (line[i + 1] == '*' || line[i + 1] == '/'))
    ensures Run(At(false, code, count), line[..m]) == At(false, code || m > 0, count)
  {
    OutsideStays(At(false, code, count), line[..m]);
    if m > 0 {
      assert line[..m][0] == line[0];
      assert line[..m][m - 1] == line[m - 1];
    }
  }

  lemma CommentStart(code: bool, count: nat)
    ensures Advance(Advance(At(false, code, count), '/'), '*') == At(true, code, count)
    ensures Advance(Advance(At(false, code, count), '/'), '/') == Counter(LineComment, code, count)
  {
  }

  lemma CommentStartsAt(line: string, code: bool, count: nat)
    requires IsOneLine(line) && line != "" && !IsWhitespace(line[0])
    ensures var multi, single := Or(FindPair(line, '/', '*'), |line|), Or(FindPair(line, '/', '/'), |line|);
            var code' := code || (multi > 0 && single > 0);
            && (multi < single ==> multi + 2 <= |line|)
            && (multi < single ==> Run(At(false, code, count), line) == Run(At(true, code', count), line[multi + 2..]))
            && (multi >= single ==> EndLine(Run(At(false, code, count), line)) == EndLine(At(false, code', count)))
  {
    hide FindPair, Run, Advance, IsWhitespace;
    var multi, single := Or(FindPair(line, '/', '*'), |line|), Or(FindPair(line, '/', '/'), |line|);
    var m := if multi < single then multi else single;
    if m < |line| {
      OutsideUntil(line, m, code, count);
      RunAround(At(false, code, count), line, m);
      CommentStart(code || m > 0, count);
      if single <= multi {
        LineCommentStays(Counter(LineComment, code || m > 0, count), line[m + 2..]);
      }
    } else {
      OutsideStays(At(false, code, count), line);
    }
  }

  /** The inner loop computes the automaton over the rest of the line. */
  lemma {:induction false} ScanLineRuns(rest: string, inComment: bool, code: bool, count: nat)
    requires IsOneLine(rest)
    ensures var (code', inComment') := ScanLine(rest, inComment, code);
            EndLine(Run(At(inComment, code, count), rest)) == EndLine(At(inComment', code', count))
    decreases |rest|
  {
    hide FindPair, TrimStart, Advance, Run, IsWhitespace, IsBlank, EndLine, ScanLine, At, Or;
    var line := TrimStart(rest);
    SkipLeadingBlanks(rest, inComment, code, count);
    ScanLineUnfolds(rest, inComment, code);
    if line == "" {
      RunNothing(At(inComment, code, count));
    } else if inComment {
      var found := FindPair(line, '*', '/');
      if found.Some? {
        BlockEndsAt(line, found.value, code, count);
        ScanLineRuns(line[found.value + 2..], false, code, count);
      } else {
        BlockLeftOpen(line, code, count);
      }
    } else {
      var multi, single := Or(FindPair(line, '/', '*'), |line|), Or(FindPair(line, '/', '/'), |line|);
      var code' := code || (multi > 0 && single > 0);
      CommentStartsAt(line, code, count);
      if multi < single {
        ScanLineRuns(line[multi + 2..], true, code', count);
      } else {
        assert ScanLine(rest, inComment, code) == (code', false);
      }
    }
  }

  lemma SkipLeadingBlanks(rest: string, inComment: bool, code: bool, count: nat)
    requires IsOneLine(rest)
    ensures IsOneLine(TrimStart(rest))
    ensures Run(At(inComment, code, count), rest) == Run(At(inComment, code, count), TrimStart(rest))
  {
    hide TrimStart, Advance, Run, IsWhitespace, IsBlank;
    var line := TrimStart(rest);
    var blanks := rest[..|rest| - |line|];
    assert rest == blanks + line;
    RunConcat(At(inComment, code, count), blanks, line);
    BlanksSkip(At(inComment, code, count), blanks);
  }

  lemma BlockLeftOpen(line: string, code: bool, count: nat)
    requires FindPair(line, '*', '/').None? && IsOneLine(line)
    ensures EndLine(Run(At(true, code, count), line)) == EndLine(At(true, code, count))
  {
    hide FindPair;
    BlockStays(At(true, code, count), line);
  }

  /** One turn of the inner loop. */
  lemma ScanLineUnfolds(rest: string, inComment: bool, code: bool)
    ensures var line := TrimStart(rest);
            && (line == "" ==> ScanLine(rest, inComment, code) == (code, inComment))
            && (line != "" ==> |line| > 0 && !IsWhitespace(line[0]))
            && (line != "" && inComment ==>
                  var found := FindPair(line, '*', '/');
                  && (found.None? ==> ScanLine(rest, inComment, code) == (code, true))
                  && (found.Some? ==> found.value + 2 <= |line|)
                  && (found.Some? ==>
                        ScanLine(rest, inComment, code) == ScanLine(line[found.value + 2..], false, code)))
            && (line != "" && !inComment ==>
                  var multi, single := Or(FindPair(line, '/', '*'), |line|), Or(FindPair(line, '/', '/'), |line|);
                  var code' := code || (multi > 0 && single > 0);
                  && (multi >= single ==> ScanLine(rest, inComment, code) == (code', false))
                  && (multi < single ==> multi + 2 <= |line|)
                  && (multi < single ==> ScanLine(rest, inComment, code) == ScanLine(line[multi + 2..], true, code')))
  {
    hide TrimStart, FindPair, IsWhitespace, IsBlank;
  }

  lemma RunNothing(s: Counter)
    ensures Run(s, "") == s
  {
  }

  // ---------- All lines ----------

  lemma CrIsFree(s: Counter, line: string)
    ensures EndLine(Run(s, StripCr(line))) == EndLine(Run(s, line))
  {
    if line != "" && line[|line| - 1] == '\r' {
      var n := |line| - 1;
      assert line == line[..n] + ['\r'];
      RunConcat(s, line[..n], ['\r']);
      assert Run(Run(s, line[..n]), ['\r']) == Advance(Run(s, line[..n]), '\r');
    }
  }

  lemma {:induction false} ScanLinesRuns(text: string, inComment: bool, count: nat)
    ensures EndLine(Run(At(inComment, false, count), text)).count == count + ScanLines(Lines(text), inComment)
    decreases |text|
  {
    hide *;
    var s := At(inComment, false, count);
    var at := IndexOf(text, '\n', 0);
    if at.None? {
      LastLine(text, inComment, count);
    } else {
      var raw, rest := text[..at.value], text[at.value + 1..];
      assert text[0..at.value] == raw;
      assert text == raw + ("\n" + rest);
      StripCrKeepsLine(raw);
      var line := StripCr(raw);
      var (code, inComment') := ScanLine(line, inComment, false);
      ScanLineRuns(line, inComment, false, count);
      CrIsFree(s, raw);
      NewlineEnds(s, raw, rest);
      EndOfAt(inComment', code, count);
      ScanLinesRuns(rest, inComment', count + if code then 1 else 0);
      ScanLinesCons(raw, rest, inComment);
    }
  }

  lemma EndOfAt(inComment: bool, code: bool, count: nat)
    ensures EndLine(At(inComment, code, count)) == At(inComment, false, count + if code then 1 else 0)
  {
  }

  lemma LastLine(text: string, inComment: bool, count: nat)
    requires IndexOf(text, '\n', 0).None?
    ensures EndLine(Run(At(inComment, false, count), text)).count == count + ScanLines(Lines(text), inComment)
  {
    hide ScanLine, Run, TrimStart;
    assert text[0..] == text;
    if text == "" {
      RunNothing(At(inComment, false, count));
    } else {
      ScanLineRuns(text, inComment, false, count);
      assert Lines(text) == [text];
      assert ScanLines([text][1..], true) == 0 && ScanLines([text][1..], false) == 0;
    }
  }

  lemma ScanLinesCons(raw: string, rest: string, inComment: bool)
    requires '\n' !in raw
    ensures var (code, inComment') := ScanLine(StripCr(raw), inComment, false);
            && ScanLines(Lines(raw + ("\n" + rest)), inComment)
               == (if code then 1 else 0) + ScanLines(Lines(rest), inComment')
  {
    hide ScanLine, StripCr;
    var text := raw + ("\n" + rest);
    assert text[0..|raw|] == raw && text[..|raw|] == raw && text[|raw|] == '\n' && text[|raw| + 1..] == rest;
    IndexOfIs(text, '\n', 0, |raw|);
    assert Lines(text) == [StripCr(raw)] + Lines(rest);
  }

  lemma StripCrKeepsLine(raw: string)
    requires IsOneLine(raw)
    ensures IsOneLine(StripCr(raw))
  {
  }

  lemma NewlineEnds(s: Counter, raw: string, rest: string)
    ensures Run(s, raw + ("\n" + rest)) == Run(EndLine(Run(s, raw)), rest)
  {
    RunConcat(s, raw, "\n" + rest);
    assert ("\n" + rest)[1..] == rest;
  }

  // ---------- The trimmed body ----------

  lemma {:induction false} LeadingBlanks(blanks: string)
    requires IsBlank(blanks)
    ensures Run(START, blanks) == START
    decreases |blanks|
  {
    if blanks != "" {
      assert !IsWhitespace('/');
      LeadingBlanks(blanks[1..]);
    }
  }

  lemma {:induction false} TrailingBlanks(s: Counter, blanks: string)
    requires IsBlank(blanks)
    ensures EndLine(Run(s, blanks)).count == EndLine(s).count
    decreases |blanks|
  {
    if blanks != "" {
      assert !IsWhitespace('/') && !IsWhitespace('*');
      TrailingBlanks(Advance(s, blanks[0]), blanks[1..]);
    }
  }

  lemma TrimIsFree(text: string)
    ensures CountCode(Trim(text)) == CountCode(text)
  {
    hide TrimStart, TrimEnd, Run, IsBlank, EndLine;
    var front := TrimStart(text);
    var blanks := text[..|text| - |front|];
    assert text == blanks + front;
    RunConcat(START, blanks, front);
    LeadingBlanks(blanks);
    var middle := TrimEnd(front);
    assert front == middle + front[|middle|..];
    RunConcat(START, middle, front[|middle|..]);
    TrailingBlanks(Run(START, middle), front[|middle|..]);
  }

  // ---------- Free lines ----------

  predicate EndsInComment(text: string) {
    var s := Run(START, text);
    s.place == Block || s.place == Star
  }

  predicate IsCommentLine(line: string) {
    |TrimStart(line)| >= 2 && TrimStart(line)[0] == '/' && TrimStart(line)[1] == '/'
  }

  lemma CommentLineIsFree(line: string, count: nat)
    requires IsOneLine(line) && IsCommentLine(line)
    ensures EndLine(Run(At(false, false, count), line)) == At(false, false, count)
  {
    hide TrimStart, Run, IsWhitespace;
    SkipLeadingBlanks(line, false, false, count);
    var text := TrimStart(line);
    RunAround(At(false, false, count), text, 0);
    RunNothing(At(false, false, count));
    CommentStart(false, count);
    LineCommentStays(Counter(LineComment, false, count), text[2..]);
  }

  lemma BlankLineIsFree(line: string, inComment: bool, count: nat)
    requires IsOneLine(line) && IsBlank(line)
    ensures EndLine(Run(At(inComment, false, count), line)) == At(inComment, false, count)
  {
    BlanksSkip(At(inComment, false, count), line);
  }

  /** The code lines of some text that starts inside a block comment or outside, and where it ends. */
  function CodeFrom(inComment: bool, text: string): nat {
    EndLine(Run(At(inComment, false, 0), text)).count
  }

  predicate LeavesComment(inComment: bool, text: string) {
    EndLine(Run(At(inComment, false, 0), text)).place == Block
  }

  /** The lines counted so far never matter to what comes. */
  lemma {:induction false} CountShifts(s: Counter, text: string, more: nat)
    ensures Run(s.(count := s.count + more), text) == Run(s, text).(count := Run(s, text).count + more)
    decreases |text|
  {
    if text != "" {
      CountShifts(Advance(s, text[0]), text[1..], more);
    }
  }

  /** Whole lines inserted anywhere that leave the next line in or out of a block comment as it was add exactly their
      own code lines, read from where they were put. */
  lemma InsertedLinesCount(before: string, lines: string, after: string)
    requires LeavesComment(EndsInComment(before), lines) == EndsInComment(before)
    ensures CountCode(before + ("\n" + (lines + ("\n" + after))))
         == CountCode(before + ("\n" + after)) + CodeFrom(EndsInComment(before), lines)
  {
    hide Run;
    var inComment := EndsInComment(before);
    var s := EndLine(Run(START, before));
    NewlineEnds(START, before, lines + ("\n" + after));
    NewlineEnds(START, before, after);
    NewlineEnds(s, lines, after);
    assert s == At(inComment, false, s.count);
    CountShifts(At(inComment, false, 0), lines, s.count);
    CountShifts(s, after, CodeFrom(inComment, lines));
  }

  /** A comment of its own: `//` to the end of the line, or one block comment with only blanks around it. */
  predicate IsPureComment(line: string) {
    || IsCommentLine(line)
    || (var text := TrimStart(line);
        && |text| >= 2 && text[0] == '/' && text[1] == '*'
        && var close := FindPair(text[2..], '*', '/');
           close.Some? && IsBlank(text[close.value + 4..]))
  }

  lemma PureCommentIsFree(line: string)
    requires IsOneLine(line) && IsPureComment(line)
    ensures CodeFrom(false, line) == 0 && !LeavesComment(false, line)
  {
    hide TrimStart, Run, IsWhitespace, IsBlank, FindPair;
    if IsCommentLine(line) {
      CommentLineIsFree(line, 0);
    } else {
      var text, start := TrimStart(line), At(false, false, 0);
      SkipLeadingBlanks(line, false, false, 0);
      RunAround(start, text, 0);
      RunNothing(start);
      CommentStart(false, 0);
      var close := FindPair(text[2..], '*', '/').value;
      BlockEndsAt(text[2..], close, false, 0);
      assert text[2..][close + 2..] == text[close + 4..];
      BlanksSkip(start, text[close + 4..]);
    }
  }

  /** Never changing the count: a blank line anywhere; outside block comments, a pure comment line, or any lines that
      alone count nothing and end outside a comment; inside one, a line that does not end it. */
  lemma FreeLinesAddNothing(before: string, lines: string, after: string)
    requires || (IsOneLine(lines) && IsBlank(lines))
             || (!EndsInComment(before) && IsOneLine(lines) && IsPureComment(lines))
             || (!EndsInComment(before) && CountCode(lines) == 0 && !EndsInComment(lines))
             || (EndsInComment(before) && IsOneLine(lines) && FindPair(lines, '*', '/').None?)
    ensures CountCode(before + ("\n" + (lines + ("\n" + after)))) == CountCode(before + ("\n" + after))
  {
    hide Run, IsPureComment, IsBlank, FindPair;
    var inComment := EndsInComment(before);
    if IsOneLine(lines) && IsBlank(lines) {
      BlankLineIsFree(lines, inComment, 0);
    } else if inComment {
      BlockLeftOpen(lines, false, 0);
    } else if IsOneLine(lines) && IsPureComment(lines) {
      PureCommentIsFree(lines);
    }
    InsertedLinesCount(before, lines, after);
  }

  /** `code_lines`: find and skip, line by line, computes the character automaton over the whole body. */
  method CodeLines(body: string) returns (count: nat)
    ensures count == CountCode(Inner(body))
  {
    hide ScanLine, Lines, CountCode, Trim;
    var lines := Lines(Trim(Inner(body)));
    count := 0;
    var inComment := false;
    assert lines[0..] == lines;
    for n := 0 to |lines|
      invariant ScanLines(lines, false) == count + ScanLines(lines[n..], inComment)
    {
      var code, after := CountLine(lines[n], inComment);
      assert lines[n..][1..] == lines[n + 1..];
      inComment := after;
      count := count + if code then 1 else 0;
    }
    CountsTrimmed(Inner(body));
  }

  lemma CountsTrimmed(inner: string)
    ensures CountCode(inner) == ScanLines(Lines(Trim(inner)), false)
  {
    TrimIsFree(inner);
    ScanLinesRuns(Trim(inner), false, 0);
  }

  /** The inner loop; what is left of the line shrinks at every turn. */
  method CountLine(whole: string, inCommentBefore: bool) returns (code: bool, inComment: bool)
    ensures (code, inComment) == ScanLine(whole, inCommentBefore, false)
  {
    hide FindPair, TrimStart, ScanLine, IsWhitespace, IsBlank;
    var line := whole;
    code, inComment := false, inCommentBefore;
    while true
      invariant ScanLine(whole, inCommentBefore, false) == ScanLine(line, inComment, code)
      decreases |line|
    {
      ScanLineUnfolds(line, inComment, code);
      line := TrimStart(line);
      if line == "" {
        return;
      }
      if inComment {
        var i := FindPair(line, '*', '/');
        if i.Some? {
          line := line[i.value + 2..];
          inComment := false;
          continue;
        }
      } else {
        var multi := Or(FindPair(line, '/', '*'), |line|);
        var single := Or(FindPair(line, '/', '/'), |line|);
        code := code || (multi > 0 && single > 0);
        if multi < single {
          line := line[multi + 2..];
          inComment := true;
          continue;
        }
      }
      return;
    }
  }
}
