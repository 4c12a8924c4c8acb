/** What single rows of an agy pane are (`src/agent/agy_approval.rs`, `src/agent/chrome.rs`). */
module AgyRows {
  import opened Text
  import opened Numbers

  const MIN_RULE_CHARS: nat := 20

  // ---------- Pieces of strings ----------

  /** Leftmost position of `part` in `s`. */
  function Find(s: string, part: string): (r: Option<nat>)
    ensures r.Some? ==> r.value + |part| <= |s| && s[r.value..r.value + |part|] == part
  {
    if StartsWith(s, part) then Some(0)
    else if s == "" then None
    else
      match Find(s[1..], part)
      case None => None
      case Some(i) => Some(i + 1)
  }

  predicate Contains(s: string, part: string) {
    Find(s, part).Some?
  }

  /** `split_once`. */
  function SplitOnce(s: string, part: string): Option<(string, string)> {
    match Find(s, part)
    case None => None
    case Some(i) => Some((s[..i], s[i + |part|..]))
  }

  predicate StartsWithAny(s: string, chars: string) {
    s != "" && s[0] in chars
  }

  /** How many bytes UTF-8 takes. */
  function ByteLength(s: string): nat {
    if s == "" then 0
    else
      (if s[0] < '\U{80}' then 1 else if s[0] < '\U{800}' then 2 else if s[0] < '\U{10000}' then 3 else 4)
      + ByteLength(s[1..])
  }

  // ---------- Rules, turns, spinners ----------

  predicate IsCol0(row: string) {
    row != "" && !IsWhitespace(row[0])
  }

  /** `is_box_rule`: at column 0, only box-drawing dashes, long enough. */
  predicate IsBoxRule(row: string) {
    var rule := TrimEnd(row);
    |rule| >= MIN_RULE_CHARS && forall i :: 0 <= i < |rule| ==> rule[i] == '─'
  }

  predicate IsTurnRow(row: string) {
    StartsWith(TrimStart(row), "● ") || StartsWith(TrimStart(row), "○ ")
  }

  predicate IsSpinnerRow(row: string) {
    TrimStart(row) != "" && '\U{2800}' <= TrimStart(row)[0] <= '\U{28ff}'
  }

  // ---------- Key hints ----------

  function SplitKeys(token: string): seq<string> {
    if token == "" then [""]
    else
      var rest := SplitKeys(token[1..]);
      if token[0] in "+-^" then [""] + rest else [[token[0]] + rest[0]] + rest[1..]
  }

  function Lowercase(s: string): string {
    seq(|s|, i requires 0 <= i < |s| => if 'A' <= s[i] <= 'Z' then (s[i] as int + 32) as char else s[i])
  }

  predicate IsKeyPart(part: string) {
    || ByteLength(part) == 1
    || (StartsWithAny(part, "fF") && ParseUnsigned(part[1..], 256).Some?
        && 1 <= ParseUnsigned(part[1..], 256).value <= 24)
    || Lowercase(part) in {
         "esc", "escape", "enter", "return", "tab", "space", "spc", "backspace", "bs", "del", "delete", "ins", "insert",
         "up", "down", "left", "right", "pgup", "pgdn", "pageup", "pagedown", "home", "end", "ctrl", "control", "alt",
         "opt", "option", "shift", "meta", "cmd", "super" }
  }

  predicate IsKeyToken(token: string) {
    var inner := if |token| >= 2 && token[0] == '[' && token[|token| - 1] == ']' then token[1..|token| - 1] else token;
    var parts := SplitKeys(inner);
    && inner != "" && ByteLength(token) <= 20
    && (exists i :: 0 <= i < |parts| && parts[i] != "")
    && (forall i :: 0 <= i < |parts| && parts[i] != "" ==> IsKeyPart(parts[i]))
  }

  predicate IsCancelFooter(row: string) {
    var split := SplitOnce(TrimStart(row), " to cancel");
    split.Some? && IsKeyToken(split.value.0)
  }

  predicate IsAutoApproveEditsRow(row: string) {
    var split := SplitOnce(Trim(row), " to auto-approve file edits");
    split.Some? && split.value.1 == "" && IsKeyToken(split.value.0)
  }

  predicate IsEditorHint(row: string) {
    var part := match SplitOnce(Trim(row), " · ") case None => Trim(row) case Some((first, _)) => first;
    var n := |part| - |" confirm"|;
    n >= 0 && part[n..] == " confirm" && IsKeyToken(part[..n])
  }

  predicate IsNavigateRow(row: string) {
    StartsWith(TrimStart(row), "↑/↓ Navigate")
  }

  predicate IsWorkspaceFooter(row: string) {
    !StartsWithAny(Trim(row), ">❯+-@●○") && Contains(Trim(row), "sandbox")
  }

  predicate IsWrappedCancelTail(row: string) {
    !StartsWithAny(Trim(row), ">❯+-@●○─") && !IsCancelFooter(row) && '·' in Trim(row)
  }

  // ---------- Headers, questions, options ----------

  predicate IsPermissionHeader(row: string) {
    IsCol0(row) && Trim(row) in {"Command", "File", "Directory", "URL", "Permission", "Edit"}
  }

  predicate IsRuledPermissionHeader(row: string) {
    IsCol0(row) && Trim(row) in {"MCP", "File access"}
  }

  predicate IsEditHeader(row: string) {
    IsCol0(row) && Trim(row) in {"Pending edit", "Edit", "File"}
  }

  predicate IsQuestionHeader(row: string) {
    IsCol0(row) && Trim(row) == "Question"
  }

  predicate IsEditorHeader(row: string) {
    IsCol0(row) && Trim(row) == "Expanded Tool Permission Editor"
  }

  predicate IsRequestingRow(row: string) {
    Trim(row) == "Requesting permission for:"
  }

  predicate IsApprovalQuestion(trimmed: string) {
    trimmed in {
      "Run this command?", "Allow access to this file?", "Allow access to this URL?", "Allow calling this tool?",
      "Allow creation of this file?", "Accept this file edit?", "Grant requested permission?",
      "Allow sandbox bypass for command execution?", "Allow administrator elevation?", "Do you want to proceed?" }
  }

  /** `parse_option`: a numbered option, with or without the cursor before it. */
  function ParseOption(row: string): Option<(nat, string)> {
    var trimmed := TrimStart(row);
    var afterCursor := if StartsWithAny(trimmed, ">❯") then TrimStart(trimmed[1..]) else trimmed;
    match SplitOnce(afterCursor, ". ")
    case None => None
    case Some((digits, rest)) =>
      match ParseU64(digits)
      case None => None
      case Some(n) => Some((n, TrimStart(rest)))
  }

  predicate IsOptionContinuation(row: string) {
    var trimmed := Trim(row);
    && trimmed != "" && ParseOption(row).None? && !StartsWithAny(trimmed, "●○─") && !IsSpinnerRow(row)
    && !StartsWith(trimmed, "↑/↓") && !IsCancelFooter(row) && !IsApprovalQuestion(trimmed) && !IsRequestingRow(row)
  }

  // ---------- Ordered options ----------

  /** The counters of `has_ordered_options`; `broken` once it has returned false. */
  datatype Options = Options(next: nat, firstIsYes: bool, lastIsNo: bool, broken: bool)

  function ReadOption(s: Options, row: string): Options {
    if s.broken then s
    else
      match ParseOption(row)
      case Some((n, rest)) =>
        if n != s.next then s.(broken := true)
        else Options(n + 1, if n == 1 then StartsWith(rest, "Yes") else s.firstIsYes, StartsWith(rest, "No"), false)
      case None => if s.next == 1 || !IsOptionContinuation(row) then s.(broken := true) else s
  }

  function ReadOptions(rows: seq<string>): Options {
    if rows == [] then Options(1, false, false, false)
    else ReadOption(ReadOptions(rows[..|rows| - 1]), rows[|rows| - 1])
  }

  predicate HasOrderedOptions(rows: seq<string>, requireYesNo: bool) {
    var s := ReadOptions(rows);
    !s.broken && s.next >= 3 && (!requireYesNo || (s.firstIsYes && s.lastIsNo))
  }

  lemma {:induction false} BrokenStays(rows: seq<string>, n: nat)
    requires n <= |rows| && ReadOptions(rows[..n]).broken
    ensures ReadOptions(rows).broken
    decreases |rows| - n
  {
    hide ReadOption;
    if n == |rows| {
      assert rows[..n] == rows;
    } else {
      assert rows[..n + 1][..n] == rows[..n];
      BrokenStep(ReadOptions(rows[..n]), rows[n]);
      BrokenStays(rows, n + 1);
    }
  }

  lemma BrokenStep(s: Options, row: string)
    requires s.broken
    ensures ReadOption(s, row).broken
  {
  }

  /** `has_ordered_options`: the loop with its counters. */
  method OrderedOptions(rows: seq<string>, requireYesNo: bool) returns (ok: bool)
    ensures ok == HasOrderedOptions(rows, requireYesNo)
  {
    hide ParseOption, IsOptionContinuation, StartsWith;
    var expected, firstIsYes, lastIsNo := 1, false, false;
    for i := 0 to |rows|
      invariant expected >= 1
      invariant ReadOptions(rows[..i]) == Options(expected, firstIsYes, lastIsNo, false)
    {
      assert rows[..i + 1][..i] == rows[..i];
      var option := ParseOption(rows[i]);
      if option.Some? {
        var (n, rest) := option.value;
        if n != expected {
          BrokenStays(rows, i + 1);
          return false;
        }
        if n == 1 {
          firstIsYes := StartsWith(rest, "Yes");
        }
        lastIsNo := StartsWith(rest, "No");
        expected := expected + 1;
      } else if expected == 1 || !IsOptionContinuation(rows[i]) {
        BrokenStays(rows, i + 1);
        return false;
      }
    }
    assert rows[..|rows|] == rows;
    ok := expected >= 3 && (!requireYesNo || (firstIsYes && lastIsNo));
  }

  /** The numbers of the option rows, in order. */
  function OptionNumbers(rows: seq<string>): seq<nat> {
    if rows == [] then []
    else
      OptionNumbers(rows[..|rows| - 1])
      + (match ParseOption(rows[|rows| - 1]) case None => [] case Some((n, _)) => [n])
  }

  /** The rows are options numbered 1, 2, 3 and so on, starting with the first row, and nothing between them but
      continuations. */
  predicate AreInOrder(rows: seq<string>) {
    && (rows != [] ==> ParseOption(rows[0]).Some?)
    && (forall k :: 0 <= k < |OptionNumbers(rows)| ==> OptionNumbers(rows)[k] == k + 1)
    && (forall i :: 0 <= i < |rows| ==> ParseOption(rows[i]).Some? || IsOptionContinuation(rows[i]))
  }

  lemma {:induction false} ReadOptionsMeans(rows: seq<string>)
    ensures !ReadOptions(rows).broken <==> AreInOrder(rows)
    ensures !ReadOptions(rows).broken ==> ReadOptions(rows).next == |OptionNumbers(rows)| + 1
  {
    hide ParseOption, IsOptionContinuation, StartsWith, AreInOrder;
    if rows == [] {
      NothingIsInOrder();
    } else {
      var front := rows[..|rows| - 1];
      ReadOptionsMeans(front);
      InOrderStep(rows);
      if AreInOrder(front) && front != [] {
        InOrderStarts(front);
      }
    }
  }

  lemma NothingIsInOrder()
    ensures AreInOrder([])
  {
  }

  lemma InOrderStarts(rows: seq<string>)
    requires AreInOrder(rows) && rows != []
    ensures OptionNumbers(rows) != []
  {
    hide ParseOption, IsOptionContinuation, OptionNumbers;
    FirstRowCounts(rows);
  }

  lemma InOrderStep(rows: seq<string>)
    requires rows != []
    ensures var front, last := rows[..|rows| - 1], ParseOption(rows[|rows| - 1]);
            AreInOrder(rows) <==>
            && AreInOrder(front)
            && (last.Some? ==> last.value.0 == |OptionNumbers(front)| + 1)
            && (last.None? ==> front != [] && IsOptionContinuation(rows[|rows| - 1]))
  {
    hide ParseOption, IsOptionContinuation;
    var n := |rows| - 1;
    var numbers := OptionNumbers(rows[..n]);
    assert forall i :: 0 <= i < n ==> rows[..n][i] == rows[i];
    assert forall k :: 0 <= k < |numbers| ==> OptionNumbers(rows)[k] == numbers[k];
    match ParseOption(rows[n])
    case None =>
      assert OptionNumbers(rows) == numbers;
    case Some((number, _)) =>
      assert OptionNumbers(rows)[|numbers|] == number;
  }

  lemma {:induction false} FirstRowCounts(rows: seq<string>)
    ensures rows != [] && ParseOption(rows[0]).Some? ==> OptionNumbers(rows) != []
  {
    hide ParseOption;
    if |rows| > 1 {
      FirstRowCounts(rows[..|rows| - 1]);
    }
  }

  /** What follows the number of the last option row. */
  function LastOption(rows: seq<string>): Option<string> {
    if rows == [] then None
    else
      match ParseOption(rows[|rows| - 1])
      case Some((_, rest)) => Some(rest)
      case None => LastOption(rows[..|rows| - 1])
  }

  lemma {:induction false} FlagsMean(rows: seq<string>)
    requires rows != [] && !ReadOptions(rows).broken
    ensures ParseOption(rows[0]).Some? && LastOption(rows).Some?
    ensures ReadOptions(rows).firstIsYes <==> StartsWith(ParseOption(rows[0]).value.1, "Yes")
    ensures ReadOptions(rows).lastIsNo <==> StartsWith(LastOption(rows).value, "No")
  {
    hide ParseOption, IsOptionContinuation, StartsWith;
    ReadOptionsMeans(rows);
    var front := rows[..|rows| - 1];
    if front != [] {
      FlagsMean(front);
      ReadOptionsMeans(front);
      FirstRowCounts(front);
    }
  }

  /** `has_ordered_options`: at least two options in order, and, for an approval, the first a Yes and the last a No. */
  lemma OrderedOptionsMean(rows: seq<string>, requireYesNo: bool)
    ensures HasOrderedOptions(rows, requireYesNo)
            <==> && AreInOrder(rows) && |OptionNumbers(rows)| >= 2
                 && (requireYesNo ==> && rows != [] && LastOption(rows).Some?
                                      && StartsWith(ParseOption(rows[0]).value.1, "Yes")
                                      && StartsWith(LastOption(rows).value, "No"))
  {
    hide ParseOption, IsOptionContinuation, ReadOption, StartsWith;
    ReadOptionsMeans(rows);
    if rows != [] && !ReadOptions(rows).broken {
      FlagsMean(rows);
    }
  }
}
