/** Permission dialogs as agy prints them, found wherever they end a pane (`src/agent/agy_approval.rs`). */
module AgyPrinted {
  import opened Text
  import opened Numbers
  import opened AgyRows
  import opened DetectRules
  import opened AgyDialog

  // ---------- A printed permission dialog is found ----------

  /** A permission dialog as agy prints it. */
  datatype Dialog = Dialog(header: string, rule: Option<string>, request: string, target: seq<string>,
                           question: string, options: seq<string>, navigate: string, cancel: string)

  function DialogRows(d: Dialog): seq<string> {
    [d.header] + (if d.rule.Some? then [d.rule.value] else []) + [d.request] + d.target
    + [d.question] + d.options + [d.navigate, d.cancel]
  }

  predicate IsRequest(row: string) {
    IsCol0(row) && IsRequestingRow(row)
  }

  predicate IsQuestion(row: string) {
    IsCol0(row) && IsApprovalQuestion(Trim(row))
  }

  predicate IsDialog(d: Dialog) {
    && IsPermissionHeader(d.header) && !IsBoxRule(d.header)
    && (d.rule.Some? ==> IsBoxRule(d.rule.value))
    && IsRequest(d.request)
    && 1 <= |d.target| <= MAX_TARGET_ROWS
    && (forall i :: 0 <= i < |d.target| ==>
          !IsBoxRule(d.target[i]) && !IsTurnRow(d.target[i]) && !IsRequest(d.target[i]))
    && IsQuestion(d.question)
    && HasOrderedOptions(d.options, true)
    && (forall i :: 0 <= i < |d.options| ==> !IsQuestion(d.options[i]))
    && IsNavigateRow(d.navigate) && IsCancelFooter(d.cancel)
  }

  /** The last row that satisfies `p`, known. */
  lemma {:induction false} LastWhereIs(rows: seq<string>, n: nat, p: string -> bool, at: nat)
    requires at < n <= |rows| && p(rows[at]) && forall i :: at < i < n ==> !p(rows[i])
    ensures LastWhere(rows, n, p) == Some(at)
  {
    if at < n - 1 {
      LastWhereIs(rows, n - 1, p, at);
    }
  }

  /** Where the parts of the dialog are, whatever is above it. */
  lemma PartsOf(above: seq<string>, d: Dialog)
    ensures var rows := above + DialogRows(d);
            var request := |above| + 1 + (if d.rule.Some? then 1 else 0);
            var question := request + 1 + |d.target|;
            var nav := question + 1 + |d.options|;
            && nav + 2 == |rows|
            && rows[|above|] == d.header && (d.rule.Some? ==> rows[|above| + 1] == d.rule.value)
            && rows[request] == d.request && rows[request + 1..question] == d.target
            && rows[question] == d.question && rows[question + 1..nav] == d.options
            && rows[nav] == d.navigate && rows[nav + 1] == d.cancel
  {
    var head := above + [d.header] + (if d.rule.Some? then [d.rule.value] else []);
    var foot := [d.navigate, d.cancel];
    var rows := above + DialogRows(d);
    assert rows == head + [d.request] + d.target + [d.question] + d.options + foot;
    Middle(head + [d.request], d.target, [d.question] + d.options + foot);
    Middle(head + [d.request] + d.target + [d.question], d.options, foot);
    assert rows == head + [d.request] + d.target + ([d.question] + d.options + foot);
  }

  lemma Middle(front: seq<string>, middle: seq<string>, back: seq<string>)
    ensures (front + middle + back)[|front|..|front| + |middle|] == middle
  {
  }

  /** The approval search finds the header of any printed dialog at the bottom, whatever rows are above it. */
  lemma DialogIsFound(above: seq<string>, d: Dialog)
    requires IsDialog(d)
    ensures ApprovalTop(above + DialogRows(d)) == Some(|above|)
  {
    hide IsPermissionHeader, IsBoxRule, IsTurnRow, IsRequestingRow, IsCol0, IsApprovalQuestion, HasOrderedOptions, Trim,
         IsNavigateRow, IsCancelFooter, LastWhere, DialogRows, RequestingHeaderTop, RuledHeaderTop,
         PendingEditHeaderTop;
    PartsOf(above, d);
    var rows := above + DialogRows(d);
    var request := |above| + 1 + (if d.rule.Some? then 1 else 0);
    var question := request + 1 + |d.target|;
    var nav := question + 1 + |d.options|;
    QuestionIsLast(rows, d, question, nav);
    HeaderIsAbove(rows, d, request, question);
    assert NavigateRow(rows) == Some(nav);
    assert ApprovalTop(rows) == Else(PermissionHeaderTop(rows, question), PendingEditHeaderTop(rows, question));
  }

  lemma QuestionIsLast(rows: seq<string>, d: Dialog, question: nat, nav: nat)
    requires IsDialog(d) && question < nav <= |rows| && rows[question] == d.question
    requires rows[question + 1..nav] == d.options
    ensures LastWhere(rows, nav, row => IsCol0(row) && IsApprovalQuestion(Trim(row))) == Some(question)
  {
    hide IsCol0, IsApprovalQuestion, Trim, LastWhere, IsPermissionHeader, IsBoxRule, IsTurnRow, IsRequest,
         HasOrderedOptions, IsNavigateRow, IsCancelFooter;
    forall i | question < i < nav
      ensures !IsQuestion(rows[i])
    {
      assert rows[i] == d.options[i - question - 1];
    }
    LastWhereIs(rows, nav, row => IsCol0(row) && IsApprovalQuestion(Trim(row)), question);
  }

  lemma HeaderIsAbove(rows: seq<string>, d: Dialog, request: nat, question: nat)
    requires IsDialog(d) && question < |rows| && question == request + 1 + |d.target|
    requires rows[request] == d.request && rows[request + 1..question] == d.target
    requires if d.rule.Some? then request >= 2 && rows[request - 1] == d.rule.value && rows[request - 2] == d.header
             else request >= 1 && rows[request - 1] == d.header
    ensures RequestingHeaderTop(rows, question) == Some(if d.rule.Some? then request - 2 else request - 1)
  {
    hide IsCol0, IsRequestingRow, LastWhere, IsPermissionHeader, IsBoxRule, IsTurnRow, IsQuestion, HasOrderedOptions,
         IsNavigateRow, IsCancelFooter;
    forall i | request < i < question
      ensures !IsRequest(rows[i])
    {
      assert rows[i] == d.target[i - request - 1];
    }
    LastWhereIs(rows, question, row => IsCol0(row) && IsRequestingRow(row), request);
  }

  /** So the detection rule fires on every pane that ends with a printed dialog the view holds, and `dialog_top` returns
      the dialog's header row. */
  lemma DialogIsDetected(lines: seq<string>, above: seq<string>, d: Dialog)
    requires AreLines(lines) && IsDialog(d) && ViewRows(lines) == above + DialogRows(d)
    ensures Matches(RegionText(lines, SCAN_NON_EMPTY_ROWS)) && ReturnsRow(lines, |above|)
  {
    hide IsDialog, DialogRows, ApprovalTop, EditorTop, AreLines, RegionText, Matches, ReturnsRow, ViewRows;
    DialogIsFound(above, d);
    ReadersAgree(lines);
  }

  // ---------- One of them ----------

  const EXAMPLE: Dialog := Dialog("Command", None, "Requesting permission for:", ["ls"], "Run this command?",
                                  ["1. Yes", "2. No"], "↑/↓ Navigate", "esc to cancel")

  /** There are such dialogs. */
  lemma ExampleIsDialog()
    ensures IsDialog(EXAMPLE)
  {
    hide IsPermissionHeader, IsBoxRule, IsTurnRow, IsRequestingRow, IsCol0, IsApprovalQuestion, HasOrderedOptions, Trim,
         IsNavigateRow, IsCancelFooter, IsQuestion, IsRequest;
    ExampleHeader();
    ExampleTarget();
    ExampleQuestion();
    ExampleOptions();
    ExampleFooter();
  }

  lemma {:induction false} TrimIsItself(row: string)
    requires row != "" && !IsWhitespace(row[0]) && !IsWhitespace(row[|row| - 1])
    ensures Trim(row) == row && TrimStart(row) == row && TrimEnd(row) == row
  {
    hide IsWhitespace;
  }

  lemma ExampleHeader()
    ensures IsPermissionHeader("Command") && !IsBoxRule("Command") && IsRequest("Requesting permission for:")
  {
    TrimIsItself("Command");
    TrimIsItself("Requesting permission for:");
  }

  lemma ExampleTarget()
    ensures !IsBoxRule("ls") && !IsTurnRow("ls") && !IsRequest("ls")
  {
    TrimIsItself("ls");
  }

  lemma ExampleQuestion()
    ensures IsQuestion("Run this command?") && !IsQuestion("1. Yes") && !IsQuestion("2. No")
  {
    hide IsQuestion;
    RunIsQuestion();
    OptionIsNoQuestion("1. Yes");
    OptionIsNoQuestion("2. No");
  }

  lemma RunIsQuestion()
    ensures IsQuestion("Run this command?")
  {
    hide Trim;
    assert Trim("Run this command?") == "Run this command?" by { TrimIsItself("Run this command?"); }
  }

  lemma OptionIsNoQuestion(row: string)
    requires |row| > 1 && '0' <= row[0] <= '9' && !IsWhitespace(row[|row| - 1])
    ensures !IsQuestion(row)
  {
    hide IsApprovalQuestion, Trim;
    assert Trim(row) == row by { TrimIsItself(row); }
    if IsApprovalQuestion(row) {
      QuestionsStartWithLetters(row);
    }
  }

  lemma QuestionsStartWithLetters(q: string)
    requires IsApprovalQuestion(q)
    ensures q != "" && 'A' <= q[0] <= 'Z'
  {
  }

  lemma ExampleOptions()
    ensures HasOrderedOptions(["1. Yes", "2. No"], true)
  {
    hide ParseOption;
    ExampleOption("1", 1, "Yes");
    ExampleOption("2", 2, "No");
    var rows := ["1. Yes", "2. No"];
    assert "1" + ". " + "Yes" == "1. Yes" && "2" + ". " + "No" == "2. No";
    assert rows[..1] == ["1. Yes"] && ["1. Yes"][..0] == [];
    assert ReadOptions([]) == Options(1, false, false, false);
    assert ReadOptions(rows[..1]) == Options(2, true, false, false);
  }

  lemma ExampleOption(digit: string, n: nat, rest: string)
    requires |digit| == 1 && n < 10 && digit[0] == ('0' as int + n) as char
    requires rest != "" && !IsWhitespace(rest[0]) && !IsWhitespace(rest[|rest| - 1])
    ensures ParseOption(digit + ". " + rest) == Some((n, rest))
  {
    hide TrimStart, SplitOnce, ParseU64, IsWhitespace;
    var row := digit + ". " + rest;
    StartIsItself(row);
    StartIsItself(rest);
    SplitAfterOne(digit, rest);
    DigitParses(digit, n);
  }

  lemma StartIsItself(row: string)
    requires row != "" && (!IsWhitespace(row[0]) || '0' <= row[0] <= '9')
    ensures TrimStart(row) == row
  {
  }

  lemma SplitAfterOne(digit: string, rest: string)
    requires |digit| == 1 && digit[0] != '.'
    ensures SplitOnce(digit + ". " + rest, ". ") == Some((digit, rest))
  {
    FindAfter(digit, ". ", rest);
    assert digit + ". " + rest == digit + (". " + rest);
  }

  lemma DigitParses(digit: string, n: nat)
    requires |digit| == 1 && n < 10 && digit[0] == ('0' as int + n) as char
    ensures ParseU64(digit) == Some(n)
  {
    assert Number(digit) == n by { assert digit[..0] == ""; }
  }

  lemma ExampleFooter()
    ensures IsNavigateRow("↑/↓ Navigate") && IsCancelFooter("esc to cancel")
  {
    TrimIsItself("↑/↓ Navigate");
    TrimIsItself("esc to cancel");
    CancelSplits();
    EscIsKey();
  }

  lemma CancelSplits()
    ensures SplitOnce("esc to cancel", " to cancel") == Some(("esc", ""))
  {
    var row := "esc to cancel";
    assert row == "esc" + (" to cancel" + "");
    FindAfter("esc", " to cancel", "");
  }

  /** A part that starts with a character the text before it lacks is found after that text. */
  lemma {:induction false} FindAfter(before: string, part: string, after: string)
    requires part != "" && part[0] !in before
    ensures Find(before + (part + after), part) == Some(|before|)
    ensures var s := before + (part + after); s[..|before|] == before && s[|before| + |part|..] == after
  {
    var s := before + (part + after);
    if before == "" {
      assert s == part + after && s[..|part|] == part;
    } else {
      assert s[1..] == before[1..] + (part + after);
      assert !StartsWith(s, part) by { assert s[0] != part[0]; }
      FindAfter(before[1..], part, after);
    }
  }

  lemma {:induction false} OneKey(token: string)
    requires token != "" && forall i :: 0 <= i < |token| ==> token[i] !in "+-^"
    ensures SplitKeys(token) == [token]
  {
    if |token| == 1 {
      assert token[1..] == "" && token == [token[0]] + "";
    } else {
      OneKey(token[1..]);
      assert [token[0]] + token[1..] == token;
    }
  }

  lemma EscIsKey()
    ensures IsKeyToken("esc")
  {
    OneKey("esc");
    assert "esc"[1..] == "sc" && "sc"[1..] == "c" && "c"[1..] == "";
    assert ByteLength("") == 0 && ByteLength("c") == 1 && ByteLength("sc") == 2 && ByteLength("esc") == 3;
    assert Lowercase("esc") == "esc";
    assert IsKeyPart("esc");
    assert SplitKeys("esc")[0] == "esc";
  }
}
