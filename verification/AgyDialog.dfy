/** Live agy dialogs at the bottom of a pane (`src/agent/agy_approval.rs`). `rows` are the pane's non-blank rows. */
module AgyDialog {
  import opened Text
  import opened AgyRows
  import opened DetectRules

  const SCAN_NON_EMPTY_ROWS: nat := 30
  const MAX_TARGET_ROWS: nat := 12
  const MAX_EDIT_DIFF_ROWS: nat := 20

  /** The last of the first `n` rows that satisfies `p`. */
  function LastWhere(rows: seq<string>, n: nat, p: string -> bool): (r: Option<nat>)
    requires n <= |rows|
    ensures r.Some? ==> r.value < n && p(rows[r.value])
  {
    if n == 0 then None else if p(rows[n - 1]) then Some(n - 1) else LastWhere(rows, n - 1, p)
  }

  /** The first row in `lo..hi` that satisfies `p`. */
  function FirstWhere(rows: seq<string>, lo: nat, hi: nat, p: string -> bool): (r: Option<nat>)
    requires lo <= hi <= |rows|
    ensures r.Some? ==> lo <= r.value < hi && p(rows[r.value])
    decreases hi - lo
  {
    if lo == hi then None else if p(rows[lo]) then Some(lo) else FirstWhere(rows, lo + 1, hi, p)
  }

  predicate AnyRow(rows: seq<string>, p: string -> bool) {
    exists i :: 0 <= i < |rows| && p(rows[i])
  }

  function CancelFooterIndex(rows: seq<string>): (r: Option<nat>)
    ensures r.Some? ==> r.value < |rows|
  {
    var n := |rows|;
    if n == 0 then None
    else if IsCancelFooter(rows[n - 1]) then Some(n - 1)
    else if n >= 2 && IsCancelFooter(rows[n - 2])
            && (IsWorkspaceFooter(rows[n - 1]) || IsWrappedCancelTail(rows[n - 1])) then Some(n - 2)
    else None
  }

  function NavigateRowIndex(rows: seq<string>, cancel: nat): (r: Option<nat>)
    requires cancel < |rows|
    ensures r.Some? ==> r.value < cancel
  {
    if cancel >= 1 && IsNavigateRow(rows[cancel - 1]) then Some(cancel - 1)
    else if cancel >= 2 && IsNavigateRow(rows[cancel - 2]) && IsOptionContinuation(rows[cancel - 1])
    then Some(cancel - 2)
    else None
  }

  function NavigateRow(rows: seq<string>): (r: Option<nat>)
    ensures r.Some? ==> r.value < |rows|
  {
    match CancelFooterIndex(rows)
    case None => None
    case Some(cancel) => NavigateRowIndex(rows, cancel)
  }

  function RequestingHeaderTop(rows: seq<string>, question: nat): (r: Option<nat>)
    requires question < |rows|
    ensures r.Some? ==> r.value < question
  {
    match LastWhere(rows, question, row => IsCol0(row) && IsRequestingRow(row))
    case None => None
    case Some(request) =>
      var target := rows[request + 1..question];
      if target == [] || |target| > MAX_TARGET_ROWS || AnyRow(target, row => IsBoxRule(row) || IsTurnRow(row)) then None
      else if request == 0 then None
      else if IsBoxRule(rows[request - 1]) then
        if request >= 2 && IsPermissionHeader(rows[request - 2]) then Some(request - 2) else None
      else if IsPermissionHeader(rows[request - 1]) then Some(request - 1)
      else None
  }

  function RuledHeaderTop(rows: seq<string>, question: nat): (r: Option<nat>)
    requires question < |rows|
    ensures r.Some? ==> r.value < question
  {
    match LastWhere(rows, question, row => IsBoxRule(row))
    case None => None
    case Some(rule) =>
      var target := rows[rule + 1..question];
      if target == [] || AnyRow(target, row => IsTurnRow(row)) then None
      else if rule >= 1 && IsRuledPermissionHeader(rows[rule - 1]) then Some(rule - 1)
      else None
  }

  function PendingEditHeaderTop(rows: seq<string>, question: nat): (r: Option<nat>)
    requires question < |rows|
    ensures r.Some? ==> r.value < question
  {
    if Trim(rows[question]) != "Accept this file edit?" || question < 3 then None
    else if !IsAutoApproveEditsRow(rows[question - 1]) then None
    else
      // The search stops above row 0, so that the rule has a header row.
      match LastWhere(rows[1..], question - 2, row => IsBoxRule(row))
      case None => None
      case Some(before) =>
        var rule := before + 1;
        var body := rows[rule + 1..question - 1];
        if body == [] || |body| > MAX_EDIT_DIFF_ROWS || AnyRow(body, row => IsTurnRow(row))
           || !IsEditHeader(rows[rule - 1]) then None
        else Some(rule - 1)
  }

  /** Whichever of two searches finds something, the first one first. */
  function Else(first: Option<nat>, second: Option<nat>): Option<nat> {
    if first.Some? then first else second
  }

  function PermissionHeaderTop(rows: seq<string>, question: nat): Option<nat>
    requires question < |rows|
  {
    Else(RequestingHeaderTop(rows, question), RuledHeaderTop(rows, question))
  }

  function ApprovalTop(rows: seq<string>): Option<nat> {
    match NavigateRow(rows)
    case None => None
    case Some(nav) =>
      match LastWhere(rows, nav, row => IsCol0(row) && IsApprovalQuestion(Trim(row)))
      case None => None
      case Some(question) =>
        if !HasOrderedOptions(rows[question + 1..nav], true) then None
        else Else(PermissionHeaderTop(rows, question), PendingEditHeaderTop(rows, question))
  }

  predicate EndsWithQuestionMark(row: string) {
    var t := TrimEnd(row);
    t != "" && t[|t| - 1] == '?'
  }

  /** The question, at column 0 on one or more rows. */
  predicate IsPrompt(prompt: seq<string>) {
    && prompt != [] && !AnyRow(prompt, row => !IsCol0(row) || IsTurnRow(row))
    && (StartsWith(prompt[0], "Question ") || EndsWithQuestionMark(prompt[|prompt| - 1]))
  }

  function QuestionTop(rows: seq<string>): Option<nat> {
    match NavigateRow(rows)
    case None => None
    case Some(nav) =>
      match LastWhere(rows, nav, row => IsQuestionHeader(row))
      case None => None
      case Some(header) =>
        if header + 3 >= nav || !IsBoxRule(rows[header + 1]) then None
        else
          match FirstWhere(rows, header + 3, nav, row => ParseOption(row).Some?)
          case None => None
          case Some(options) =>
            if !IsPrompt(rows[header + 2..options]) then None
            else if HasOrderedOptions(rows[options..nav], false) then Some(header)
            else None
  }

  function EditorTop(rows: seq<string>): Option<nat> {
    match CancelFooterIndex(rows)
    case None => None
    case Some(cancel) =>
      if cancel == 0 || !IsEditorHint(rows[cancel - 1]) then None
      else
        match LastWhere(rows, cancel - 1, row => Trim(row) == "Requested Permission (Editable):")
        case None => None
        case Some(label') =>
          if label' == 0 || !IsBoxRule(rows[label' - 1]) then None
          else
            match LastWhere(rows, label' - 1, row => IsBoxRule(row))
            case None => None
            case Some(headerRule) =>
              if headerRule == 0 then None
              else
                var command, editable := rows[headerRule + 1..label' - 1], rows[label' + 1..cancel - 1];
                if AnyRow(command + editable, row => IsTurnRow(row)) || !IsEditorHeader(rows[headerRule - 1]) then None
                else Some(headerRule - 1)
  }

  /** A live approval, or the permission editor over one: what makes a pane need the user. */
  function BlockedTop(rows: seq<string>): Option<nat> {
    Else(ApprovalTop(rows), EditorTop(rows))
  }

  /** `matches`: the detection rule's reading of the region text. */
  predicate Matches(text: string) {
    BlockedTop(NonBlank(Lines(text))).Some?
  }

  // ---------- dialog_top ----------

  /** The numbers of the non-blank rows, in order. */
  function NonBlankIndices(lines: seq<string>): (r: seq<nat>)
    ensures |r| == |NonBlank(lines)|
    ensures forall i :: 0 <= i < |r| ==> r[i] < |lines| && lines[r[i]] == NonBlank(lines)[i]
  {
    if lines == [] then []
    else
      var n := |lines| - 1;
      var front := NonBlankIndices(lines[..n]);
      assert forall i :: 0 <= i < |front| ==> lines[..n][front[i]] == lines[front[i]];
      front + (if IsBlank(lines[n]) then [] else [n])
  }

  /** `dialog_top`: the header's row number among all the lines. */
  function DialogTop(lines: seq<string>): Option<nat> {
    var rows := Last(NonBlank(lines), SCAN_NON_EMPTY_ROWS);
    match Else(BlockedTop(rows), QuestionTop(rows))
    case None => None
    case Some(top) =>
      var indices := Last(NonBlankIndices(lines), SCAN_NON_EMPTY_ROWS);
      if top < |indices| then Some(indices[top]) else None
  }

  /** The rows' numbers are collected from the bottom up and then put in order. */
  method CollectRows(lines: seq<string>) returns (indices: seq<nat>)
    ensures indices == Last(NonBlankIndices(lines), SCAN_NON_EMPTY_ROWS)
  {
    hide IsBlank, NonBlank, NonBlankIndices;
    var collected: seq<nat> := [];
    var i := |lines|;
    assert lines[..i] == lines && NonBlankIndices(lines) + [] == NonBlankIndices(lines);
    while i > 0 && |collected| < SCAN_NON_EMPTY_ROWS
      invariant 0 <= i <= |lines| && |collected| <= SCAN_NON_EMPTY_ROWS
      invariant NonBlankIndices(lines) == NonBlankIndices(lines[..i]) + Reversed(collected)
    {
      i := i - 1;
      IndicesStep(lines, i);
      if !IsBlank(lines[i]) {
        ReversedAppend(collected, i);
        collected := collected + [i];
      }
    }
    NoIndices();
    indices := Reversed(collected);
    LastIsTail(NonBlankIndices(lines[..i]), indices, i == 0);
  }

  lemma IndicesStep(lines: seq<string>, i: nat)
    requires i < |lines|
    ensures NonBlankIndices(lines[..i + 1]) == NonBlankIndices(lines[..i]) + (if IsBlank(lines[i]) then [] else [i])
  {
    hide IsBlank, NonBlank;
    assert lines[..i + 1][..i] == lines[..i];
  }

  lemma NoIndices()
    ensures NonBlankIndices([]) == []
  {
  }

  /** `dialog_top`. */
  method DialogTopOf(lines: seq<string>) returns (r: Option<nat>)
    ensures r == DialogTop(lines)
  {
    hide IsBlank, BlockedTop, QuestionTop, IsHeader, NonBlank, NonBlankIndices;
    var indices := CollectRows(lines);
    var rows := seq(|indices|, k requires 0 <= k < |indices| => lines[indices[k]]);
    assert rows == ViewRows(lines);
    var top := Else(BlockedTop(rows), QuestionTop(rows));
    TopIsHeader(rows);
    r := if top.Some? then Some(indices[top.value]) else None;
  }

  lemma LastIsTail(front: seq<nat>, tail: seq<nat>, whole: bool)
    requires |tail| <= SCAN_NON_EMPTY_ROWS
    requires if whole then front == [] else |tail| == SCAN_NON_EMPTY_ROWS
    ensures Last(front + tail, SCAN_NON_EMPTY_ROWS) == tail
  {
  }

  /** Row numbers map back to the very row, not merely to an equal one: row `i` of the non-blank rows is the one with
      exactly the first `i` of them above it. */
  lemma {:induction false} NonBlankIndicesMapBack(lines: seq<string>, i: nat)
    requires i < |NonBlank(lines)|
    ensures NonBlank(lines[..NonBlankIndices(lines)[i]]) == NonBlank(lines)[..i]
  {
    hide IsBlank;
    var n := |lines| - 1;
    var front := lines[..n];
    var at := NonBlankIndices(lines)[i];
    if i < |NonBlank(front)| {
      NonBlankIndicesMapBack(front, i);
      assert at == NonBlankIndices(front)[i];
      assert lines[..at] == front[..at];
    } else {
      assert at == n;
    }
  }

  // ---------- The header row ----------

  /** A dialog's header row. */
  predicate IsHeader(row: string) {
    IsPermissionHeader(row) || IsRuledPermissionHeader(row) || IsEditHeader(row) || IsEditorHeader(row)
    || IsQuestionHeader(row)
  }

  lemma ApprovalTopIsHeader(rows: seq<string>)
    requires ApprovalTop(rows).Some?
    ensures ApprovalTop(rows).value < |rows|
    ensures IsPermissionHeader(rows[ApprovalTop(rows).value]) || IsRuledPermissionHeader(rows[ApprovalTop(rows).value])
            || IsEditHeader(rows[ApprovalTop(rows).value])
  {
    hide IsPermissionHeader, IsRuledPermissionHeader, IsEditHeader, HasOrderedOptions, IsApprovalQuestion, IsBoxRule,
         IsTurnRow, IsRequestingRow, IsCol0, NavigateRow, Trim, IsAutoApproveEditsRow;
  }

  lemma EditorTopIsHeader(rows: seq<string>)
    requires EditorTop(rows).Some?
    ensures EditorTop(rows).value < |rows| && IsEditorHeader(rows[EditorTop(rows).value])
  {
    hide IsEditorHeader, IsBoxRule, IsTurnRow, IsEditorHint, Trim, CancelFooterIndex;
  }

  lemma QuestionTopIsHeader(rows: seq<string>)
    requires QuestionTop(rows).Some?
    ensures QuestionTop(rows).value < |rows| && IsQuestionHeader(rows[QuestionTop(rows).value])
  {
    hide IsQuestionHeader, IsBoxRule, IsTurnRow, HasOrderedOptions, NavigateRow, IsPrompt, ParseOption;
  }

  lemma TopIsHeader(rows: seq<string>)
    ensures BlockedTop(rows).Some? ==> BlockedTop(rows).value < |rows| && IsHeader(rows[BlockedTop(rows).value])
    ensures QuestionTop(rows).Some? ==> QuestionTop(rows).value < |rows| && IsHeader(rows[QuestionTop(rows).value])
  {
    hide IsPermissionHeader, IsRuledPermissionHeader, IsEditHeader, IsEditorHeader, IsQuestionHeader, ApprovalTop,
         EditorTop, QuestionTop;
    if ApprovalTop(rows).Some? {
      ApprovalTopIsHeader(rows);
    }
    if EditorTop(rows).Some? {
      EditorTopIsHeader(rows);
    }
    if QuestionTop(rows).Some? {
      QuestionTopIsHeader(rows);
    }
  }

  /** The rows both readers search. */
  function ViewRows(lines: seq<string>): seq<string> {
    Last(NonBlank(lines), SCAN_NON_EMPTY_ROWS)
  }

  function ViewTop(lines: seq<string>): Option<nat> {
    Else(BlockedTop(ViewRows(lines)), QuestionTop(ViewRows(lines)))
  }

  /** `dialog_top` returns the viewport's own row number of row `top` of the searched ones, a dialog header. */
  predicate ReturnsRow(lines: seq<string>, top: nat) {
    var rows, found := ViewRows(lines), DialogTop(lines);
    && top < |rows| && found.Some? && found.value < |lines|
    && lines[found.value] == rows[top] && IsHeader(rows[top])
    && NonBlank(lines[..found.value]) == NonBlank(lines)[..|NonBlank(lines)| - |rows| + top]
  }

  /** `dialog_top` finds a header exactly when the search of the rows does, and returns that very row. */
  lemma DialogTopIsHeader(lines: seq<string>)
    ensures DialogTop(lines).Some? <==> ViewTop(lines).Some?
    ensures ViewTop(lines).Some? ==> ReturnsRow(lines, ViewTop(lines).value)
  {
    hide BlockedTop, QuestionTop, IsHeader, NonBlank, NonBlankIndices;
    TopIsHeader(ViewRows(lines));
    if ViewTop(lines).Some? {
      NonBlankIndicesMapBack(lines, |NonBlank(lines)| - |ViewRows(lines)| + ViewTop(lines).value);
    }
  }

  /** Both readers see the same rows: the detection rule fires on the region's text exactly when the same search
      over the viewport finds a blocking dialog, and then `dialog_top` returns that dialog's header row. */
  lemma ReadersAgree(lines: seq<string>)
    requires AreLines(lines)
    ensures Matches(RegionText(lines, SCAN_NON_EMPTY_ROWS)) <==> BlockedTop(ViewRows(lines)).Some?
    ensures Matches(RegionText(lines, SCAN_NON_EMPTY_ROWS)) ==> ReturnsRow(lines, BlockedTop(ViewRows(lines)).value)
  {
    hide BlockedTop, QuestionTop, NonBlank, DialogTop, AreLines, RegionText, Lines, ReturnsRow;
    RegionReadsBack(lines, SCAN_NON_EMPTY_ROWS);
    DialogTopIsHeader(lines);
  }
}
