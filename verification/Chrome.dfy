/** Where an agent's own chrome starts at the bottom of its pane (`src/agent/chrome.rs`). */
module Chrome {
  import opened Text
  import opened AgyRows
  import opened DetectRules
  import AgyDialog

  const FOOTER_MAX_ROWS: nat := 20
  const INPUT_MAX_ROWS: nat := 40

  /** The lowest box rule among the last `budget` non-blank rows below row `hi`. */
  function BottomRule(lines: seq<string>, hi: nat, budget: nat): (r: Option<nat>)
    requires hi <= |lines|
    ensures r.Some? ==> r.value < hi && IsBoxRule(lines[r.value])
    decreases hi
  {
    if hi == 0 || budget == 0 then None
    else if IsBlank(lines[hi - 1]) then BottomRule(lines, hi - 1, budget)
    else if IsBoxRule(lines[hi - 1]) then Some(hi - 1)
    else BottomRule(lines, hi - 1, budget - 1)
  }

  /** The lowest row among the `budget` rows above `hi` whose number satisfies `p`. */
  function TopRule(hi: nat, budget: nat, p: nat -> bool): (r: Option<nat>)
    ensures r.Some? ==> r.value < hi && hi <= r.value + budget && p(r.value)
    ensures r.Some? ==> forall i :: r.value < i < hi ==> !p(i)
    ensures r.None? ==> forall i :: 0 <= i < hi <= i + budget ==> !p(i)
    decreases hi
  {
    if hi == 0 || budget == 0 then None
    else if p(hi - 1) then Some(hi - 1)
    else TopRule(hi - 1, budget - 1, p)
  }

  // ---------- Claude Code ----------

  function RuleAt(lines: seq<string>): nat -> bool {
    (i: nat) => i < |lines| && IsBoxRule(lines[i])
  }

  function ClaudeOutputLen(lines: seq<string>): (n: nat)
    ensures n <= |lines|
  {
    match BottomRule(lines, |lines|, FOOTER_MAX_ROWS)
    case None => |lines|
    case Some(bottom) =>
      match TopRule(bottom, INPUT_MAX_ROWS, RuleAt(lines))
      case None => |lines|
      case Some(top) => top
  }

  // ---------- agy ----------

  predicate IsComposerPrompt(row: string) {
    StartsWithAny(row, ">❯")
  }

  predicate IsComposerBody(body: seq<string>) {
    && body != [] && IsComposerPrompt(body[0])
    && forall i :: 0 <= i < |body| ==> !IsBoxRule(body[i]) && !IsTurnRow(body[i])
  }

  predicate IsFooterHint(row: string) {
    || Contains(row, "? for shortcuts") || Contains(row, "sandbox:") || Contains(row, "-- INSERT --")
    || Contains(row, "-- NORMAL --") || Contains(row, "-- VISUAL --") || IsCancelFooter(row)
  }

  predicate IsFooterIntruder(row: string) {
    TrimStart(row) == "Requesting permission for:" || IsTurnRow(row) || IsComposerPrompt(row)
  }

  predicate HasAgyFooter(footer: seq<string>) {
    && (exists i :: 0 <= i < |footer| && IsFooterHint(footer[i]))
    && (forall i :: 0 <= i < |footer| ==> !IsFooterIntruder(footer[i]))
  }

  /** Row `top` is a composer's top rule over the bottom rule `bottom`. */
  predicate IsComposerTop(lines: seq<string>, bottom: nat, top: nat)
    requires bottom < |lines|
  {
    && top < bottom && IsBoxRule(lines[top]) && TrimEnd(lines[top]) == TrimEnd(lines[bottom])
    && IsComposerBody(lines[top + 1..bottom])
  }

  /** The composer's top rule over the bottom rule `bottom`. */
  function ComposerTop(lines: seq<string>, bottom: nat): Option<nat>
    requires bottom < |lines|
  {
    hide *;
    if !HasAgyFooter(lines[bottom + 1..]) then None
    else TopRule(bottom, INPUT_MAX_ROWS, (i: nat) => IsComposerTop(lines, bottom, i))
  }

  function AgyComposerStart(lines: seq<string>): Option<nat> {
    match BottomRule(lines, |lines|, FOOTER_MAX_ROWS)
    case None => None
    case Some(bottom) => ComposerTop(lines, bottom)
  }

  /** `agy_output_len`: the composer's top rule, else a dialog's header, else everything. */
  function AgyOutputLen(lines: seq<string>): nat {
    match AgyDialog.Else(AgyComposerStart(lines), AgyDialog.DialogTop(lines))
    case None => |lines|
    case Some(top) => top
  }

  // ---------- Properties ----------

  /** Row `b` is the lowest box rule above `hi`, with fewer than `budget` non-blank rows between. */
  predicate IsBottomRule(lines: seq<string>, hi: nat, budget: nat, b: nat) {
    && b < hi <= |lines| && IsBoxRule(lines[b])
    && (forall i :: b < i < hi ==> !IsBoxRule(lines[i]))
    && |NonBlank(lines[b + 1..hi])| < budget
  }

  /** The search from the bottom finds that row, and only that row. */
  lemma {:induction false} BottomRuleIs(lines: seq<string>, hi: nat, budget: nat, b: nat)
    requires hi <= |lines|
    ensures BottomRule(lines, hi, budget) == Some(b) <==> IsBottomRule(lines, hi, budget, b)
    decreases hi
  {
    hide IsBlank, IsBoxRule;
    if hi > 0 && budget > 0 && b < hi {
      if b < hi - 1 {
        assert lines[b + 1..hi][..hi - b - 2] == lines[b + 1..hi - 1];
      }
      RuleIsNotBlank(lines[hi - 1]);
      BottomRuleIs(lines, hi - 1, budget, b);
      BottomRuleIs(lines, hi - 1, budget - 1, b);
    }
  }

  lemma RuleIsNotBlank(row: string)
    ensures IsBlank(row) ==> !IsBoxRule(row)
  {
  }

  /** Rows `top` and `bottom` are the rules of an input box: the lowest two, near enough to each other and the end. */
  predicate IsBox(lines: seq<string>, top: nat, bottom: nat) {
    && IsBottomRule(lines, |lines|, FOOTER_MAX_ROWS, bottom)
    && top < bottom <= top + INPUT_MAX_ROWS && IsBoxRule(lines[top])
    && forall i :: top < i < bottom ==> !IsBoxRule(lines[i])
  }

  /** Claude's output ends above an input box, or at the end when there is none. */
  lemma ClaudeOutputEndsAtBox(lines: seq<string>, top: nat)
    ensures top < |lines| ==> (ClaudeOutputLen(lines) == top <==> exists bottom: nat :: IsBox(lines, top, bottom))
  {
    hide IsBottomRule, BottomRule, IsBoxRule;
    var found := BottomRule(lines, |lines|, FOOTER_MAX_ROWS);
    forall b: nat
      ensures found == Some(b) <==> IsBottomRule(lines, |lines|, FOOTER_MAX_ROWS, b)
    {
      BottomRuleIs(lines, |lines|, FOOTER_MAX_ROWS, b);
    }
    if found.Some? {
      assert IsBottomRule(lines, |lines|, FOOTER_MAX_ROWS, found.value);
      assert forall i: nat :: i < |lines| ==> RuleAt(lines)(i) == IsBoxRule(lines[i]);
      var r := TopRule(found.value, INPUT_MAX_ROWS, RuleAt(lines));
      if r.Some? {
        assert IsBox(lines, r.value, found.value);
      }
    }
  }

  /** At most one rule above the bottom one can be the composer's: the search direction plays no part. */
  lemma ComposerTopIsUnique(lines: seq<string>, bottom: nat, i: nat, j: nat)
    requires bottom < |lines|
    ensures IsComposerTop(lines, bottom, i) && IsComposerTop(lines, bottom, j) ==> i == j
  {
    hide IsBoxRule, IsComposerPrompt, IsTurnRow;
  }

  /** Rows `top` and `bottom` are the rules of a live composer. */
  predicate IsComposer(lines: seq<string>, top: nat, bottom: nat) {
    && IsBottomRule(lines, |lines|, FOOTER_MAX_ROWS, bottom)
    && HasAgyFooter(lines[bottom + 1..])
    && bottom <= top + INPUT_MAX_ROWS && IsComposerTop(lines, bottom, top)
  }

  /** The composer starts at a row exactly when that is a live composer's top rule. */
  lemma ComposerStartIsTheTop(lines: seq<string>, top: nat)
    ensures AgyComposerStart(lines) == Some(top) <==> exists bottom: nat :: IsComposer(lines, top, bottom)
  {
    hide IsComposerTop, HasAgyFooter, IsBottomRule, BottomRule, ComposerTop;
    var found := BottomRule(lines, |lines|, FOOTER_MAX_ROWS);
    forall b: nat
      ensures found == Some(b) <==> IsBottomRule(lines, |lines|, FOOTER_MAX_ROWS, b)
    {
      BottomRuleIs(lines, |lines|, FOOTER_MAX_ROWS, b);
    }
    if found.Some? {
      ComposerTopIs(lines, found.value, top);
      assert IsComposer(lines, top, found.value) <==> AgyComposerStart(lines) == Some(top);
    }
  }

  lemma ComposerTopIs(lines: seq<string>, bottom: nat, top: nat)
    requires bottom < |lines|
    ensures ComposerTop(lines, bottom) == Some(top)
            <==> && HasAgyFooter(lines[bottom + 1..])
                 && bottom <= top + INPUT_MAX_ROWS && IsComposerTop(lines, bottom, top)
  {
    hide IsComposerTop, HasAgyFooter, TopRule;
    var found := ComposerTop(lines, bottom);
    var isTop := (i: nat) => IsComposerTop(lines, bottom, i);
    if HasAgyFooter(lines[bottom + 1..]) {
      assert found == TopRule(bottom, INPUT_MAX_ROWS, isTop);
      if found.Some? {
        assert isTop(found.value);
        ComposerTopIsUnique(lines, bottom, found.value, top);
      }
      if IsComposerTop(lines, bottom, top) && bottom <= top + INPUT_MAX_ROWS {
        TopIsAbove(lines, bottom, top);
        assert isTop(top);
      }
    }
  }

  lemma TopIsAbove(lines: seq<string>, bottom: nat, top: nat)
    requires bottom < |lines| && IsComposerTop(lines, bottom, top)
    ensures top < bottom
  {
  }

  lemma ComposerStartIsARow(lines: seq<string>)
    ensures AgyComposerStart(lines).Some? ==> AgyComposerStart(lines).value < |lines|
  {
    hide IsComposerTop, HasAgyFooter, IsBoxRule, IsBlank;
  }

  /** When the detection rule fires on a pane, its output stops strictly above the viewport's end. */
  lemma BlockedPaneHidesDialog(lines: seq<string>)
    requires AreLines(lines)
    ensures AgyDialog.Matches(RegionText(lines, AgyDialog.SCAN_NON_EMPTY_ROWS)) ==> AgyOutputLen(lines) < |lines|
  {
    hide AgyDialog.BlockedTop, AgyDialog.DialogTop, AgyDialog.Matches, AreLines, RegionText, AgyComposerStart,
         AgyDialog.ViewRows, AgyDialog.IsHeader;
    ComposerStartIsARow(lines);
    AgyDialog.ReadersAgree(lines);
  }

  // ---------- Trailing blank rows ----------

  predicate AreBlank(rows: seq<string>) {
    forall i :: 0 <= i < |rows| ==> IsBlank(rows[i])
  }

  lemma {:induction false} BottomRuleIgnoresBlanks(lines: seq<string>, blanks: seq<string>, budget: nat)
    requires AreBlank(blanks) && budget > 0
    ensures BottomRule(lines + blanks, |lines + blanks|, budget) == BottomRule(lines, |lines|, budget)
  {
    hide IsBoxRule, IsBlank;
    if blanks == [] {
      assert lines + blanks == lines;
    } else {
      var n := |blanks| - 1;
      var shorter := lines + blanks[..n];
      BottomRuleIgnoresBlanks(lines, blanks[..n], budget);
      BottomRuleIsLocal(lines + blanks, shorter, |shorter|, budget);
      assert IsBlank((lines + blanks)[|shorter|]);
    }
  }

  lemma {:induction false} BottomRuleIsLocal(a: seq<string>, b: seq<string>, hi: nat, budget: nat)
    requires hi <= |a| && hi <= |b| && a[..hi] == b[..hi]
    ensures BottomRule(a, hi, budget) == BottomRule(b, hi, budget)
    decreases hi
  {
    hide IsBoxRule, IsBlank;
    if hi > 0 && budget > 0 {
      assert a[hi - 1] == a[..hi][hi - 1] == b[hi - 1];
      assert a[..hi - 1] == a[..hi][..hi - 1];
      assert b[..hi - 1] == b[..hi][..hi - 1];
      BottomRuleIsLocal(a, b, hi - 1, budget);
      BottomRuleIsLocal(a, b, hi - 1, budget - 1);
    }
  }

  lemma {:induction false} TopRuleAgrees(hi: nat, budget: nat, p: nat -> bool, q: nat -> bool)
    requires forall i: nat :: i < hi ==> p(i) == q(i)
    ensures TopRule(hi, budget, p) == TopRule(hi, budget, q)
    decreases hi
  {
    if hi > 0 && budget > 0 && !p(hi - 1) {
      TopRuleAgrees(hi - 1, budget - 1, p, q);
    }
  }

  lemma ClaudeBelowBlanks(lines: seq<string>, blanks: seq<string>)
    requires AreBlank(blanks)
    ensures ClaudeOutputLen(lines) < |lines| ==> ClaudeOutputLen(lines + blanks) == ClaudeOutputLen(lines)
    ensures ClaudeOutputLen(lines) == |lines| ==> ClaudeOutputLen(lines + blanks) == |lines + blanks|
  {
    hide IsBoxRule, BottomRule;
    BottomRuleIgnoresBlanks(lines, blanks, FOOTER_MAX_ROWS);
    var bottom := BottomRule(lines, |lines|, FOOTER_MAX_ROWS);
    if bottom.Some? {
      var all := lines + blanks;
      TopRuleAgrees(bottom.value, INPUT_MAX_ROWS, RuleAt(lines), RuleAt(all));
    }
  }

  ghost predicate HasBox(lines: seq<string>) {
    exists top: nat, bottom: nat :: IsBox(lines, top, bottom)
  }

  lemma ClaudeOutputStops(lines: seq<string>)
    ensures ClaudeOutputLen(lines) < |lines| <==> HasBox(lines)
  {
    hide ClaudeOutputLen, IsBottomRule, IsBoxRule;
    if ClaudeOutputLen(lines) < |lines| {
      ClaudeOutputEndsAtBox(lines, ClaudeOutputLen(lines));
    }
    if HasBox(lines) {
      var top: nat, bottom: nat :| IsBox(lines, top, bottom);
      assert bottom < |lines| by { BottomIsInside(lines, bottom); }
      ClaudeOutputEndsAtBox(lines, top);
    }
  }

  lemma BottomIsInside(lines: seq<string>, bottom: nat)
    requires IsBottomRule(lines, |lines|, FOOTER_MAX_ROWS, bottom)
    ensures bottom < |lines|
  {
  }

  /** Blank rows added at the bottom leave Claude's output length alone exactly when an input box is on screen; with
      none all the rows are output, the blank ones too. */
  lemma ClaudeIgnoresTrailingBlanks(lines: seq<string>, blanks: seq<string>)
    requires AreBlank(blanks)
    ensures ClaudeOutputLen(lines + blanks) == ClaudeOutputLen(lines) <==> blanks == [] || HasBox(lines)
  {
    hide ClaudeOutputLen, AreBlank, HasBox;
    ClaudeBelowBlanks(lines, blanks);
    ClaudeOutputStops(lines);
    if blanks == [] {
      assert lines + blanks == lines;
    }
  }

  lemma ContainsNonBlank(row: string, part: string)
    requires IsBlank(row) && !IsBlank(part)
    ensures !Contains(row, part)
  {
  }

  /** A blank row below the box is neither a footer hint nor a sign against it. */
  lemma BlankRowIsNoFooter(row: string)
    requires IsBlank(row)
    ensures !IsFooterHint(row) && !IsFooterIntruder(row)
  {
    hide IsBlank, Contains, IsKeyToken;
    HintsAreNotBlank();
    ContainsNonBlank(row, "? for shortcuts");
    ContainsNonBlank(row, "sandbox:");
    ContainsNonBlank(row, "-- INSERT --");
    ContainsNonBlank(row, "-- NORMAL --");
    ContainsNonBlank(row, "-- VISUAL --");
    assert TrimStart(row) == "";
    assert !IsComposerPrompt(row) by {
      BlankRowIsNoPrompt(row);
    }
  }

  lemma BlankRowIsNoPrompt(row: string)
    requires IsBlank(row)
    ensures !IsComposerPrompt(row)
  {
  }

  lemma HintsAreNotBlank()
    ensures !IsBlank("? for shortcuts") && !IsBlank("sandbox:")
    ensures !IsBlank("-- INSERT --") && !IsBlank("-- NORMAL --") && !IsBlank("-- VISUAL --")
  {
    assert "? for shortcuts"[0] == '?' && "sandbox:"[0] == 's';
    assert "-- INSERT --"[0] == "-- NORMAL --"[0] == "-- VISUAL --"[0] == '-';
  }

  lemma FooterIgnoresBlanks(footer: seq<string>, blanks: seq<string>)
    requires AreBlank(blanks)
    ensures HasAgyFooter(footer + blanks) == HasAgyFooter(footer)
  {
    hide IsFooterHint, IsFooterIntruder, IsBlank;
    var all := footer + blanks;
    forall i | 0 <= i < |blanks|
      ensures !IsFooterHint(blanks[i]) && !IsFooterIntruder(blanks[i])
    {
      BlankRowIsNoFooter(blanks[i]);
    }
    assert forall i :: 0 <= i < |footer| ==> all[i] == footer[i];
    assert forall i :: |footer| <= i < |all| ==> all[i] == blanks[i - |footer|];
  }

  lemma ComposerTopIgnoresBlanks(lines: seq<string>, blanks: seq<string>, bottom: nat)
    requires AreBlank(blanks) && bottom < |lines|
    ensures ComposerTop(lines + blanks, bottom) == ComposerTop(lines, bottom)
  {
    hide HasAgyFooter, IsBoxRule, IsComposerBody, TrimEnd, AreBlank;
    var all := lines + blanks;
    assert all[bottom + 1..] == lines[bottom + 1..] + blanks;
    FooterIgnoresBlanks(lines[bottom + 1..], blanks);
    forall i: nat | i < bottom
      ensures IsComposerTop(all, bottom, i) == IsComposerTop(lines, bottom, i)
    {
      assert all[i + 1..bottom] == lines[i + 1..bottom];
    }
    TopRuleAgrees(bottom, INPUT_MAX_ROWS, (i: nat) => IsComposerTop(all, bottom, i),
                  (i: nat) => IsComposerTop(lines, bottom, i));
  }

  lemma {:induction false} NonBlankIgnoresBlanks(lines: seq<string>, blanks: seq<string>)
    requires AreBlank(blanks)
    ensures NonBlank(lines + blanks) == NonBlank(lines)
    ensures AgyDialog.NonBlankIndices(lines + blanks) == AgyDialog.NonBlankIndices(lines)
  {
    hide IsBlank, NonBlank, AgyDialog.NonBlankIndices;
    if blanks == [] {
      assert lines + blanks == lines;
    } else {
      var n := |blanks| - 1;
      NonBlankIgnoresBlanks(lines, blanks[..n]);
      assert (lines + blanks)[..|lines| + n] == lines + blanks[..n];
      BlankRowAtEnd(lines + blanks);
    }
  }

  lemma BlankRowAtEnd(lines: seq<string>)
    requires lines != [] && IsBlank(lines[|lines| - 1])
    ensures NonBlank(lines) == NonBlank(lines[..|lines| - 1])
    ensures AgyDialog.NonBlankIndices(lines) == AgyDialog.NonBlankIndices(lines[..|lines| - 1])
  {
    hide IsBlank;
  }

  lemma AgyBelowBlanks(lines: seq<string>, blanks: seq<string>)
    requires AreBlank(blanks)
    ensures AgyOutputLen(lines) < |lines| ==> AgyOutputLen(lines + blanks) == AgyOutputLen(lines)
    ensures AgyOutputLen(lines) == |lines| ==> AgyOutputLen(lines + blanks) == |lines + blanks|
    ensures AgyOutputLen(lines) <= |lines|
  {
    hide BottomRule, ComposerTop, NonBlank, AgyDialog.NonBlankIndices, AgyDialog.BlockedTop, AgyDialog.QuestionTop,
         AreBlank;
    BottomRuleIgnoresBlanks(lines, blanks, FOOTER_MAX_ROWS);
    NonBlankIgnoresBlanks(lines, blanks);
    ComposerStartIsARow(lines);
    var bottom := BottomRule(lines, |lines|, FOOTER_MAX_ROWS);
    if bottom.Some? {
      ComposerTopIgnoresBlanks(lines, blanks, bottom.value);
    }
  }

  /** A live composer, or a dialog the search of the bottom rows finds. */
  ghost predicate HasComposerOrDialog(lines: seq<string>) {
    (exists top: nat, bottom: nat :: IsComposer(lines, top, bottom)) || AgyDialog.ViewTop(lines).Some?
  }

  lemma AgyOutputStops(lines: seq<string>)
    ensures AgyOutputLen(lines) < |lines| <==> HasComposerOrDialog(lines)
  {
    hide AgyComposerStart, AgyDialog.DialogTop, AgyDialog.ViewTop, IsComposer, AgyDialog.ViewRows, AgyDialog.IsHeader;
    ComposerStartIsARow(lines);
    AgyDialog.DialogTopIsHeader(lines);
    var start := AgyComposerStart(lines);
    if start.Some? {
      ComposerStartIsTheTop(lines, start.value);
    }
    if top: nat, bottom: nat :| IsComposer(lines, top, bottom) {
      ComposerStartIsTheTop(lines, top);
    }
  }

  /** Blank rows added at the bottom leave agy's output length alone exactly when a composer or dialog is on screen;
      with neither all the rows are output, the blank ones too. */
  lemma AgyIgnoresTrailingBlanks(lines: seq<string>, blanks: seq<string>)
    requires AreBlank(blanks)
    ensures AgyOutputLen(lines + blanks) == AgyOutputLen(lines) <==> blanks == [] || HasComposerOrDialog(lines)
  {
    hide AgyOutputLen, AreBlank, HasComposerOrDialog;
    AgyBelowBlanks(lines, blanks);
    AgyOutputStops(lines);
    if blanks == [] {
      assert lines + blanks == lines;
    }
  }
}
