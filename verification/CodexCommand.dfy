/** Parsing and rebuilding interactive Codex commands (`src/agent/codex_command.rs`). */
module CodexCommand {
  import opened Text
  import opened CodexLexer

  // ---------- Options ----------

  /** `takes_value`: whether a known option takes a value; `None` for an unknown one. */
  function TakesValue(option: string): Option<bool> {
    if option in {"-c", "--config", "--enable", "--disable", "--remote", "--remote-auth-token-env", "-i", "--image",
                  "-m", "--model", "--local-provider", "-p", "--profile", "-s", "--sandbox", "-C", "--cd",
                  "--add-dir", "-a", "--ask-for-approval"}
    then Some(true)
    else if option in {"--strict-config", "--oss", "--approve-for-me", "--full-auto",
                       "--dangerously-bypass-approvals-and-sandbox", "--yolo", "--dangerously-bypass-hook-trust",
                       "--worktree", "--search", "--no-alt-screen", "--no-daemon"}
    then Some(false)
    else None
  }

  /** `option_parts`: the option's name, and whether its value is attached. A two-byte prefix that would split
      a character leaves the value whole. */
  function OptionParts(value: string): (string, bool) {
    if StartsWith(value, "--") then
      match IndexOf(value, '=', 0)
      case None => (value, false)
      case Some(at) => (value[..at], true)
    else if |value| > 2 && value[0] == '-' && value[1] < '\U{80}' then (value[..2], true)
    else (value, false)
  }

  function Canonical(name: string): string {
    if name == "-m" then "--model"
    else if name == "-p" then "--profile"
    else if name == "-s" then "--sandbox"
    else if name == "-C" then "--cd"
    else if name == "-a" then "--ask-for-approval"
    else if name == "--yolo" then "--dangerously-bypass-approvals-and-sandbox"
    else name
  }

  predicate IsRepeatable(name: string) {
    name in {"-c", "--config", "--enable", "--disable", "--add-dir"}
  }

  predicate IsSwitch(value: string) {
    value == "--last" || value == "--all" || value == "--include-non-interactive"
  }

  predicate IsOperation(value: string) {
    value == "resume" || value == "fork"
  }

  predicate IsOption(value: string) {
    StartsWith(value, "-") && value != "--"
  }

  // ---------- Parsing ----------

  /** The variables of the parsing loop. */
  datatype Parser = Parser(
    retained: seq<Word>,
    operation: Option<string>,
    selector: Option<string>,
    options: set<string>)

  /** The option at `index`, with its separate value if it takes one: the parser after it and the next index. */
  function TakeOption(tokens: seq<Word>, index: nat, p: Parser, strict: bool): (r: Result<(Parser, nat), Refusal>)
    requires index < |tokens|
    ensures r.Ok? ==> index < r.value.1 <= |tokens|
  {
    var word := tokens[index];
    var (name, attached) := OptionParts(word.value);
    match TakesValue(name)
    case None => Err(UnsupportedOption)
    case Some(needsValue) =>
      var once := strict && !IsRepeatable(name);
      if once && Canonical(name) in p.options then Err(RepeatedOption)
      else if attached && !needsValue then Err(UnexpectedValue)
      else if strict && (name == "-i" || name == "--image") then Err(ImageInput)
      else
        var p' := p.(retained := p.retained + [word],
                     options := if once then p.options + {Canonical(name)} else p.options);
        if !needsValue || attached then Ok((p', index + 1))
        else if index + 1 == |tokens| then Err(MissingValue)
        else if StartsWith(tokens[index + 1].value, "-") then Err(AmbiguousValue)
        else Ok((p'.(retained := p'.retained + [tokens[index + 1]]), index + 2))
  }

  function ParseFrom(tokens: seq<Word>, index: nat, p: Parser, strict: bool): Result<Parser, Refusal>
    requires index <= |tokens|
    decreases |tokens| - index
  {
    if index == |tokens| then Ok(p)
    else
      var value := tokens[index].value;
      if p.operation.None? && IsOperation(value) then
        ParseFrom(tokens, index + 1, p.(operation := Some(value)), strict)
      else if IsSwitch(value) then
        if p.operation.None? then Err(SwitchWithoutOperation) else ParseFrom(tokens, index + 1, p, strict)
      else if IsOption(value) then
        match TakeOption(tokens, index, p, strict)
        case Err(e) => Err(e)
        case Ok((p', next)) => ParseFrom(tokens, next, p', strict)
      else if p.operation.None? then Err(InitialPrompt)
      else if p.selector.Some? then Err(SecondPrompt)
      else
        var at := if value == "--" then index + 1 else index;
        if value == "--" && strict && |tokens| > at + 1 then Err(PromptAfterDashes)
        else if at == |tokens| then Err(MissingSelector)
        else
          var p' := p.(selector := Some(tokens[at].value));
          if strict then ParseFrom(tokens, at + 1, p', strict) else Ok(p')
  }

  /** The part of a path after its last slash. */
  function BaseName(path: string): string {
    match LastIndexOf(path, '/', |path|)
    case None => path
    case Some(at) => path[at + 1..]
  }

  function ParseTokens(tokens: seq<Word>, strict: bool): Result<Parser, Refusal> {
    if tokens == [] then Err(EmptyCommand)
    else if BaseName(tokens[0].value) != "codex" || tokens[0].raw != tokens[0].value then Err(NotCodex)
    else ParseFrom(tokens, 1, Parser([tokens[0]], None, None, {}), strict)
  }

  datatype Invocation = Invocation(base: string, operation: Option<string>, selector: Option<string>)

  function ToInvocation(p: Parser): Invocation {
    Invocation(Join(Raws(p.retained), " "), p.operation, p.selector)
  }

  /** What `parse` returns; the method `Parse` computes it. */
  function ParseOf(command: string, strict: bool): Result<Invocation, Refusal> {
    match WordsOf(command)
    case Err(e) => Err(e)
    case Ok(tokens) =>
      match ParseTokens(tokens, strict)
      case Err(e) => Err(e)
      case Ok(p) => Ok(ToInvocation(p))
  }

  /** `parse`: the loop over the words. */
  method Parse(command: string, strict: bool) returns (r: Result<Invocation, Refusal>)
    ensures r == ParseOf(command, strict)
  {
    hide TakesValue, OptionParts, Canonical, IsRepeatable, IsSwitch, IsOption, IsOperation, BaseName;
    var lexed := Words(command);
    if lexed.Err? {
      return Err(lexed.error);
    }
    var tokens := lexed.value;
    if tokens == [] {
      return Err(EmptyCommand);
    }
    if BaseName(tokens[0].value) != "codex" || tokens[0].raw != tokens[0].value {
      return Err(NotCodex);
    }
    var retained := [tokens[0]];
    var operation: Option<string> := None;
    var selector: Option<string> := None;
    var options: set<string> := {};
    var index := 1;
    while index < |tokens|
      invariant 1 <= index <= |tokens|
      invariant ParseTokens(tokens, strict)
             == ParseFrom(tokens, index, Parser(retained, operation, selector, options), strict)
    {
      var value := tokens[index].value;
      if operation.None? && IsOperation(value) {
        operation := Some(value);
      } else if IsSwitch(value) {
        if operation.None? {
          return Err(SwitchWithoutOperation);
        }
      } else if IsOption(value) {
        var (name, attached) := OptionParts(value);
        var needsValue := TakesValue(name);
        if needsValue.None? {
          return Err(UnsupportedOption);
        }
        var canonical := Canonical(name);
        if strict && !IsRepeatable(name) {
          if canonical in options {
            return Err(RepeatedOption);
          }
          options := options + {canonical};
        }
        if attached && !needsValue.value {
          return Err(UnexpectedValue);
        }
        if strict && (name == "-i" || name == "--image") {
          return Err(ImageInput);
        }
        retained := retained + [tokens[index]];
        if needsValue.value && !attached {
          index := index + 1;
          if index == |tokens| {
            return Err(MissingValue);
          }
          if StartsWith(tokens[index].value, "-") {
            return Err(AmbiguousValue);
          }
          retained := retained + [tokens[index]];
        }
      } else {
        if operation.None? {
          return Err(InitialPrompt);
        }
        if selector.Some? {
          return Err(SecondPrompt);
        }
        if value == "--" {
          index := index + 1;
          if strict && |tokens| > index + 1 {
            return Err(PromptAfterDashes);
          }
          if index == |tokens| {
            return Err(MissingSelector);
          }
        }
        selector := Some(tokens[index].value);
        if !strict {
          return Ok(Invocation(Join(Raws(retained), " "), operation, selector));
        }
      }
      index := index + 1;
    }
    r := Ok(Invocation(Join(Raws(retained), " "), operation, selector));
  }

  // ---------- Baselines and rebuilding ----------

  function Baseline(command: string): Result<string, Refusal> {
    match ParseOf(command, true)
    case Err(e) => Err(e)
    case Ok(parsed) => Ok(parsed.base)
  }

  predicate IsValidId(id: string) {
    id != "" && !StartsWith(id, "-") && '\0' !in id
  }

  /** `rebuild`, with `quote` standing for `shell_quote`. */
  function Rebuild(command: string, operation: string, id: Option<string>, quote: string -> string)
    : Result<string, Refusal>
  {
    match Baseline(command)
    case Err(e) => Err(e)
    case Ok(base) =>
      if id.Some? && !IsValidId(id.value) then Err(InvalidSelector)
      else Ok(base + " " + operation + " " + (if id.Some? then quote(id.value) else "--last"))
  }

  function Restore(command: string, id: Option<string>, quote: string -> string): Result<string, Refusal> {
    Rebuild(command, "resume", id, quote)
  }

  function Fork(command: string, id: string, quote: string -> string): Result<string, Refusal> {
    Rebuild(command, "fork", Some(id), quote)
  }

  /** `resume_selector`: `Some(selector)` for a resume command, `None` for anything else. */
  function ResumeSelector(command: string): Option<Option<string>> {
    match ParseOf(command, false)
    case Err(_) => None
    case Ok(parsed) => if parsed.operation == Some("resume") then Some(parsed.selector) else None
  }

  predicate HasBreak(text: string) {
    exists i :: 0 <= i < |text| && IsBreak(text[i])
  }

  /** What the callers of `shell_quote` rely on: for a string without NUL the result is one shell word whose
      value is that string, and the lexer takes it as one word unless the string holds a line break. */
  ghost predicate IsQuoter(quote: string -> string) {
    forall id: string :: '\0' !in id ==>
      ShellSplit(quote(id)) == Some([id]) && (!HasBreak(id) ==> IsRaw(quote(id)))
  }

  // ---------- Replaying the retained words ----------

  function Bare(p: Parser): Parser {
    p.(operation := None, selector := None)
  }

  lemma OptionIsNoOperation(value: string)
    requires IsOption(value)
    ensures !IsOperation(value)
  {
    assert value[0] == '-';
  }

  /** Parsing only ever appends to what it retains. */
  lemma {:induction false} RetainedGrows(tokens: seq<Word>, index: nat, p: Parser, strict: bool)
    requires index <= |tokens| && ParseFrom(tokens, index, p, strict).Ok?
    ensures p.retained <= ParseFrom(tokens, index, p, strict).value.retained
    decreases |tokens| - index
  {
    hide TakesValue, OptionParts, Canonical, IsRepeatable, IsSwitch, IsOption, IsOperation;
    if index < |tokens| {
      var value := tokens[index].value;
      if p.operation.None? && IsOperation(value) {
        RetainedGrows(tokens, index + 1, p.(operation := Some(value)), strict);
      } else if IsSwitch(value) {
        RetainedGrows(tokens, index + 1, p, strict);
      } else if IsOption(value) {
        var (p', next) := TakeOption(tokens, index, p, strict).value;
        RetainedGrows(tokens, next, p', strict);
      } else if strict {
        var at := if value == "--" then index + 1 else index;
        RetainedGrows(tokens, at + 1, p.(selector := Some(tokens[at].value)), strict);
      }
    }
  }

  /** An option is taken the same wherever it and its value stand, operation and selector or not. */
  lemma TakenAgain(tokens: seq<Word>, index: nat, p: Parser, again: seq<Word>, n: nat)
    requires index < |tokens| && n < |again| && |p.retained| == n && TakeOption(tokens, index, p, true).Ok?
    requires again[n] == tokens[index]
    requires TakeOption(tokens, index, p, true).value.1 == index + 2 ==>
               n + 1 < |again| && again[n + 1] == tokens[index + 1]
    ensures var (p', next) := TakeOption(tokens, index, p, true).value;
            TakeOption(again, n, Bare(p), true) == Ok((Bare(p'), n + next - index))
  {
    hide TakesValue, OptionParts, Canonical, IsRepeatable;
  }

  /** The words a strict parse retains, parsed again with anything after them, are retained again; operation,
      switches and selector play no part in it. */
  lemma {:induction false} Replay(tokens: seq<Word>, index: nat, p: Parser, again: seq<Word>)
    requires index <= |tokens| && ParseFrom(tokens, index, p, true).Ok?
    requires ParseFrom(tokens, index, p, true).value.retained <= again
    ensures |p.retained| <= |ParseFrom(tokens, index, p, true).value.retained| <= |again|
    ensures var end := ParseFrom(tokens, index, p, true).value;
            ParseFrom(again, |p.retained|, Bare(p), true) == ParseFrom(again, |end.retained|, Bare(end), true)
    decreases |tokens| - index
  {
    hide TakeOption, IsSwitch, IsOption, IsOperation;
    RetainedGrows(tokens, index, p, true);
    if index < |tokens| {
      var value := tokens[index].value;
      if p.operation.None? && IsOperation(value) {
        Replay(tokens, index + 1, p.(operation := Some(value)), again);
      } else if IsSwitch(value) {
        Replay(tokens, index + 1, p, again);
      } else if IsOption(value) {
        var (p', next) := TakeOption(tokens, index, p, true).value;
        TakenAreNext(tokens, index, p);
        RetainedGrows(tokens, next, p', true);
        Replay(tokens, next, p', again);
        var n := |p.retained|;
        assert again[n] == tokens[index] by {
          assert p'.retained[n] == tokens[index];
        }
        assert next == index + 2 ==> again[n + 1] == p'.retained[n + 1] == tokens[index + 1];
        OptionIsNoOperation(value);
        TakenAgain(tokens, index, p, again, n);
      } else {
        var at := if value == "--" then index + 1 else index;
        Replay(tokens, at + 1, p.(selector := Some(tokens[at].value)), again);
      }
    }
  }

  // ---------- What is retained ----------

  /** `kept` is `from` at the strictly increasing positions `at`, all below `bound`. */
  ghost predicate Picks(kept: seq<Word>, from: seq<Word>, at: seq<nat>, bound: nat) {
    && |at| == |kept|
    && (forall k :: 0 <= k < |at| ==> at[k] < bound && at[k] < |from| && kept[k] == from[at[k]])
    && (forall j, k :: 0 <= j < k < |at| ==> at[j] < at[k])
  }

  /** Position `i` is one a parse drops: the operation's, the selector's, that of the `--` before the selector, or a
      switch's. */
  predicate IsDropped(from: seq<Word>, i: nat, operation: Option<nat>, selector: Option<nat>)
    requires i < |from|
  {
    || operation == Some(i) || selector == Some(i)
    || (selector == Some(i + 1) && from[i].value == "--")
    || IsSwitch(from[i].value)
  }

  /** Below `bound`, `at` is every position but the dropped ones. */
  ghost predicate DropsOnlySelection(from: seq<Word>, at: seq<nat>, bound: nat, operation: Option<nat>,
                                     selector: Option<nat>)
  {
    forall i :: 0 <= i < bound && i < |from| ==> (i in at <==> !IsDropped(from, i, operation, selector))
  }

  /** The word at `position` is `value`, or there is neither. */
  predicate IsAt(from: seq<Word>, bound: nat, position: Option<nat>, value: Option<string>) {
    if position.None? then value.None?
    else position.value < bound && position.value < |from| && value == Some(from[position.value].value)
  }

  /** `kept` is every word of `from`, in order, but its one operation, its one selector with the `--` before it, and
      its switches. */
  ghost predicate KeepsOptions(kept: seq<Word>, from: seq<Word>, operation: Option<string>, selector: Option<string>) {
    exists at: seq<nat>, op: Option<nat>, sel: Option<nat> ::
      && Picks(kept, from, at, |from|) && DropsOnlySelection(from, at, |from|, op, sel)
      && IsAt(from, |from|, op, operation) && IsAt(from, |from|, sel, selector)
  }

  /** What holds of the words read so far, `bound` of them, and where the selection among them was. */
  ghost predicate Keeps(p: Parser, from: seq<Word>, at: seq<nat>, bound: nat, op: Option<nat>, sel: Option<nat>) {
    && Picks(p.retained, from, at, bound) && DropsOnlySelection(from, at, bound, op, sel)
    && IsAt(from, bound, op, p.operation) && IsAt(from, bound, sel, p.selector)
    && forall k :: 0 <= k < |p.retained| ==> p.retained[k].value != "--"
  }

  lemma KeepNext(p: Parser, from: seq<Word>, at: seq<nat>, index: nat, op: Option<nat>, sel: Option<nat>)
    requires Keeps(p, from, at, index, op, sel) && index < |from|
    requires from[index].value != "--" && !IsSwitch(from[index].value)
    ensures Keeps(p.(retained := p.retained + [from[index]]), from, at + [index], index + 1, op, sel)
  {
    hide IsSwitch;
    assert (at + [index])[|at|] == index;
    assert forall i :: 0 <= i < index ==> (i in at + [index] <==> i in at);
  }

  lemma DropSwitch(p: Parser, from: seq<Word>, at: seq<nat>, index: nat, op: Option<nat>, sel: Option<nat>)
    requires Keeps(p, from, at, index, op, sel) && index < |from| && IsSwitch(from[index].value)
    ensures Keeps(p, from, at, index + 1, op, sel)
  {
    hide IsSwitch;
    assert index !in at;
  }

  lemma DropOperation(p: Parser, from: seq<Word>, at: seq<nat>, index: nat, sel: Option<nat>)
    requires Keeps(p, from, at, index, None, sel) && index < |from|
    ensures Keeps(p.(operation := Some(from[index].value)), from, at, index + 1, Some(index), sel)
  {
    hide IsSwitch;
    assert index !in at;
  }

  /** The selector at `here`, which is `index` or, after a `--` there, the next. */
  lemma DropSelector(p: Parser, from: seq<Word>, at: seq<nat>, index: nat, here: nat, op: Option<nat>)
    requires Keeps(p, from, at, index, op, None) && index <= here < |from|
    requires here == if from[index].value == "--" then index + 1 else index
    ensures Keeps(p.(selector := Some(from[here].value)), from, at, here + 1, op, Some(here))
  {
    hide IsSwitch;
    assert index !in at && here !in at;
    forall i | 0 <= i < here + 1
      ensures i in at <==> !IsDropped(from, i, op, Some(here))
    {
      if i < index && i + 1 == here && i in at {
        var k :| 0 <= k < |at| && at[k] == i;
        assert p.retained[k] == from[i];
      }
    }
  }

  lemma TakenAreNext(tokens: seq<Word>, index: nat, p: Parser)
    requires index < |tokens| && TakeOption(tokens, index, p, true).Ok?
    ensures var (p', next) := TakeOption(tokens, index, p, true).value;
            && p'.selector == p.selector && p'.operation == p.operation
            && (|| (next == index + 1 && p'.retained == p.retained + [tokens[index]])
                || (next == index + 2 && p'.retained == p.retained + [tokens[index]] + [tokens[index + 1]]
                    && !StartsWith(tokens[index + 1].value, "-")))
  {
    hide TakesValue, OptionParts, Canonical, IsRepeatable;
  }

  lemma ArgumentIsKept(value: string)
    requires !StartsWith(value, "-")
    ensures value != "--" && !IsSwitch(value)
  {
    assert StartsWith("--", "-") && StartsWith("--last", "-") && StartsWith("--all", "-");
    assert StartsWith("--include-non-interactive", "-");
  }

  lemma OptionIsNoDashes(value: string)
    requires IsOption(value)
    ensures value != "--"
  {
  }

  lemma {:induction false} RetainedAreTokens(tokens: seq<Word>, index: nat, p: Parser, at: seq<nat>, op: Option<nat>,
                                             sel: Option<nat>)
    requires index <= |tokens| && ParseFrom(tokens, index, p, true).Ok?
    requires Keeps(p, tokens, at, index, op, sel)
    ensures var end := ParseFrom(tokens, index, p, true).value;
            KeepsOptions(end.retained, tokens, end.operation, end.selector)
    decreases |tokens| - index
  {
    hide TakesValue, OptionParts, Canonical, IsRepeatable, IsSwitch, IsOption, IsOperation, TakeOption, Picks,
         DropsOnlySelection;
    if index < |tokens| {
      var value := tokens[index].value;
      if p.operation.None? && IsOperation(value) {
        DropOperation(p, tokens, at, index, sel);
        RetainedAreTokens(tokens, index + 1, p.(operation := Some(value)), at, Some(index), sel);
      } else if IsSwitch(value) {
        DropSwitch(p, tokens, at, index, op, sel);
        RetainedAreTokens(tokens, index + 1, p, at, op, sel);
      } else if IsOption(value) {
        var (p', next) := TakeOption(tokens, index, p, true).value;
        TakenAreNext(tokens, index, p);
        OptionIsNoDashes(value);
        KeepNext(p, tokens, at, index, op, sel);
        var q := p.(retained := p.retained + [tokens[index]]);
        if next == index + 1 {
          KeepsRetained(q, p', tokens, at + [index], next, op, sel);
          RetainedAreTokens(tokens, next, p', at + [index], op, sel);
        } else {
          ArgumentIsKept(tokens[index + 1].value);
          KeepNext(q, tokens, at + [index], index + 1, op, sel);
          var q' := q.(retained := q.retained + [tokens[index + 1]]);
          KeepsRetained(q', p', tokens, at + [index] + [index + 1], next, op, sel);
          RetainedAreTokens(tokens, next, p', at + [index] + [index + 1], op, sel);
        }
      } else {
        var here := if value == "--" then index + 1 else index;
        DropSelector(p, tokens, at, index, here, op);
        RetainedAreTokens(tokens, here + 1, p.(selector := Some(tokens[here].value)), at, op, Some(here));
      }
    }
  }

  lemma KeepsRetained(p: Parser, q: Parser, from: seq<Word>, at: seq<nat>, bound: nat, op: Option<nat>,
                      sel: Option<nat>)
    requires Keeps(p, from, at, bound, op, sel)
    requires q.retained == p.retained && q.operation == p.operation && q.selector == p.selector
    ensures Keeps(q, from, at, bound, op, sel)
  {
    hide Picks, DropsOnlySelection;
  }

  // ---------- Plain words and printed commands ----------

  predicate IsPlain(word: string) {
    forall i :: 0 <= i < |word| ==> 'a' <= word[i] <= 'z' || word[i] == '-'
  }

  lemma PlainStep(read: string, c: char, next: Option<char>)
    requires 'a' <= c <= 'z' || c == '-'
    ensures Step(Lexing([], Some(read), Unquoted, false), c, next) == Lexing([], Some(read + [c]), Unquoted, false)
    ensures SplitStep(InWord([], read, Plain), c) == InWord([], read + [c], Plain)
  {
  }

  lemma {:induction false} PlainRun(read: string, text: string)
    requires IsPlain(text)
    ensures Run(Lexing([], Some(read), Unquoted, false), text, None) == Lexing([], Some(read + text), Unquoted, false)
    ensures RunSplit(InWord([], read, Plain), text) == InWord([], read + text, Plain)
    decreases |text|
  {
    hide Step, SplitStep;
    if text == "" {
      assert read + text == read;
    } else {
      PlainStep(read, text[0], First(text[1..], None));
      PlainRun(read + [text[0]], text[1..]);
      assert read + [text[0]] + text[1..] == read + text;
    }
  }

  lemma PlainIsWord(word: string)
    requires IsPlain(word) && word != ""
    ensures IsWord(Word(word, word))
  {
    PlainStart(word[0], First(word[1..], None));
    PlainRun([word[0]], word[1..]);
    assert [word[0]] + word[1..] == word;
  }

  lemma PlainStart(c: char, next: Option<char>)
    requires 'a' <= c <= 'z' || c == '-'
    ensures Step(FRESH, c, next) == Lexing([], Some([c]), Unquoted, false)
    ensures SplitStep(Between([]), c) == InWord([], [c], Plain)
  {
    assert "" + [c] == [c];
  }

  lemma {:induction false} JoinAppend(parts: seq<string>, last: string)
    requires parts != []
    ensures Join(parts + [last], " ") == Join(parts, " ") + " " + last
  {
    if |parts| == 1 {
      assert (parts + [last])[1..] == [last];
    } else {
      assert (parts + [last])[1..] == parts[1..] + [last];
      JoinAppend(parts[1..], last);
      var head, mid := parts[0] + " ", Join(parts[1..], " ");
      assert head + (mid + " " + last) == head + mid + " " + last;
    }
  }

  lemma {:induction false} RawsAppend(words: seq<Word>, last: Word)
    ensures Raws(words + [last]) == Raws(words) + [last.raw]
  {
  }

  // ---------- Baselines are fixpoints ----------

  /** A strict parse, and the tokens it retains. */
  lemma StrictParse(command: string) returns (tokens: seq<Word>, end: Parser)
    requires ParseOf(command, true).Ok?
    ensures WordsOf(command) == Ok(tokens) && ParseTokens(tokens, true) == Ok(end)
    ensures ParseOf(command, true) == Ok(ToInvocation(end))
    ensures forall i :: 0 <= i < |tokens| ==> IsWord(tokens[i])
    ensures end.retained != [] && end.retained[0] == tokens[0]
    ensures KeepsOptions(end.retained, tokens, end.operation, end.selector)
    ensures forall i :: 0 <= i < |end.retained| ==> IsWord(end.retained[i])
  {
    hide IsWord, BaseName, ParseFrom, IsSwitch;
    LexedWords(command);
    tokens := WordsOf(command).value;
    end := ParseTokens(tokens, true).value;
    var start := Parser([tokens[0]], None, None, {});
    RetainedGrows(tokens, 1, start, true);
    ExecutableIsKept(tokens[0].value);
    assert Keeps(start, tokens, [0], 1, None, None) by { assert 0 in [0]; }
    RetainedAreTokens(tokens, 1, start, [0], None, None);
    KeptAreTokens(end.retained, tokens, end.operation, end.selector);
    assert end.retained[0] == [tokens[0]][0];
  }

  lemma ExecutableIsKept(value: string)
    requires BaseName(value) == "codex"
    ensures value != "--" && !IsSwitch(value)
  {
    if '/' !in value {
      assert LastIndexOf(value, '/', |value|).None?;
    }
    assert '/' !in "--" && '/' !in "--last" && '/' !in "--all" && '/' !in "--include-non-interactive";
  }

  lemma KeptAreTokens(kept: seq<Word>, tokens: seq<Word>, operation: Option<string>, selector: Option<string>)
    requires KeepsOptions(kept, tokens, operation, selector)
    ensures forall i :: 0 <= i < |kept| ==> kept[i] in tokens
  {
    hide DropsOnlySelection, IsAt;
  }

  /** Parsing the retained words with `extra` after them goes on at `extra`, with no operation or selector. */
  lemma ReplayRetained(tokens: seq<Word>, end: Parser, extra: seq<Word>)
    requires ParseTokens(tokens, true) == Ok(end)
    requires end.retained != [] && end.retained[0] == tokens[0]
    ensures ParseTokens(end.retained + extra, true)
         == ParseFrom(end.retained + extra, |end.retained|, Bare(end), true)
  {
    hide ParseFrom, BaseName;
    var start := Parser([tokens[0]], None, None, {});
    Replay(tokens, 1, start, end.retained + extra);
    assert Bare(start) == start;
  }

  /** A baseline is a fixpoint: it keeps every word of the command in order but its one operation, its switches and its
      one selector, lexes back to exactly those words with their quoting, and parses to itself with no operation and
      no selector. */
  lemma BaselineIsFixpoint(command: string)
    requires Baseline(command).Ok?
    ensures var base := Baseline(command).value;
            && ParseOf(base, true) == Ok(Invocation(base, None, None))
            && WordsOf(base).Ok?
            && Join(Raws(WordsOf(base).value), " ") == base
            && KeepsOptions(WordsOf(base).value, WordsOf(command).value, ParseOf(command, true).value.operation,
                            ParseOf(command, true).value.selector)
  {
    hide ParseTokens, IsWord;
    var tokens, end := StrictParse(command);
    JoinedWordsRoundTrip(end.retained);
    ReplayRetained(tokens, end, []);
    assert end.retained + [] == end.retained;
  }

  // ---------- Strict and lax parsing ----------

  lemma {:induction false} SelectionStays(tokens: seq<Word>, index: nat, p: Parser)
    requires index <= |tokens| && ParseFrom(tokens, index, p, true).Ok?
    requires p.operation.Some? && p.selector.Some?
    ensures ParseFrom(tokens, index, p, true).value.operation == p.operation
    ensures ParseFrom(tokens, index, p, true).value.selector == p.selector
    decreases |tokens| - index
  {
    hide TakesValue, OptionParts, Canonical, IsRepeatable, IsSwitch, IsOption, IsOperation;
    if index < |tokens| {
      if IsSwitch(tokens[index].value) {
        SelectionStays(tokens, index + 1, p);
      } else {
        var (p', next) := TakeOption(tokens, index, p, true).value;
        SelectionStays(tokens, next, p');
      }
    }
  }

  lemma LaxTakesWhatStrictTakes(tokens: seq<Word>, index: nat, p: Parser, q: Parser)
    requires index < |tokens| && TakeOption(tokens, index, p, true).Ok?
    ensures TakeOption(tokens, index, q, false).Ok?
    ensures TakeOption(tokens, index, q, false).value.1 == TakeOption(tokens, index, p, true).value.1
    ensures var q' := TakeOption(tokens, index, q, false).value.0;
            q'.operation == q.operation && q'.selector == q.selector
    ensures var p' := TakeOption(tokens, index, p, true).value.0;
            p'.operation == p.operation && p'.selector == p.selector
  {
    hide TakesValue, OptionParts, Canonical, IsRepeatable;
  }

  lemma {:induction false} StrictImpliesLaxFrom(tokens: seq<Word>, index: nat, p: Parser, q: Parser)
    requires index <= |tokens| && ParseFrom(tokens, index, p, true).Ok?
    requires p.operation == q.operation && p.selector == q.selector == None
    ensures ParseFrom(tokens, index, q, false).Ok?
    ensures var strict, lax := ParseFrom(tokens, index, p, true).value, ParseFrom(tokens, index, q, false).value;
            strict.operation == lax.operation && strict.selector == lax.selector
    decreases |tokens| - index
  {
    hide TakesValue, OptionParts, Canonical, IsRepeatable, IsSwitch, IsOption, IsOperation, TakeOption;
    if index < |tokens| {
      var value := tokens[index].value;
      if p.operation.None? && IsOperation(value) {
        StrictImpliesLaxFrom(tokens, index + 1, p.(operation := Some(value)), q.(operation := Some(value)));
      } else if IsSwitch(value) {
        StrictImpliesLaxFrom(tokens, index + 1, p, q);
      } else if IsOption(value) {
        LaxTakesWhatStrictTakes(tokens, index, p, q);
        var (p', next) := TakeOption(tokens, index, p, true).value;
        StrictImpliesLaxFrom(tokens, next, p', TakeOption(tokens, index, q, false).value.0);
      } else {
        var at := if value == "--" then index + 1 else index;
        SelectionStays(tokens, at + 1, p.(selector := Some(tokens[at].value)));
      }
    }
  }

  /** Whatever the strict parse accepts, the lax one accepts with the same operation and selector. */
  lemma StrictImpliesLax(command: string)
    requires ParseOf(command, true).Ok?
    ensures ParseOf(command, false).Ok?
    ensures ParseOf(command, false).value.operation == ParseOf(command, true).value.operation
    ensures ParseOf(command, false).value.selector == ParseOf(command, true).value.selector
  {
    hide ParseFrom, BaseName;
    var tokens := WordsOf(command).value;
    var start := Parser([tokens[0]], None, None, {});
    StrictImpliesLaxFrom(tokens, 1, start, start);
  }

  // ---------- Rebuilding ----------

  lemma LastWordIsSelector(tokens: seq<Word>, index: nat, p: Parser)
    requires index + 1 == |tokens| && p.operation.Some? && p.selector.None?
    requires IsValidId(tokens[index].value)
    ensures ParseFrom(tokens, index, p, true) == Ok(p.(selector := Some(tokens[index].value)))
  {
    var id := tokens[index].value;
    assert id[0] != '-';
    assert ParseFrom(tokens, |tokens|, p.(selector := Some(id)), true) == Ok(p.(selector := Some(id)));
  }

  lemma LastWordIsSwitch(tokens: seq<Word>, index: nat, p: Parser)
    requires index + 1 == |tokens| && p.operation.Some? && tokens[index].value == "--last"
    ensures ParseFrom(tokens, index, p, true) == Ok(p)
  {
    assert ParseFrom(tokens, |tokens|, p, true) == Ok(p);
  }

  /** A rebuilt command parses, strictly and laxly, to the operation and selector it was given, and keeps the
      baseline of the command it was rebuilt from. */
  lemma RebuiltParses(command: string, operation: string, id: Option<string>, quote: string -> string)
    requires Baseline(command).Ok? && IsOperation(operation) && IsQuoter(quote)
    requires id.Some? ==> IsValidId(id.value) && !HasBreak(id.value)
    ensures var r := Rebuild(command, operation, id, quote);
            && r.Ok?
            && ParseOf(r.value, true) == Ok(Invocation(Baseline(command).value, Some(operation), id))
            && ParseOf(r.value, false).Ok?
            && ParseOf(r.value, false).value.operation == Some(operation)
            && ParseOf(r.value, false).value.selector == id
  {
    hide ParseOf, IsQuoter, HasBreak, IsValidId, IsOperation;
    var last := LastWord(id, quote);
    var all := RebuiltIsJoined(command, operation, id, quote, last);
    var rebuilt := Rebuild(command, operation, id, quote).value;
    StrictImpliesLax(rebuilt);
  }

  /** The rebuilt text is words joined by spaces, and those parse to what was asked for. */
  lemma RebuiltIsJoined(command: string, operation: string, id: Option<string>, quote: string -> string, last: Word)
    returns (all: seq<Word>)
    requires Baseline(command).Ok? && IsOperation(operation)
    requires id.Some? ==> IsValidId(id.value)
    requires IsWord(last) && last == if id.Some? then Word(quote(id.value), id.value) else Word("--last", "--last")
    ensures Rebuild(command, operation, id, quote) == Ok(Join(Raws(all), " "))
    ensures ParseOf(Join(Raws(all), " "), true) == Ok(Invocation(Baseline(command).value, Some(operation), id))
  {
    hide ParseFrom, IsWord, WordsOf, IsSwitch, IsValidId, Join, ParseTokens, BaseName, Raws;
    var tokens, end := StrictParse(command);
    var verb := Word(operation, operation);
    PlainIsWord(operation);
    all := end.retained + [verb] + [last];
    RawsJoin(end.retained, verb, last);
    JoinedWordsRoundTrip(all);
    TailParses(tokens, end, verb, last, id);
  }

  lemma LastWord(id: Option<string>, quote: string -> string) returns (last: Word)
    requires IsQuoter(quote) && (id.Some? ==> IsValidId(id.value) && !HasBreak(id.value))
    ensures IsWord(last) && last == if id.Some? then Word(quote(id.value), id.value) else Word("--last", "--last")
  {
    hide IsWord, IsValidId, IsQuoter, HasBreak;
    if id.Some? {
      last := Word(quote(id.value), id.value);
      QuotedIsWord(id.value, quote);
    } else {
      last := Word("--last", "--last");
      PlainIsWord("--last");
    }
  }

  lemma RawsJoin(words: seq<Word>, verb: Word, last: Word)
    requires words != []
    ensures Join(Raws(words + [verb] + [last]), " ") == Join(Raws(words), " ") + " " + verb.raw + " " + last.raw
  {
    hide Join;
    RawsAppend(words, verb);
    RawsAppend(words + [verb], last);
    JoinAppend(Raws(words), verb.raw);
    JoinAppend(Raws(words) + [verb.raw], last.raw);
  }

  lemma QuotedIsWord(id: string, quote: string -> string)
    requires IsQuoter(quote) && IsValidId(id) && !HasBreak(id)
    ensures IsWord(Word(quote(id), id))
  {
  }

  lemma TailParses(tokens: seq<Word>, end: Parser, verb: Word, last: Word, id: Option<string>)
    requires ParseTokens(tokens, true) == Ok(end)
    requires end.retained != [] && end.retained[0] == tokens[0]
    requires IsOperation(verb.value)
    requires id.Some? ==> IsValidId(id.value) && last.value == id.value
    requires id.None? ==> last.value == "--last"
    ensures ParseTokens(end.retained + [verb] + [last], true)
         == Ok(end.(operation := Some(verb.value), selector := id))
  {
    hide BaseName, IsValidId, IsOperation, IsSwitch, IsOption, ParseTokens, TakeOption;
    var all, n := end.retained + [verb] + [last], |end.retained|;
    assert all == end.retained + [verb, last];
    ReplayRetained(tokens, end, [verb, last]);
    var p := Bare(end).(operation := Some(verb.value));
    assert ParseFrom(all, n, Bare(end), true) == ParseFrom(all, n + 1, p, true);
    if id.Some? {
      LastWordIsSelector(all, n + 1, p);
    } else {
      LastWordIsSwitch(all, n + 1, p);
    }
  }

  // ---------- Line breaks ----------

  lemma {:induction false} BreaksAreRefused(s: Lexer, text: string, after: Option<char>)
    requires HasBreak(text)
    ensures Run(s, text, after).Refused?
    decreases |text|
  {
    var s' := Step(s, text[0], First(text[1..], after));
    if IsBreak(text[0]) {
      RefusedStays(s', text[1..], after);
    } else {
      var i :| 0 <= i < |text| && IsBreak(text[i]);
      assert text[1..][i - 1] == text[i];
      BreaksAreRefused(s', text[1..], after);
    }
  }

  predicate NoBreaks(s: Splitter) {
    && (forall i :: 0 <= i < |s.done| ==> !HasBreak(s.done[i]))
    && (s.InWord? ==> !HasBreak(s.value))
  }

  lemma NoBreakAppend(a: string, b: string)
    ensures HasBreak(a + b) <==> HasBreak(a) || HasBreak(b)
  {
    if HasBreak(a) {
      var i :| 0 <= i < |a| && IsBreak(a[i]);
      assert (a + b)[i] == a[i];
    }
    if HasBreak(b) {
      var i :| 0 <= i < |b| && IsBreak(b[i]);
      assert (a + b)[|a| + i] == b[i];
    }
  }

  /** Dequoting adds no line break. */
  lemma {:induction false} DequotingAddsNoBreak(s: Splitter, text: string)
    requires NoBreaks(s) && !HasBreak(text)
    ensures NoBreaks(RunSplit(s, text))
    decreases |text|
  {
    if text != "" {
      var c := text[0];
      assert !IsBreak(c);
      var value := if s.InWord? then s.value else "";
      assert !HasBreak([c]) && !HasBreak(['\\', c]) && !HasBreak("");
      NoBreakAppend(value, [c]);
      NoBreakAppend(value, ['\\', c]);
      NoBreakAppend(value, []);
      assert text == [c] + text[1..];
      NoBreakAppend([c], text[1..]);
      DequotingAddsNoBreak(SplitStep(s, c), text[1..]);
    }
  }

  lemma QuotedBreak(id: string, quote: string -> string)
    requires '\0' !in id && IsQuoter(quote) && HasBreak(id)
    ensures HasBreak(quote(id))
  {
    hide HasBreak, RunSplit;
    assert ShellSplit(quote(id)) == Some([id]) && [id][0] == id;
    if !HasBreak(quote(id)) {
      DequotingAddsNoBreak(Between([]), quote(id));
    }
  }

  /** An id with a line break has no quoted form the lexer accepts, so nothing rebuilt with it parses. */
  lemma BreakNeverParses(command: string, operation: string, id: string, quote: string -> string, strict: bool)
    requires Baseline(command).Ok? && IsValidId(id) && IsQuoter(quote) && HasBreak(id)
    ensures ParseOf(Rebuild(command, operation, Some(id), quote).value, strict).Err?
  {
    hide Run, RunSplit, HasBreak, ParseTokens, ToWords;
    var q := quote(id);
    QuotedBreak(id, quote);
    var rebuilt := Rebuild(command, operation, Some(id), quote).value;
    NoBreakAppend(Baseline(command).value + " " + operation + " ", q);
    BreaksAreRefused(FRESH, rebuilt, None);
  }

  // ---------- The round trips ----------

  /** Restoring with an id and asking for the selector gives the id back exactly when the id holds no CR or LF. */
  lemma RestoreRoundTrip(command: string, id: string, quote: string -> string)
    requires Baseline(command).Ok? && IsValidId(id) && IsQuoter(quote)
    ensures Restore(command, Some(id), quote).Ok?
    ensures var restored := Restore(command, Some(id), quote).value;
            && (ResumeSelector(restored) == Some(Some(id)) <==> !HasBreak(id))
            && (HasBreak(id) ==> ResumeSelector(restored) == None)
            && (Baseline(restored) == Baseline(command) <==> !HasBreak(id))
  {
    hide ParseOf, IsQuoter, HasBreak, IsValidId;
    if HasBreak(id) {
      BreakNeverParses(command, "resume", id, quote, false);
      BreakNeverParses(command, "resume", id, quote, true);
    } else {
      RebuiltParses(command, "resume", Some(id), quote);
    }
  }

  /** Without an id the restored command resumes the last session and names no selector. */
  lemma RestoreLastRoundTrip(command: string, quote: string -> string)
    requires Baseline(command).Ok? && IsQuoter(quote)
    ensures Restore(command, None, quote).Ok?
    ensures ResumeSelector(Restore(command, None, quote).value) == Some(None)
    ensures Baseline(Restore(command, None, quote).value) == Baseline(command)
  {
    hide ParseOf, IsQuoter;
    RebuiltParses(command, "resume", None, quote);
  }

  /** A fork is never taken for a resume, and keeps the baseline exactly when its id holds no CR or LF. */
  lemma ForkRoundTrip(command: string, id: string, quote: string -> string)
    requires Baseline(command).Ok? && IsValidId(id) && IsQuoter(quote)
    ensures Fork(command, id, quote).Ok?
    ensures ResumeSelector(Fork(command, id, quote).value) == None
    ensures Baseline(Fork(command, id, quote).value) == Baseline(command) <==> !HasBreak(id)
  {
    hide ParseOf, IsQuoter, HasBreak, IsValidId;
    if HasBreak(id) {
      BreakNeverParses(command, "fork", id, quote, false);
      BreakNeverParses(command, "fork", id, quote, true);
    } else {
      RebuiltParses(command, "fork", Some(id), quote);
    }
  }

  /** Only the last rebuild counts: whatever was rebuilt before leaves no trace. */
  lemma RebuildTwice(command: string, op1: string, id1: Option<string>, op2: string, id2: Option<string>,
                     quote: string -> string)
    requires Baseline(command).Ok? && IsOperation(op1) && IsQuoter(quote)
    requires id1.Some? ==> IsValidId(id1.value) && !HasBreak(id1.value)
    ensures Rebuild(command, op1, id1, quote).Ok?
    ensures Rebuild(Rebuild(command, op1, id1, quote).value, op2, id2, quote) == Rebuild(command, op2, id2, quote)
  {
    hide ParseOf, IsQuoter, HasBreak, IsValidId;
    RebuiltParses(command, op1, id1, quote);
  }

  // ---------- A quoter ----------

  function EscapeQuote(c: char): string {
    if c == '\'' then ['\'', '\\', '\'', '\''] else [c]
  }

  function EscapeQuotes(text: string): string {
    if text == "" then "" else EscapeQuote(text[0]) + EscapeQuotes(text[1..])
  }

  /** The plain POSIX quoting, one of the forms `IsQuoter` admits. */
  function SingleQuoted(text: string): string {
    "'" + EscapeQuotes(text) + "'"
  }

  lemma LexEscaped(read: string, c: char, next: Option<char>)
    requires !IsBreak(c)
    ensures Run(Lexing([], Some(read), Single, false), EscapeQuote(c), next)
         == Lexing([], Some(read + EscapeQuote(c)), Single, false)
  {
    var s := Lexing([], Some(read), Single, false);
    if c == '\'' {
      var e := EscapeQuote(c);
      var s1 := Step(s, e[0], Some('\\'));
      var s2 := Step(s1, e[1], Some('\''));
      var s3 := Step(s2, e[2], Some('\''));
      assert e[1..] == ['\\', '\'', '\''] && e[1..][1..] == ['\'', '\''] && e[1..][1..][1..] == ['\''];
      assert Run(s3, ['\''], next) == Step(s3, '\'', next);
      assert Run(s2, ['\'', '\''], next) == Run(s3, ['\''], next);
      assert Run(s1, e[1..], next) == Run(s2, ['\'', '\''], next);
      assert read + ['\''] + ['\\'] + ['\''] + ['\''] == read + e;
    }
  }

  lemma {:induction false} LexEscapedText(read: string, text: string, next: Option<char>)
    requires !HasBreak(text)
    ensures Run(Lexing([], Some(read), Single, false), EscapeQuotes(text), next)
         == Lexing([], Some(read + EscapeQuotes(text)), Single, false)
    decreases |text|
  {
    hide Run;
    var s := Lexing([], Some(read), Single, false);
    if text == "" {
      assert read + "" == read;
      assert Run(s, "", next) == s by { RunNothing(s, next); }
    } else {
      var c, rest := text[0], EscapeQuotes(text[1..]);
      assert text == [c] + text[1..];
      NoBreakAppend([c], text[1..]);
      assert [c][0] == c;
      LexEscaped(read, c, First(rest, next));
      RunConcat(s, EscapeQuote(c), rest, next);
      LexEscapedText(read + EscapeQuote(c), text[1..], next);
      assert read + EscapeQuote(c) + rest == read + EscapeQuotes(text);
    }
  }

  lemma RunNothing(s: Lexer, next: Option<char>)
    ensures Run(s, "", next) == s
  {
  }

  lemma {:induction false} SplitConcat(s: Splitter, a: string, b: string)
    ensures RunSplit(s, a + b) == RunSplit(RunSplit(s, a), b)
    decreases |a|
  {
    if a == "" {
      assert a + b == b;
    } else {
      assert (a + b)[1..] == a[1..] + b;
      SplitConcat(SplitStep(s, a[0]), a[1..], b);
    }
  }

  lemma DequoteEscaped(value: string, c: char)
    ensures RunSplit(InWord([], value, InSingle), EscapeQuote(c)) == InWord([], value + [c], InSingle)
  {
    if c == '\'' {
      var e := EscapeQuote(c);
      assert e[1..] == ['\\', '\'', '\''] && e[1..][1..] == ['\'', '\''] && e[1..][1..][1..] == ['\''];
      assert RunSplit(InWord([], value + [c], Plain), ['\'']) == InWord([], value + [c], InSingle);
      assert RunSplit(InWord([], value, Escape), ['\'', '\'']) == RunSplit(InWord([], value + [c], Plain), ['\'']);
      assert RunSplit(InWord([], value, Plain), e[1..]) == RunSplit(InWord([], value, Escape), ['\'', '\'']);
    }
  }

  lemma {:induction false} DequoteEscapedText(value: string, text: string)
    ensures RunSplit(InWord([], value, InSingle), EscapeQuotes(text)) == InWord([], value + text, InSingle)
    decreases |text|
  {
    hide SplitStep;
    if text == "" {
      assert value + text == value;
    } else {
      var c, rest := text[0], EscapeQuotes(text[1..]);
      DequoteEscaped(value, c);
      SplitConcat(InWord([], value, InSingle), EscapeQuote(c), rest);
      DequoteEscapedText(value + [c], text[1..]);
      assert value + [c] + text[1..] == value + text;
    }
  }

  lemma SingleQuotedIsRaw(id: string)
    requires !HasBreak(id)
    ensures IsRaw(SingleQuoted(id))
  {
    hide Run;
    var body := EscapeQuotes(id);
    var open := Lexing([], Some("'"), Single, false);
    assert Run(FRESH, "'", First(body + "'", None)) == open by { LexOneQuote(First(body + "'", None)); }
    assert "'" + body + "'" == "'" + (body + "'");
    RunConcat(FRESH, "'", body + "'", None);
    RunConcat(open, body, "'", None);
    LexEscapedText("'", id, Some('\''));
    assert Run(Lexing([], Some("'" + body), Single, false), "'", None)
        == Lexing([], Some("'" + body + "'"), Unquoted, false) by { LexClosingQuote("'" + body); }
  }

  lemma LexOneQuote(next: Option<char>)
    ensures Run(FRESH, "'", next) == Lexing([], Some("'"), Single, false)
  {
    assert "" + ['\''] == "'";
  }

  lemma LexClosingQuote(read: string)
    ensures Run(Lexing([], Some(read), Single, false), "'", None) == Lexing([], Some(read + "'"), Unquoted, false)
  {
  }

  lemma SingleQuotedDequotes(id: string)
    ensures ShellSplit(SingleQuoted(id)) == Some([id])
  {
    var body := EscapeQuotes(id);
    assert ("'" + body + "'")[1..] == body + "'";
    SplitConcat(InWord([], "", InSingle), body, "'");
    DequoteEscapedText("", id);
    assert "" + id == id;
    var none: seq<string> := [];
    assert none + [id] == [id];
  }

  /** The requirement on `quote` can be met for every id: plain single quoting meets it. */
  lemma SingleQuotedIsQuoter()
    ensures IsQuoter(SingleQuoted)
  {
    hide ShellSplit, HasBreak, SingleQuoted, IsRaw;
    forall id: string | '\0' !in id
      ensures ShellSplit(SingleQuoted(id)) == Some([id]) && (!HasBreak(id) ==> IsRaw(SingleQuoted(id)))
    {
      SingleQuotedDequotes(id);
      if !HasBreak(id) {
        SingleQuotedIsRaw(id);
      }
    }
  }
}
