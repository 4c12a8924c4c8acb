/** The shell-word lexer of `src/agent/codex_command.rs`. */
module CodexLexer {
  import opened Text

  datatype Refusal =
    | Multiline | Substitution | Operator | IncompleteQuoting | InvalidWord | AmbiguousWord
    | EmptyCommand | NotCodex | SwitchWithoutOperation | UnsupportedOption | RepeatedOption | UnexpectedValue
    | ImageInput | MissingValue | AmbiguousValue | InitialPrompt | SecondPrompt | PromptAfterDashes
    | MissingSelector | InvalidSelector

  datatype Word = Word(raw: string, value: string)

  datatype Quote = Unquoted | Single | Double

  /** The lexer between two characters: the finished raw words and the one being read. */
  datatype Lexer =
    | Refused(error: Refusal)
    | Lexing(done: seq<string>, word: Option<string>, quote: Quote, escaped: bool)

  const FRESH := Lexing([], None, Unquoted, false)

  predicate IsBreak(c: char) {
    c == '\0' || c == '\n' || c == '\r'
  }

  /** `char::is_ascii_whitespace`. */
  predicate IsAsciiWhitespace(c: char) {
    c == ' ' || c == '\t' || c == '\n' || c == '\r' || c == '\U{0C}'
  }

  function Extend(word: Option<string>, c: char): Option<string> {
    Some((if word.Some? then word.value else "") + [c])
  }

  /** One character, with the next one in view. */
  function Step(s: Lexer, c: char, next: Option<char>): Lexer {
    if s.Refused? then s
    else if IsBreak(c) then Refused(Multiline)
    else if s.escaped then s.(word := Extend(s.word, c), escaped := false)
    else if s.quote == Single then s.(word := Extend(s.word, c), quote := if c == '\'' then Unquoted else Single)
    else if c == '\\' then s.(word := Extend(s.word, c), escaped := true)
    else if c == '`' || (c == '$' && next == Some('(')) then Refused(Substitution)
    else if s.quote == Double then s.(word := Extend(s.word, c), quote := if c == '"' then Unquoted else Double)
    else if c == '\'' then s.(word := Extend(s.word, c), quote := Single)
    else if c == '"' then s.(word := Extend(s.word, c), quote := Double)
    else if IsAsciiWhitespace(c) then
      if s.word.None? then s else s.(done := s.done + [s.word.value], word := None)
    else if c in ";|&<>()#" then Refused(Operator)
    else s.(word := Extend(s.word, c))
  }

  function First(text: string, after: Option<char>): Option<char> {
    if text == "" then after else Some(text[0])
  }

  /** The lexer after `text`, when `after` follows it. */
  function Run(s: Lexer, text: string, after: Option<char>): Lexer
    decreases |text|
  {
    if text == "" then s else Run(Step(s, text[0], First(text[1..], after)), text[1..], after)
  }

  function Finish(s: Lexer): Result<seq<string>, Refusal> {
    match s
    case Refused(e) => Err(e)
    case Lexing(done, word, quote, escaped) =>
      if escaped || quote != Unquoted then Err(IncompleteQuoting)
      else Ok(done + (if word.Some? then [word.value] else []))
  }

  function Spans(command: string): Result<seq<string>, Refusal> {
    Finish(Run(FRESH, command, None))
  }

  // ---------- Dequoting: `shlex::split`, the word rules of POSIX shell section 2.2 ----------

  datatype Mode = Plain | Escape | InSingle | InDouble | DoubleEscape

  datatype Splitter =
    | Between(done: seq<string>)
    | Comment(done: seq<string>)
    | InWord(done: seq<string>, value: string, mode: Mode)

  predicate IsBlank(c: char) {
    c == ' ' || c == '\t' || c == '\n'
  }

  function WordStep(done: seq<string>, value: string, mode: Mode, c: char): Splitter {
    match mode
    case Plain =>
      if c == '"' then InWord(done, value, InDouble)
      else if c == '\'' then InWord(done, value, InSingle)
      else if c == '\\' then InWord(done, value, Escape)
      else if IsBlank(c) then Between(done + [value])
      else InWord(done, value + [c], Plain)
    case Escape => InWord(done, if c == '\n' then value else value + [c], Plain)
    case InSingle => if c == '\'' then InWord(done, value, Plain) else InWord(done, value + [c], InSingle)
    case InDouble =>
      if c == '\\' then InWord(done, value, DoubleEscape)
      else if c == '"' then InWord(done, value, Plain)
      else InWord(done, value + [c], InDouble)
    case DoubleEscape =>
      var kept := if c in "$`\"\\" then [c] else if c == '\n' then [] else ['\\', c];
      InWord(done, value + kept, InDouble)
  }

  function SplitStep(s: Splitter, c: char): Splitter {
    match s
    case Between(done) =>
      if IsBlank(c) then s else if c == '#' then Comment(done) else WordStep(done, "", Plain, c)
    case Comment(done) => if c == '\n' then Between(done) else s
    case InWord(done, value, mode) => WordStep(done, value, mode, c)
  }

  function RunSplit(s: Splitter, text: string): Splitter
    decreases |text|
  {
    if text == "" then s else RunSplit(SplitStep(s, text[0]), text[1..])
  }

  function FinishSplit(s: Splitter): Option<seq<string>> {
    match s
    case Between(done) => Some(done)
    case Comment(done) => Some(done)
    case InWord(done, value, mode) => if mode == Plain then Some(done + [value]) else None
  }

  function ShellSplit(text: string): Option<seq<string>> {
    FinishSplit(RunSplit(Between([]), text))
  }

  function ToWord(raw: string): Result<Word, Refusal> {
    match ShellSplit(raw)
    case None => Err(InvalidWord)
    case Some(parts) => if |parts| == 1 then Ok(Word(raw, parts[0])) else Err(AmbiguousWord)
  }

  function ToWords(raws: seq<string>): Result<seq<Word>, Refusal> {
    if raws == [] then Ok([])
    else
      match ToWord(raws[0])
      case Err(e) => Err(e)
      case Ok(w) =>
        match ToWords(raws[1..])
        case Err(e) => Err(e)
        case Ok(ws) => Ok([w] + ws)
  }

  /** What `words` returns; the method `Words` computes it. */
  function WordsOf(command: string): Result<seq<Word>, Refusal> {
    match Spans(command)
    case Err(e) => Err(e)
    case Ok(raws) => ToWords(raws)
  }

  // ---------- Running the lexer over pieces ----------

  lemma {:induction false} RunConcat(s: Lexer, a: string, b: string, after: Option<char>)
    ensures Run(s, a + b, after) == Run(Run(s, a, First(b, after)), b, after)
    decreases |a|
  {
    if a == "" {
      assert a + b == b;
    } else {
      assert (a + b)[1..] == a[1..] + b;
      RunConcat(Step(s, a[0], First(a[1..], First(b, after))), a[1..], b, after);
    }
  }

  /** Of what follows a piece, the lexer sees only whether it is an opening parenthesis. */
  lemma {:induction false} LookaheadOnlyParenthesis(s: Lexer, text: string, m: Option<char>, n: Option<char>)
    requires m != Some('(') && n != Some('(')
    ensures Run(s, text, m) == Run(s, text, n)
    decreases |text|
  {
    if text != "" {
      LookaheadOnlyParenthesis(Step(s, text[0], First(text[1..], m)), text[1..], m, n);
    }
  }

  function Prepend(d: seq<string>, s: Lexer): Lexer {
    if s.Refused? then s else s.(done := d + s.done)
  }

  /** Words already finished never matter to what comes. */
  lemma {:induction false} FinishedWordsStay(d: seq<string>, s: Lexer, text: string, after: Option<char>)
    ensures Run(Prepend(d, s), text, after) == Prepend(d, Run(s, text, after))
    decreases |text|
  {
    if text != "" {
      var next := First(text[1..], after);
      StepPrepend(d, s, text[0], next);
      FinishedWordsStay(d, Step(s, text[0], next), text[1..], after);
    }
  }

  lemma StepPrepend(d: seq<string>, s: Lexer, c: char, next: Option<char>)
    ensures Step(Prepend(d, s), c, next) == Prepend(d, Step(s, c, next))
  {
    if s.Lexing? && s.word.Some? {
      assert d + (s.done + [s.word.value]) == d + s.done + [s.word.value];
    }
  }

  // ---------- Raw words ----------

  /** A raw word: alone, it lexes to itself. */
  predicate IsRaw(raw: string) {
    Run(FRESH, raw, None) == Lexing([], Some(raw), Unquoted, false)
  }

  /** What holds between two characters, `next` being the one to come. */
  ghost predicate LexerInvariant(s: Lexer, next: Option<char>) {
    s.Lexing? ==>
      && (forall i :: 0 <= i < |s.done| ==> IsRaw(s.done[i]))
      && (s.word.Some? ==> Run(FRESH, s.word.value, next) == s.(done := []))
      && (s.word.None? ==> s.quote == Unquoted && !s.escaped)
  }

  /** What one character does to the word being read: it joins it, ends it, or is space before one. */
  lemma StepShape(s: Lexer, c: char, next: Option<char>)
    requires s.Lexing? && (s.word.None? ==> s.quote == Unquoted && !s.escaped)
    ensures var s' := Step(s, c, next);
            || s'.Refused?
            || (s'.done == s.done && s'.word == Extend(s.word, c))
            || (s' == s && s.word.None?)
            || (s.word.Some? && IsAsciiWhitespace(c) && s.quote == Unquoted && !s.escaped
                && s' == Lexing(s.done + [s.word.value], None, Unquoted, false))
  {
    hide IsBreak;
  }

  /** Reading the word being read, and this character after it, from a fresh start. */
  lemma WordGrows(s: Lexer, c: char, next: Option<char>)
    requires s.Lexing? && LexerInvariant(s, Some(c))
    ensures var word := if s.word.Some? then s.word.value else "";
            Prepend(s.done, Run(FRESH, word + [c], next)) == Step(s, c, next)
  {
    hide Step;
    var word := if s.word.Some? then s.word.value else "";
    RunConcat(FRESH, word, [c], next);
    RunOne(s.(done := []), c, next);
    RunOne(FRESH, c, Some(c));
    assert s.done + [] == s.done && [c][1..] == "";
    StepPrepend(s.done, s.(done := []), c, next);
  }

  lemma RunOne(s: Lexer, c: char, next: Option<char>)
    ensures Run(s, [c], next) == Step(s, c, next)
    ensures Run(s, "", next) == s
  {
    hide Step;
  }

  lemma StepKeepsInvariant(s: Lexer, c: char, next: Option<char>)
    requires LexerInvariant(s, Some(c))
    ensures LexerInvariant(Step(s, c, next), next)
  {
    hide Step, Run;
    if s.Lexing? {
      StepShape(s, c, next);
      WordGrows(s, c, next);
      if s.word.Some? && IsAsciiWhitespace(c) {
        LookaheadOnlyParenthesis(FRESH, s.word.value, Some(c), None);
      }
    } else {
      RefusedStep(s, c, next);
    }
  }

  lemma RefusedStep(s: Lexer, c: char, next: Option<char>)
    requires s.Refused?
    ensures Step(s, c, next) == s
  {
  }

  lemma {:induction false} RunKeepsInvariant(s: Lexer, text: string, after: Option<char>)
    requires LexerInvariant(s, First(text, after))
    ensures LexerInvariant(Run(s, text, after), after)
    decreases |text|
  {
    if text != "" {
      StepKeepsInvariant(s, text[0], First(text[1..], after));
      RunKeepsInvariant(Step(s, text[0], First(text[1..], after)), text[1..], after);
    }
  }

  /** Every span of an accepted command is a raw word. */
  lemma SpansAreRaw(command: string)
    requires Spans(command).Ok?
    ensures forall i :: 0 <= i < |Spans(command).value| ==> IsRaw(Spans(command).value[i])
  {
    RunKeepsInvariant(FRESH, command, None);
  }

  lemma WordThenSpace(raw: string, rest: string)
    requires IsRaw(raw)
    ensures Run(FRESH, raw + " " + rest, None) == Prepend([raw], Run(FRESH, rest, None))
  {
    assert raw + " " + rest == raw + (" " + rest);
    RunConcat(FRESH, raw, " " + rest, None);
    LookaheadOnlyParenthesis(FRESH, raw, Some(' '), None);
    assert (" " + rest)[1..] == rest;
    var none: seq<string> := [];
    assert none + [raw] == [raw] + none;
    FinishedWordsStay([raw], FRESH, rest, None);
  }

  lemma FinishPrepend(d: seq<string>, s: Lexer)
    ensures Finish(s).Ok? ==> Finish(Prepend(d, s)) == Ok(d + Finish(s).value)
  {
    if s.Lexing? {
      var last := if s.word.Some? then [s.word.value] else [];
      assert d + s.done + last == d + (s.done + last);
    }
  }

  /** Raw words joined by single spaces lex back to themselves. */
  lemma {:induction false} JoinedWordsLex(raws: seq<string>)
    requires forall i :: 0 <= i < |raws| ==> IsRaw(raws[i])
    ensures Spans(Join(raws, " ")) == Ok(raws)
  {
    hide Run, Finish;
    if |raws| <= 1 {
      FewWordsLex(raws);
    } else {
      JoinedWordsLex(raws[1..]);
      WordThenSpace(raws[0], Join(raws[1..], " "));
      FinishPrepend([raws[0]], Run(FRESH, Join(raws[1..], " "), None));
      assert [raws[0]] + raws[1..] == raws;
    }
  }

  lemma FewWordsLex(raws: seq<string>)
    requires |raws| <= 1 && forall i :: 0 <= i < |raws| ==> IsRaw(raws[i])
    ensures Spans(Join(raws, " ")) == Ok(raws)
  {
    hide Step;
    if raws != [] {
      assert raws == [] + [raws[0]];
    }
  }

  // ---------- Dequoting a raw word ----------

  /** The lexer inside a word and the dequoter inside the same word. */
  predicate InStep(l: Lexer, p: Splitter) {
    && l.Lexing? && l.done == [] && l.word.Some?
    && p.InWord? && p.done == []
    && p.mode == (if l.quote == Single then InSingle
                  else if l.quote == Double then (if l.escaped then DoubleEscape else InDouble)
                  else if l.escaped then Escape else Plain)
    && !(l.quote == Single && l.escaped)
  }

  lemma {:induction false} LockStep(l: Lexer, p: Splitter, text: string)
    requires InStep(l, p)
    requires Run(l, text, None).Lexing? && Run(l, text, None).done == []
    ensures InStep(Run(l, text, None), RunSplit(p, text))
    decreases |text|
  {
    if text != "" {
      var c := text[0];
      var l' := Step(l, c, First(text[1..], None));
      if l'.Refused? {
        RefusedStays(l', text[1..], None);
      } else if l'.done != [] {
        assert l' == Prepend(l'.done, l'.(done := []));
        FinishedWordsStay(l'.done, l'.(done := []), text[1..], None);
      } else {
        LockStep(l', SplitStep(p, c), text[1..]);
      }
    }
  }

  lemma {:induction false} RefusedStays(s: Lexer, text: string, after: Option<char>)
    requires s.Refused?
    ensures Run(s, text, after) == s
    decreases |text|
  {
    if text != "" {
      RefusedStays(s, text[1..], after);
    }
  }

  function WordLength(s: Lexer): nat {
    if s.Lexing? && s.word.Some? then |s.word.value| else 0
  }

  lemma {:induction false} WordsOnlyGrowByCharacters(s: Lexer, text: string, after: Option<char>)
    ensures WordLength(Run(s, text, after)) <= WordLength(s) + |text|
    decreases |text|
  {
    if text != "" {
      WordsOnlyGrowByCharacters(Step(s, text[0], First(text[1..], after)), text[1..], after);
    }
  }

  /** A raw word is exactly one shell word: neither of the two checks on `shlex` can fail. */
  lemma RawIsOneShellWord(raw: string)
    requires IsRaw(raw)
    ensures ToWord(raw).Ok? && ToWord(raw).value.raw == raw
  {
    var next := First(raw[1..], None);
    var l := Step(FRESH, raw[0], next);
    if l.Refused? {
      RefusedStays(l, raw[1..], None);
    } else if l.word.None? {
      WordsOnlyGrowByCharacters(l, raw[1..], None);
    } else {
      LockStep(l, SplitStep(Between([]), raw[0]), raw[1..]);
    }
  }

  lemma {:induction false} RawsAreWords(raws: seq<string>)
    requires forall i :: 0 <= i < |raws| ==> IsRaw(raws[i])
    ensures ToWords(raws).Ok?
    ensures Raws(ToWords(raws).value) == raws
    ensures forall i :: 0 <= i < |raws| ==> ToWord(raws[i]) == Ok(ToWords(raws).value[i])
  {
    if raws != [] {
      RawIsOneShellWord(raws[0]);
      RawsAreWords(raws[1..]);
    }
  }

  function Raws(words: seq<Word>): (raws: seq<string>)
    ensures |raws| == |words|
    ensures forall i :: 0 <= i < |words| ==> raws[i] == words[i].raw
  {
    if words == [] then [] else [words[0].raw] + Raws(words[1..])
  }

  /** A word as the lexer returns it. */
  predicate IsWord(w: Word) {
    IsRaw(w.raw) && ToWord(w.raw) == Ok(w)
  }

  /** Lexing never fails after the quoting was found complete, and returns raw words with their values. */
  lemma LexedWords(command: string)
    ensures WordsOf(command).Ok? <==> Spans(command).Ok?
    ensures WordsOf(command).Ok? ==> Raws(WordsOf(command).value) == Spans(command).value
    ensures WordsOf(command).Ok? ==>
              forall i :: 0 <= i < |WordsOf(command).value| ==> IsWord(WordsOf(command).value[i])
  {
    if Spans(command).Ok? {
      SpansAreRaw(command);
      RawsAreWords(Spans(command).value);
    }
  }

  lemma {:induction false} ToWordsOfRaws(words: seq<Word>)
    requires forall i :: 0 <= i < |words| ==> IsWord(words[i])
    ensures ToWords(Raws(words)) == Ok(words)
  {
    if words == [] {
      assert Raws(words) == [];
    } else {
      assert Raws(words)[1..] == Raws(words[1..]);
      ToWordsOfRaws(words[1..]);
      assert [words[0]] + words[1..] == words;
    }
  }

  /** The key round trip: lexed words, printed raw with single spaces, lex to the same words. */
  lemma JoinedWordsRoundTrip(words: seq<Word>)
    requires forall i :: 0 <= i < |words| ==> IsWord(words[i])
    ensures WordsOf(Join(Raws(words), " ")) == Ok(words)
  {
    JoinedWordsLex(Raws(words));
    ToWordsOfRaws(words);
  }

  // ---------- The program's loop ----------

  ghost predicate LoopState(command: string, index: nat, start: Option<nat>, quote: Option<char>, escaped: bool) {
    && index <= |command|
    && (start.Some? ==> start.value < index)
    && (quote.Some? || escaped ==> start.Some?)
    && (quote.Some? ==> quote.value == '\'' || quote.value == '"')
  }

  /** The lexer state the loop's variables stand for. */
  ghost function Snapshot(command: string, index: nat, start: Option<nat>, quote: Option<char>, escaped: bool,
                          spans: seq<string>): Lexer
    requires LoopState(command, index, start, quote, escaped)
  {
    Lexing(spans, if start.Some? then Some(command[start.value..index]) else None,
           if quote.None? then Unquoted else if quote.value == '\'' then Single else Double, escaped)
  }

  lemma AdvanceOne(s: Lexer, command: string, index: nat, next: Lexer)
    requires index < |command|
    requires Run(FRESH, command, None) == Run(s, command[index..], None)
    requires next == Step(s, command[index], First(command[index + 1..], None))
    ensures Run(FRESH, command, None) == Run(next, command[index + 1..], None)
    ensures next.Refused? ==> Spans(command) == Err(next.error)
  {
    assert command[index..][1..] == command[index + 1..];
    if next.Refused? {
      RefusedStays(next, command[index + 1..], None);
    }
  }

  lemma SliceGrows(text: string, from: nat, to: nat)
    requires from <= to < |text|
    ensures text[from..to + 1] == text[from..to] + [text[to]]
  {
  }

  /** `words`: one pass over the characters with the start of the current word, the open quote and the escape. */
  method Words(command: string) returns (r: Result<seq<Word>, Refusal>)
    ensures r == WordsOf(command)
  {
    var start: Option<nat> := None;
    var quote: Option<char> := None;
    var escaped := false;
    var spans: seq<string> := [];
    var index := 0;
    while index < |command|
      invariant LoopState(command, index, start, quote, escaped)
      invariant Run(FRESH, command, None)
             == Run(Snapshot(command, index, start, quote, escaped, spans), command[index..], None)
    {
      var c := command[index];
      var next := if index + 1 < |command| then Some(command[index + 1]) else None;
      ghost var s := Snapshot(command, index, start, quote, escaped, spans);
      assert next == First(command[index + 1..], None);
      AdvanceOne(s, command, index, Step(s, c, next));
      SliceGrows(command, index, index);
      SliceGrows(command, if start.Some? then start.value else index, index);
      if IsBreak(c) {
        return Err(Multiline);
      }
      if escaped {
        escaped := false;
      } else if quote == Some('\'') {
        if c == '\'' {
          quote := None;
        }
      } else if c == '\\' {
        start := if start.None? then Some(index) else start;
        escaped := true;
      } else if c == '`' || (c == '$' && next == Some('(')) {
        return Err(Substitution);
      } else if quote.Some? {
        if c == quote.value {
          quote := None;
        }
      } else if c == '\'' || c == '"' {
        start := if start.None? then Some(index) else start;
        quote := Some(c);
      } else if IsAsciiWhitespace(c) {
        if start.Some? {
          spans := spans + [command[start.value..index]];
          start := None;
        }
      } else {
        if c in ";|&<>()#" {
          return Err(Operator);
        }
        start := if start.None? then Some(index) else start;
      }
      index := index + 1;
      assert Step(s, c, next) == Snapshot(command, index, start, quote, escaped, spans);
    }
    assert command[index..] == "";
    if escaped || quote.Some? {
      return Err(IncompleteQuoting);
    }
    assert start.Some? ==> command[start.value..] == command[start.value..index];
    if start.Some? {
      spans := spans + [command[start.value..]];
    }
    assert spans + [] == spans;
    assert Spans(command) == Ok(spans);
    r := DequoteAll(spans);
  }

  /** The `map` and `collect` that end `words`: the first word that does not dequote is the result. */
  method DequoteAll(raws: seq<string>) returns (r: Result<seq<Word>, Refusal>)
    ensures r == ToWords(raws)
  {
    var words: seq<Word> := [];
    assert raws[0..] == raws;
    assert After([], ToWords(raws)) == ToWords(raws) by {
      assert ToWords(raws).Ok? ==> [] + ToWords(raws).value == ToWords(raws).value;
    }
    for i := 0 to |raws|
      invariant ToWords(raws) == After(words, ToWords(raws[i..]))
    {
      assert raws[i..][1..] == raws[i + 1..];
      ghost var rest := ToWords(raws[i + 1..]);
      match ToWord(raws[i])
      case Err(e) => return Err(e);
      case Ok(w) =>
        assert rest.Ok? ==> words + ([w] + rest.value) == words + [w] + rest.value;
        words := words + [w];
    }
    assert words + [] == words;
    r := Ok(words);
  }

  function After(words: seq<Word>, rest: Result<seq<Word>, Refusal>): Result<seq<Word>, Refusal> {
    match rest
    case Err(e) => Err(e)
    case Ok(ws) => Ok(words + ws)
  }
}
