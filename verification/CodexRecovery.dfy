/** Correlating question reports within one pane (`src/agent/codex_recovery.rs`). */
module CodexRecovery {
  import opened Text
  import opened Agent

  const PENDING_LIMIT: nat := 8
  const QUESTION_START := "codex-question-start"
  const QUESTION_END := "codex-question-end"

  datatype Question = Question(session: string, turn: string, call: string)

  datatype Report = Report(signal: string, status: Activity, session: Option<string>, event: Option<HookEvent>)

  /** Why a report is recorded but not applied. */
  datatype Reason = PermissionUnderReview | MissingMetadata | NoMatchingQuestion | StillPending

  // ---------- Reading a report ----------

  predicate IsIdentifierChar(c: char) {
    'a' <= c <= 'z' || 'A' <= c <= 'Z' || '0' <= c <= '9' || c in "_.:/-"
  }

  predicate IsSession(session: string) {
    session != "" && |session| <= 128 && forall i :: 0 <= i < |session| ==> IsIdentifierChar(session[i])
  }

  /** `question_key`. */
  function QuestionKey(session: Option<string>, event: Option<HookEvent>, expected: string): Option<Question> {
    match event
    case None => None
    case Some(e) =>
      if e.name != expected || e.tool != Some("request_user_input") then None
      else if session.None? || !IsSession(session.value) || e.turn.None? || e.call.None? then None
      else Some(Question(session.value, e.turn.value, e.call.value))
  }

  /** What a report says, whatever the state. */
  datatype Meaning =
    | Rejected(reason: Reason)
    | Generic(status: Activity)
    | Start(question: Question)
    | End(question: Question)

  function MeaningOf(r: Report): Meaning {
    if r.event.Some? && r.event.value.name == "PermissionRequest" then Rejected(PermissionUnderReview)
    else if r.signal == QUESTION_START then
      match QuestionKey(r.session, r.event, "PreToolUse")
      case Some(key) => if r.status == Blocked then Start(key) else Rejected(MissingMetadata)
      case None => Rejected(MissingMetadata)
    else if r.signal == QUESTION_END then
      match QuestionKey(r.session, r.event, "PostToolUse")
      case Some(key) => if r.status == Working then End(key) else Rejected(MissingMetadata)
      case None => Rejected(MissingMetadata)
    else Generic(r.status)
  }

  predicate IsReset(m: Meaning) {
    m.Generic? && m.status != Blocked
  }

  // ---------- The bounded machine ----------

  datatype Bounded = Bounded(pending: seq<Question>, overflow: bool, otherBlocked: bool) {
    predicate QuestionWaiting() {
      pending != [] || overflow
    }
  }

  const INITIAL := Bounded([], false, false)

  function IndexOfQuestion(pending: seq<Question>, key: Question): (r: Option<nat>)
    ensures r.Some? ==> r.value < |pending| && pending[r.value] == key
    ensures r.None? <==> key !in pending
  {
    if pending == [] then None
    else if pending[0] == key then Some(0)
    else
      match IndexOfQuestion(pending[1..], key)
      case None => None
      case Some(i) => Some(i + 1)
  }

  function Step(s: Bounded, m: Meaning): (Bounded, Result<Activity, Reason>) {
    match m
    case Rejected(reason) => (s, Err(reason))
    case Generic(status) => (if status == Blocked then s.(otherBlocked := true) else INITIAL, Ok(status))
    case Start(key) =>
      var s' := if s.QuestionWaiting() then s else s.(otherBlocked := false);
      if key in s'.pending then (s', Ok(Blocked))
      else if |s'.pending| < PENDING_LIMIT then (s'.(pending := s'.pending + [key]), Ok(Blocked))
      else (s'.(overflow := true), Ok(Blocked))
    case End(key) =>
      match IndexOfQuestion(s.pending, key)
      case None => (s, Err(NoMatchingQuestion))
      case Some(i) =>
        var s' := s.(pending := s.pending[..i] + s.pending[i + 1..]);
        (s', if s'.QuestionWaiting() || s'.otherBlocked then Err(StillPending) else Ok(Working))
  }

  /** The program's object; every method is `Step` on its fields. */
  class CodexRecovery {
    var pending: seq<Question>
    var overflow: bool
    var otherBlocked: bool

    constructor ()
      ensures State() == INITIAL
    {
      pending, overflow, otherBlocked := [], false, false;
    }

    function State(): Bounded
      reads this
    {
      Bounded(pending, overflow, otherBlocked)
    }

    predicate QuestionWaiting()
      reads this
      ensures QuestionWaiting() == State().QuestionWaiting()
    {
      pending != [] || overflow
    }

    method Reset()
      modifies this
      ensures State() == INITIAL
    {
      pending, overflow, otherBlocked := [], false, false;
    }

    /** `report`. */
    method Report(r: Report) returns (answer: Result<Activity, Reason>)
      modifies this
      ensures (State(), answer) == Step(old(State()), MeaningOf(r))
    {
      if r.event.Some? && r.event.value.name == "PermissionRequest" {
        return Err(PermissionUnderReview);
      }
      if r.signal != QUESTION_START && r.signal != QUESTION_END {
        if r.status == Blocked {
          otherBlocked := true;
        } else {
          Reset();
        }
        return Ok(r.status);
      }
      var (name, status) := if r.signal == QUESTION_START then ("PreToolUse", Blocked) else ("PostToolUse", Working);
      var key := QuestionKey(r.session, r.event, name);
      if key.None? || r.status != status {
        return Err(MissingMetadata);
      }
      if r.signal == QUESTION_START {
        if !QuestionWaiting() {
          otherBlocked := false;
        }
        if key.value !in pending {
          if |pending| < PENDING_LIMIT {
            pending := pending + [key.value];
          } else {
            overflow := true;
          }
        }
        return Ok(Blocked);
      }
      var index := IndexOfQuestion(pending, key.value);
      if index.None? {
        return Err(NoMatchingQuestion);
      }
      pending := pending[..index.value] + pending[index.value + 1..];
      if QuestionWaiting() || otherBlocked {
        return Err(StillPending);
      }
      answer := Ok(Working);
    }
  }

  function Run(history: seq<Report>): Bounded {
    if history == [] then INITIAL
    else Step(Run(history[..|history| - 1]), MeaningOf(history[|history| - 1])).0
  }

  function Answer(history: seq<Report>, r: Report): Result<Activity, Reason> {
    Step(Run(history), MeaningOf(r)).1
  }

  // ---------- The reference: no bound, read off the history ----------

  /** The state a machine with no bound would hold: every unanswered question, and a block that came after
      the first of them or with none open. */
  datatype Unbounded = Unbounded(open: set<Question>, latched: bool)

  function StepUnbounded(s: Unbounded, m: Meaning): (Unbounded, Result<Activity, Reason>) {
    match m
    case Rejected(reason) => (s, Err(reason))
    case Generic(status) => (if status == Blocked then s.(latched := true) else Unbounded({}, false), Ok(status))
    case Start(key) => (Unbounded(s.open + {key}, s.open != {} && s.latched), Ok(Blocked))
    case End(key) =>
      var s' := s.(open := s.open - {key});
      (s', if key !in s.open then Err(NoMatchingQuestion)
           else if s'.open != {} || s'.latched then Err(StillPending)
           else Ok(Working))
  }

  function RunUnbounded(history: seq<Report>): Unbounded {
    if history == [] then Unbounded({}, false)
    else StepUnbounded(RunUnbounded(history[..|history| - 1]), MeaningOf(history[|history| - 1])).0
  }

  function AnswerUnbounded(history: seq<Report>, r: Report): Result<Activity, Reason> {
    StepUnbounded(RunUnbounded(history), MeaningOf(r)).1
  }

  /** No report from `i` on ends `key` or resets the pane. */
  ghost predicate StaysOpen(history: seq<Report>, i: nat, key: Question) {
    forall j :: i <= j < |history| ==> !IsReset(MeaningOf(history[j])) && MeaningOf(history[j]) != End(key)
  }

  /** `key` was asked and neither answered nor retired since. */
  ghost predicate IsUnanswered(history: seq<Report>, key: Question) {
    exists i :: 0 <= i < |history| && MeaningOf(history[i]) == Start(key) && StaysOpen(history, i, key)
  }

  lemma {:induction false} OpenIsUnanswered(history: seq<Report>, key: Question)
    ensures key in RunUnbounded(history).open <==> IsUnanswered(history, key)
  {
    hide MeaningOf;
    if history != [] {
      var n := |history| - 1;
      var front, m := history[..n], MeaningOf(history[n]);
      OpenIsUnanswered(front, key);
      if IsUnanswered(front, key) && !IsReset(m) && m != End(key) {
        var i :| 0 <= i < |front| && MeaningOf(front[i]) == Start(key) && StaysOpen(front, i, key);
        assert StaysOpen(history, i, key);
      }
      if m == Start(key) {
        assert StaysOpen(history, n, key);
      }
      if IsUnanswered(history, key) && m != Start(key) {
        var i :| 0 <= i < |history| && MeaningOf(history[i]) == Start(key) && StaysOpen(history, i, key);
        assert front[i] == history[i];
        assert StaysOpen(front, i, key);
      }
    }
  }

  /** Report `j` asks a question while none is open: it supersedes a block before it. */
  ghost predicate Supersedes(history: seq<Report>, j: nat)
    requires j < |history|
  {
    MeaningOf(history[j]).Start? && forall key :: !IsUnanswered(history[..j], key)
  }

  ghost predicate StaysLatched(history: seq<Report>, i: nat) {
    forall j :: i < j < |history| ==> !IsReset(MeaningOf(history[j])) && !Supersedes(history, j)
  }

  /** A generic block came, and since then no reset and no question asked with none open. */
  ghost predicate IsLatched(history: seq<Report>) {
    exists i :: 0 <= i < |history| && MeaningOf(history[i]) == Generic(Blocked) && StaysLatched(history, i)
  }

  lemma {:induction false} LatchedIsUnsuperseded(history: seq<Report>)
    ensures RunUnbounded(history).latched <==> IsLatched(history)
  {
    hide MeaningOf, IsUnanswered, StaysLatched;
    if history != [] {
      var n := |history| - 1;
      var front, m := history[..n], MeaningOf(history[n]);
      LatchedIsUnsuperseded(front);
      NothingOpen(front);
      forall i: nat | i < n
        ensures StaysLatched(history, i) <==> StaysLatched(front, i) && !IsReset(m) && !Supersedes(history, n)
        ensures front[i] == history[i]
      {
        StaysLatchedStep(history, i);
      }
      assert StaysLatched(history, n) by { LastStaysLatched(history); }
    }
  }

  lemma NothingOpen(history: seq<Report>)
    ensures RunUnbounded(history).open == {} <==> forall key :: !IsUnanswered(history, key)
  {
    hide IsUnanswered, RunUnbounded;
    forall key: Question
      ensures key in RunUnbounded(history).open <==> IsUnanswered(history, key)
    {
      OpenIsUnanswered(history, key);
    }
  }

  lemma StaysLatchedStep(history: seq<Report>, i: nat)
    requires i < |history| - 1
    ensures var n := |history| - 1;
            StaysLatched(history, i)
            <==> && StaysLatched(history[..n], i)
                 && !IsReset(MeaningOf(history[n])) && !Supersedes(history, n)
  {
    hide MeaningOf, IsUnanswered;
    var front := history[..|history| - 1];
    assert forall j :: 0 <= j < |front| ==> front[j] == history[j] && front[..j] == history[..j];
  }

  lemma LastStaysLatched(history: seq<Report>)
    requires history != []
    ensures StaysLatched(history, |history| - 1)
  {
  }

  // ---------- The bounded machine simulates the reference ----------

  ghost predicate IsDistinct(pending: seq<Question>) {
    forall i, j :: 0 <= i < j < |pending| ==> pending[i] != pending[j]
  }

  function Elements(pending: seq<Question>): set<Question> {
    set q | q in pending
  }

  ghost predicate Simulates(b: Bounded, u: Unbounded) {
    && IsDistinct(b.pending) && |b.pending| <= PENDING_LIMIT
    && Elements(b.pending) <= u.open
    && (u.latched ==> b.otherBlocked)
    && (!b.overflow ==> Elements(b.pending) == u.open && b.otherBlocked == u.latched)
  }

  lemma RemoveOne(pending: seq<Question>, i: nat)
    requires i < |pending| && IsDistinct(pending)
    ensures IsDistinct(pending[..i] + pending[i + 1..])
    ensures Elements(pending[..i] + pending[i + 1..]) == Elements(pending) - {pending[i]}
  {
    var rest := pending[..i] + pending[i + 1..];
    forall q | q in pending && q != pending[i]
      ensures q in rest
    {
      var j :| 0 <= j < |pending| && pending[j] == q;
      assert rest[if j < i then j else j - 1] == q;
    }
  }

  /** One report keeps the simulation; the answers are the same until a question has overflowed, and after that
      the bounded machine answers `Working` only where the reference does. */
  lemma StepSimulates(b: Bounded, u: Unbounded, m: Meaning)
    requires Simulates(b, u)
    ensures Simulates(Step(b, m).0, StepUnbounded(u, m).0)
    ensures !b.overflow ==> Step(b, m).1 == StepUnbounded(u, m).1
    ensures m.End? && Step(b, m).1 == Ok(Working) ==> StepUnbounded(u, m).1 == Ok(Working)
    ensures !b.overflow && Step(b, m).0.overflow <==>
              !b.overflow && m.Start? && m.question !in u.open && |u.open| == PENDING_LIMIT
  {
    match m {
      case Start(key) => StartSimulates(b, u, key);
      case End(key) => EndSimulates(b, u, key);
      case _ =>
    }
  }

  lemma StartSimulates(b: Bounded, u: Unbounded, key: Question)
    requires Simulates(b, u)
    ensures Simulates(Step(b, Start(key)).0, StepUnbounded(u, Start(key)).0)
    ensures !b.overflow && Step(b, Start(key)).0.overflow <==>
              !b.overflow && key !in u.open && |u.open| == PENDING_LIMIT
  {
    DistinctSize(b.pending);
    ElementsAre(b.pending);
    if key !in b.pending {
      AddOne(b.pending, key);
    }
    hide Elements, IsDistinct;
  }

  lemma ElementsAre(pending: seq<Question>)
    ensures forall q :: q in pending <==> q in Elements(pending)
    ensures pending != [] <==> Elements(pending) != {}
  {
    assert pending != [] ==> pending[0] in Elements(pending);
  }

  lemma AddOne(pending: seq<Question>, key: Question)
    requires IsDistinct(pending) && key !in pending
    ensures IsDistinct(pending + [key])
    ensures Elements(pending + [key]) == Elements(pending) + {key}
  {
  }

  lemma EndSimulates(b: Bounded, u: Unbounded, key: Question)
    requires Simulates(b, u)
    ensures Simulates(Step(b, End(key)).0, StepUnbounded(u, End(key)).0)
    ensures !b.overflow ==> Step(b, End(key)).1 == StepUnbounded(u, End(key)).1
    ensures Step(b, End(key)).1 == Ok(Working) ==> StepUnbounded(u, End(key)).1 == Ok(Working)
  {
    ElementsAre(b.pending);
    if key in b.pending {
      var i := IndexOfQuestion(b.pending, key).value;
      RemoveOne(b.pending, i);
      ElementsAre(b.pending[..i] + b.pending[i + 1..]);
    }
    hide Elements, IsDistinct, IndexOfQuestion;
  }

  lemma {:induction false} DistinctSize(pending: seq<Question>)
    requires IsDistinct(pending)
    ensures |Elements(pending)| == |pending|
  {
    if pending != [] {
      var n := |pending| - 1;
      DistinctSize(pending[..n]);
      assert Elements(pending) == Elements(pending[..n]) + {pending[n]};
    }
  }

  lemma {:induction false} RunSimulates(history: seq<Report>)
    ensures Simulates(Run(history), RunUnbounded(history))
  {
    hide MeaningOf;
    if history != [] {
      var n := |history| - 1;
      RunSimulates(history[..n]);
      StepSimulates(Run(history[..n]), RunUnbounded(history[..n]), MeaningOf(history[n]));
    }
  }

  /** After any history: what is pending is unanswered, at most eight questions and without duplicates; an
      unanswered question always counts as waiting; and until one overflows nothing unanswered is missing. */
  lemma PendingIsUnanswered(history: seq<Report>)
    ensures var s := Run(history);
            && IsDistinct(s.pending) && |s.pending| <= PENDING_LIMIT
            && (forall key :: key in s.pending ==> IsUnanswered(history, key))
            && (forall key :: IsUnanswered(history, key) ==> s.QuestionWaiting())
            && (!s.overflow ==> forall key :: key in s.pending <==> IsUnanswered(history, key))
  {
    hide MeaningOf;
    RunSimulates(history);
    var s := Run(history);
    forall key
      ensures key in s.pending ==> IsUnanswered(history, key)
      ensures IsUnanswered(history, key) ==> s.QuestionWaiting()
      ensures !s.overflow && IsUnanswered(history, key) ==> key in s.pending
    {
      OpenIsUnanswered(history, key);
      assert key in s.pending <==> key in Elements(s.pending);
    }
  }

  /** A pane waits for a question exactly when one is unanswered or one too many was asked since the last reset. */
  lemma QuestionWaitingMeans(history: seq<Report>)
    ensures Run(history).QuestionWaiting() <==> Run(history).overflow || exists key :: IsUnanswered(history, key)
  {
    hide IsUnanswered, Run;
    PendingIsUnanswered(history);
    var s := Run(history);
    assert s.pending != [] ==> s.pending[0] in s.pending;
  }

  /** A question end answers `Working` only when it answers the last open question and no block is latched. */
  lemma EndAnswersWorkingOnlyWhenClear(history: seq<Report>, r: Report)
    requires MeaningOf(r).End? && Answer(history, r) == Ok(Working)
    ensures IsUnanswered(history, MeaningOf(r).question)
    ensures forall key :: !IsUnanswered(history + [r], key)
    ensures !IsLatched(history) && !Run(history + [r]).QuestionWaiting()
  {
    LatchedIsUnsuperseded(history);
    hide IsLatched;
    hide MeaningOf;
    RunSimulates(history);
    var u, m := RunUnbounded(history), MeaningOf(r);
    StepSimulates(Run(history), u, m);
    OpenIsUnanswered(history, m.question);
    assert (history + [r])[..|history|] == history;
    assert RunUnbounded(history + [r]) == StepUnbounded(u, m).0;
    forall key
      ensures !IsUnanswered(history + [r], key)
    {
      OpenIsUnanswered(history + [r], key);
    }
  }

  /** Until a question overflows, every answer is the reference's. */
  lemma ExactWithoutOverflow(history: seq<Report>, r: Report)
    requires !Run(history).overflow
    ensures Answer(history, r) == AnswerUnbounded(history, r)
    ensures Run(history + [r]).overflow <==>
              MeaningOf(r).Start? && !IsUnanswered(history, MeaningOf(r).question)
              && |RunUnbounded(history).open| == PENDING_LIMIT
  {
    hide MeaningOf;
    RunSimulates(history);
    StepSimulates(Run(history), RunUnbounded(history), MeaningOf(r));
    assert (history + [r])[..|history|] == history;
    if MeaningOf(r).Start? {
      OpenIsUnanswered(history, MeaningOf(r).question);
    }
  }

  /** After an overflow nothing but a reset answers `Working` or stops the waiting. */
  lemma {:induction false} OverflowHolds(history: seq<Report>, more: seq<Report>)
    requires Run(history).overflow
    requires forall i :: 0 <= i < |more| ==> !IsReset(MeaningOf(more[i]))
    ensures Run(history + more).overflow && Run(history + more).QuestionWaiting()
    ensures forall i :: 0 <= i < |more| ==> Answer(history + more[..i], more[i]) != Ok(Working)
  {
    hide *;
    OverflowWaits(Run(history));
    if more == [] {
      assert history + more == history;
    } else {
      var n := |more| - 1;
      OverflowHolds(history, more[..n]);
      assert (history + more)[..|history| + n] == history + more[..n];
      OverflowHoldsOnce(history + more[..n], more[n]);
      assert history + more == history + more[..n] + [more[n]];
      forall i | 0 <= i < |more|
        ensures Answer(history + more[..i], more[i]) != Ok(Working)
      {
        if i < n {
          assert more[..n][i] == more[i] && more[..n][..i] == more[..i];
        }
      }
    }
  }

  lemma OverflowWaits(s: Bounded)
    requires s.overflow
    ensures s.QuestionWaiting()
  {
  }

  lemma OverflowHoldsOnce(history: seq<Report>, r: Report)
    requires Run(history).overflow && !IsReset(MeaningOf(r))
    ensures Run(history + [r]).overflow && Run(history + [r]).QuestionWaiting()
    ensures Answer(history, r) != Ok(Working)
  {
    hide MeaningOf;
    assert (history + [r])[..|history|] == history;
  }

  /** A reset forgets everything; then the machine is as new. */
  lemma ResetForgets(history: seq<Report>, r: Report)
    requires IsReset(MeaningOf(r))
    ensures Run(history + [r]) == INITIAL && Answer(history, r) == Ok(MeaningOf(r).status)
  {
    hide MeaningOf;
    assert (history + [r])[..|history|] == history;
  }

  lemma RejectedIsEarly(r: Report)
    ensures MeaningOf(r).Rejected? ==>
              MeaningOf(r).reason == PermissionUnderReview || MeaningOf(r).reason == MissingMetadata
  {
  }

  /** A refused report changes the state exactly when it ends a pending question; then that question goes and nothing
      else. */
  lemma RefusalsChangeNothing(history: seq<Report>, r: Report)
    requires Answer(history, r).Err?
    ensures Run(history + [r]) != Run(history)
            <==> MeaningOf(r).End? && MeaningOf(r).question in Run(history).pending
    ensures Run(history + [r]) != Run(history) ==>
              && Elements(Run(history + [r]).pending) == Elements(Run(history).pending) - {MeaningOf(r).question}
              && Run(history + [r]).overflow == Run(history).overflow
              && Run(history + [r]).otherBlocked == Run(history).otherBlocked
  {
    hide MeaningOf;
    RunSimulates(history);
    assert (history + [r])[..|history|] == history;
    RejectedIsEarly(r);
    var pending := Run(history).pending;
    if MeaningOf(r).End? && MeaningOf(r).question in pending {
      var i := IndexOfQuestion(pending, MeaningOf(r).question).value;
      RemoveOne(pending, i);
      assert |Run(history + [r]).pending| == |pending| - 1;
    }
  }
}
