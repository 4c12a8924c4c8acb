/** `spawn_and_pipe` (`src/clipboard.rs`): the caller, the helper process and the writer thread, interleaved one
    step at a time under a deadline. Polling the process is taken never to fail. */
module ClipboardPipe {
  datatype ExitStatus = Succeeded | Failed

  /** The helper: running, exited but not waited for, or reaped. */
  datatype Child = Running | Exited(status: ExitStatus) | Reaped

  /** The thread that runs `write_all`: nothing to write to, still writing, or done. */
  datatype Writer = NoStdin | Writing | Finished(ok: bool)

  datatype Outcome = Ok | TimedOutError | ExitError | WriteError

  /** Where the caller is in `spawn_and_pipe`. */
  datatype Place =
    | CheckDeadline              // the loop condition
    | TryWait                    // the poll in the loop body
    | Expired                    // after the loop without a status
    | Kill                       // the writer was not finished: child.kill()
    | WaitKilled                 // child.wait()
    | JoinLive                   // join_write with the child still running
    | JoinDead(status: ExitStatus)  // join_write after the child was reaped
    | Returned(outcome: Outcome)

  datatype State = State(
    place: Place,
    child: Child,
    writer: Writer,
    sent: nat,              // bytes the writer has put into the pipe
    buffered: nat,          // bytes in the pipe nobody has read
    childReads: bool,       // the helper's stdin is open
    heirReads: bool,        // a process the helper started holds the same read end
    deadlinePassed: bool,
    timedOut: bool,         // the caller left the loop without an exit status
    reaper: bool)           // a detached thread has taken the child over to wait for it

  /** The payload's length, the pipe's capacity, and whether the child has a stdin at all. */
  datatype Config = Config(payload: nat, capacity: nat, piped: bool)

  function Init(c: Config): State {
    State(CheckDeadline, Running, if c.piped then Writing else NoStdin, 0, 0, c.piped, false, false, false, false)
  }

  predicate HasReader(s: State) {
    (s.child.Running? && s.childReads) || s.heirReads
  }

  datatype Action =
    | CallerStep
    | Write(n: nat)         // part of the payload enters the pipe
    | WriteAllDone          // write_all returns Ok
    | WriteBroken           // the pipe has no reader: write_all fails
    | WriterPanics
    | ChildReads(n: nat)
    | ChildCloses
    | ChildForks            // a process that inherits the read end
    | HeirReads(n: nat)
    | HeirGone
    | ChildExits(status: ExitStatus)
    | DeadlinePasses
    | ReaperReaps

  predicate WriterDone(s: State) {
    !s.writer.Writing?
  }

  predicate CanDo(c: Config, s: State, a: Action) {
    match a
    case CallerStep =>
      !s.place.Returned?
      && (s.place.WaitKilled? ==> s.child.Exited?)
      && (s.place.JoinLive? || s.place.JoinDead? ==> WriterDone(s))
    case Write(n) => s.writer.Writing? && HasReader(s) && 0 < n <= c.payload - s.sent && s.buffered + n <= c.capacity
    case WriteAllDone => s.writer.Writing? && s.sent == c.payload
    case WriteBroken => s.writer.Writing? && s.sent < c.payload && !HasReader(s)
    case WriterPanics => s.writer.Writing?
    case ChildReads(n) => s.child.Running? && s.childReads && n <= s.buffered
    case ChildCloses => s.child.Running? && s.childReads
    case ChildForks => s.child.Running? && s.childReads
    case HeirReads(n) => s.heirReads && n <= s.buffered
    case HeirGone => s.heirReads
    case ChildExits(_) => s.child.Running?
    case DeadlinePasses => true
    case ReaperReaps => s.reaper && s.child.Exited?
  }

  function CallerDoes(s: State): State {
    match s.place
    case CheckDeadline =>
      if s.deadlinePassed then s.(place := Expired, timedOut := true) else s.(place := TryWait)
    case TryWait =>
      if s.child.Exited? then s.(place := JoinDead(s.child.status), child := Reaped) else s.(place := CheckDeadline)
    case Expired => s.(place := if s.writer.Writing? then Kill else JoinLive)
    case Kill => s.(place := WaitKilled, child := if s.child.Running? then Exited(Failed) else s.child)
    case WaitKilled => s.(place := Returned(TimedOutError), child := Reaped)
    case JoinLive =>
      if s.writer == Finished(false) then s.(place := Returned(WriteError))
      else s.(place := Returned(Ok), reaper := true)
    case JoinDead(status) =>
      s.(place := Returned(if status == Failed then ExitError
                           else if s.writer == Finished(false) then WriteError else Ok))
    case Returned(_) => s
  }

  function Do(s: State, a: Action): State {
    match a
    case CallerStep => CallerDoes(s)
    case Write(n) => s.(sent := s.sent + n, buffered := s.buffered + n)
    case WriteAllDone => s.(writer := Finished(true))
    case WriteBroken => s.(writer := Finished(false))
    case WriterPanics => s.(writer := Finished(false))
    case ChildReads(n) => s.(buffered := if n <= s.buffered then s.buffered - n else 0)
    case ChildCloses => s.(childReads := false)
    case ChildForks => s.(heirReads := true)
    case HeirReads(n) => s.(buffered := if n <= s.buffered then s.buffered - n else 0)
    case HeirGone => s.(heirReads := false)
    case ChildExits(status) => s.(child := Exited(status))
    case DeadlinePasses => s.(deadlinePassed := true)
    case ReaperReaps => s.(child := Reaped)
  }

  /** The state after an interleaving, each action of which could happen where it does. */
  function After(c: Config, run: seq<Action>): State {
    if run == [] then Init(c) else Do(After(c, run[..|run| - 1]), run[|run| - 1])
  }

  predicate CanRun(c: Config, run: seq<Action>) {
    run == [] || (CanRun(c, run[..|run| - 1]) && CanDo(c, After(c, run[..|run| - 1]), run[|run| - 1]))
  }

  ghost predicate Reachable(c: Config, s: State) {
    exists run: seq<Action> :: CanRun(c, run) && After(c, run) == s
  }

  // ---------- The invariant ----------

  ghost predicate Invariant(c: Config, s: State) {
    && (s.writer.NoStdin? <==> !c.piped)
    && s.sent <= c.payload
    && (s.writer == Finished(true) ==> s.sent == c.payload)
    && (s.place.CheckDeadline? || s.place.TryWait? ==> s.child != Reaped && !s.timedOut)
    && (s.place.Expired? || s.place.Kill? || s.place.JoinLive? ==> s.child != Reaped && s.timedOut)
    && (s.place.WaitKilled? ==> s.child.Exited? && s.timedOut)
    && (s.place.JoinLive? ==> WriterDone(s))
    && (s.place.JoinDead? ==> s.child == Reaped && !s.timedOut)
    && (s.reaper ==> s.place == Returned(Ok))
    && (s.place.Returned? ==> ReturnedWell(s))
  }

  ghost predicate ReturnedWell(s: State)
    requires s.place.Returned?
  {
    match s.place.outcome
    case Ok => (s.writer.NoStdin? || s.writer == Finished(true)) && (s.child == Reaped || s.reaper)
    case TimedOutError => s.child == Reaped && s.timedOut
    case ExitError => s.child == Reaped
    case WriteError => s.writer == Finished(false) && (s.child == Reaped <==> !s.timedOut)
  }

  lemma CallerKeepsInvariant(c: Config, s: State)
    requires Invariant(c, s) && CanDo(c, s, CallerStep)
    ensures Invariant(c, CallerDoes(s))
  {
  }

  lemma StepKeepsInvariant(c: Config, s: State, a: Action)
    requires Invariant(c, s) && CanDo(c, s, a)
    ensures Invariant(c, Do(s, a))
  {
    if a.CallerStep? {
      CallerKeepsInvariant(c, s);
    } else {
      hide CallerDoes;
    }
  }

  lemma {:induction false} RunKeepsInvariant(c: Config, run: seq<Action>)
    requires CanRun(c, run)
    ensures Invariant(c, After(c, run))
  {
    if run != [] {
      var n := |run| - 1;
      RunKeepsInvariant(c, run[..n]);
      StepKeepsInvariant(c, After(c, run[..n]), run[n]);
    }
  }

  lemma ReachableKeepsInvariant(c: Config, s: State)
    requires Reachable(c, s)
    ensures Invariant(c, s)
  {
    var run: seq<Action> :| CanRun(c, run) && After(c, run) == s;
    RunKeepsInvariant(c, run);
  }

  // ---------- What every interleaving keeps ----------

  /** In every interleaving an `Ok` means the whole payload went into the pipe. */
  lemma OkMeansWritten(c: Config, s: State)
    requires Reachable(c, s) && s.place == Returned(Ok) && c.piped
    ensures s.sent == c.payload && s.writer == Finished(true)
  {
    hide CanRun, After, Reachable;
    ReachableKeepsInvariant(c, s);
  }

  /** The helper is reaped, or a reaper has it, at every return but one: the deadline passed and the writer had
      already failed. */
  lemma ChildIsAccountedFor(c: Config, s: State)
    requires Reachable(c, s) && s.place.Returned?
    ensures s.child == Reaped || s.reaper <==> !(s.timedOut && s.place == Returned(WriteError))
  {
    hide CanRun, After, Reachable;
    ReachableKeepsInvariant(c, s);
  }

  /** The failing branch, seen where it is taken: the loop has ended without a status and the writer is done. The
      helper ends up with nobody waiting for it exactly when the writer failed. */
  lemma LiveJoinLosesChild(c: Config, s: State)
    requires Reachable(c, s) && s.place == JoinLive
    ensures CanDo(c, s, CallerStep) && CallerDoes(s).place.Returned?
    ensures CallerDoes(s).child == Reaped || CallerDoes(s).reaper <==> s.writer != Finished(false)
  {
    hide CanRun, After, Reachable;
    ReachableKeepsInvariant(c, s);
  }

  lemma Extend(c: Config, run: seq<Action>, a: Action) returns (longer: seq<Action>)
    requires CanRun(c, run) && CanDo(c, After(c, run), a)
    ensures longer == run + [a] && CanRun(c, longer) && After(c, longer) == Do(After(c, run), a)
  {
    longer := run + [a];
    assert longer[..|run|] == run;
  }

  lemma Nothing(c: Config) returns (run: seq<Action>)
    ensures CanRun(c, run) && After(c, run) == Init(c)
  {
    run := [];
  }

  /** It happens: a helper that closes its stdin, keeps running past the deadline, and is never waited for. */
  lemma LostChildHappens(c: Config)
    requires c.piped && c.payload > 0
    ensures exists s: State :: Reachable(c, s) && s.place == Returned(WriteError) && s.child == Running && !s.reaper
  {
    hide CanRun, After, Reachable;
    var run := Nothing(c);
    run := Extend(c, run, ChildCloses);
    run := Extend(c, run, WriteBroken);
    run := Extend(c, run, DeadlinePasses);
    var s := Init(c).(childReads := false, writer := Finished(false), deadlinePassed := true);
    assert After(c, run) == s;
    run := Extend(c, run, CallerStep);
    assert After(c, run) == s.(place := Expired, timedOut := true);
    run := Extend(c, run, CallerStep);
    assert After(c, run) == s.(place := JoinLive, timedOut := true);
    run := Extend(c, run, CallerStep);
    RunIsReachable(c, run);
  }

  lemma RunIsReachable(c: Config, run: seq<Action>)
    requires CanRun(c, run)
    ensures Reachable(c, After(c, run))
  {
  }

  /** A write that can make no progress until someone reads. */
  predicate IsBlocked(c: Config, s: State) {
    s.writer.Writing? && s.sent < c.payload && s.buffered >= c.capacity && HasReader(s)
  }

  /** The deadline bounds the write as well as the wait: until it returns the caller can always take its next step,
      except while joining the writer of a helper that has exited; and even there the write is over or breaks at once
      when no process holds the helper's stdin. */
  lemma CallerIsNeverStuck(c: Config, s: State)
    requires Reachable(c, s) && !s.place.Returned?
    ensures !s.place.JoinDead? ==> CanDo(c, s, CallerStep)
    ensures s.place.JoinDead? && !s.heirReads ==>
              CanDo(c, s, CallerStep) || CanDo(c, s, WriteAllDone) || CanDo(c, s, WriteBroken)
  {
    hide CanRun, After, Reachable;
    ReachableKeepsInvariant(c, s);
  }

  /** The caller's own steps still to come, at most, once the deadline has passed. */
  function StepsLeft(place: Place): nat {
    match place
    case TryWait => 5
    case CheckDeadline => 4
    case Expired => 3
    case Kill => 2
    case WaitKilled => 1
    case JoinLive => 1
    case JoinDead(_) => 1
    case Returned(_) => 0
  }

  function CallerSteps(run: seq<Action>): nat {
    if run == [] then 0
    else CallerSteps(run[..|run| - 1]) + if run[|run| - 1].CallerStep? then 1 else 0
  }

  lemma StepIsOneLess(c: Config, s: State, a: Action)
    requires CanDo(c, s, a) && s.deadlinePassed
    ensures Do(s, a).deadlinePassed
    ensures StepsLeft(Do(s, a).place) + (if a.CallerStep? then 1 else 0) <= StepsLeft(s.place)
  {
    hide CanDo, CallerDoes;
    CallerIsOneNearer(s);
    assert a.CallerStep? ==> !s.place.Returned? by { NotBack(c, s, a); }
  }

  lemma NotBack(c: Config, s: State, a: Action)
    requires CanDo(c, s, a)
    ensures a.CallerStep? ==> !s.place.Returned?
  {
  }

  lemma CallerIsOneNearer(s: State)
    requires s.deadlinePassed
    ensures CallerDoes(s).deadlinePassed
    ensures !s.place.Returned? ==> StepsLeft(CallerDoes(s).place) < StepsLeft(s.place)
  {
  }

  /** Once the deadline has passed, at most five steps of its own, whatever the others do in between, bring the caller
      back. */
  lemma {:induction false} DeadlineBoundsCaller(c: Config, run: seq<Action>, more: seq<Action>)
    requires CanRun(c, run + more) && After(c, run).deadlinePassed
    ensures After(c, run + more).deadlinePassed
    ensures CallerSteps(more) + StepsLeft(After(c, run + more).place) <= StepsLeft(After(c, run).place) <= 5
    ensures CallerSteps(more) == 5 ==> After(c, run + more).place.Returned?
  {
    hide CanDo, Do;
    if more == [] {
      assert run + more == run;
    } else {
      var front, last := more[..|more| - 1], more[|more| - 1];
      assert (run + more)[..|run + more| - 1] == run + front;
      DeadlineBoundsCaller(c, run, front);
      StepIsOneLess(c, After(c, run + front), last);
    }
  }

  /** What is in the pipe was written to it. */
  lemma {:induction false} BufferedWasSent(c: Config, run: seq<Action>)
    requires CanRun(c, run)
    ensures After(c, run).buffered <= After(c, run).sent
  {
    hide CanDo, Do;
    if run != [] {
      var n := |run| - 1;
      BufferedWasSent(c, run[..n]);
      StepMovesBytes(After(c, run[..n]), run[n]);
    }
  }

  lemma StepMovesBytes(s: State, a: Action)
    requires s.buffered <= s.sent
    ensures Do(s, a).buffered <= Do(s, a).sent
  {
    hide CallerDoes;
    CallerMovesNoBytes(s);
  }

  lemma CallerMovesNoBytes(s: State)
    ensures CallerDoes(s).buffered == s.buffered && CallerDoes(s).sent == s.sent
  {
  }

  lemma FillPipe(c: Config) returns (run: seq<Action>)
    requires c.piped && c.capacity < c.payload
    ensures CanRun(c, run) && After(c, run) == Init(c).(heirReads := true, sent := c.capacity, buffered := c.capacity)
  {
    hide CanRun, After, CallerDoes;
    run := Nothing(c);
    run := Extend(c, run, ChildForks);
    if c.capacity > 0 {
      run := Extend(c, run, Write(c.capacity));
    }
  }

  /** A helper that starts a process and exits, with more payload than the pipe holds. */
  lemma HeirBlocksJoin(c: Config)
    requires c.piped && c.capacity < c.payload
    ensures exists s: State ::
              Reachable(c, s) && s.place == JoinDead(Succeeded) && IsBlocked(c, s) && !CanDo(c, s, CallerStep)
  {
    hide CanRun, After, Reachable;
    var run := FillPipe(c);
    run := Extend(c, run, ChildExits(Succeeded));
    var s := Init(c).(heirReads := true, sent := c.capacity, buffered := c.capacity, child := Exited(Succeeded));
    assert After(c, run) == s;
    run := Extend(c, run, CallerStep);
    assert After(c, run) == s.(place := TryWait);
    run := Extend(c, run, CallerStep);
    RunIsReachable(c, run);
  }

  /** Joining the writer of a helper that is gone can block exactly when the payload is larger than the pipe. */
  lemma JoinCanBlock(c: Config)
    ensures (exists s: State :: Reachable(c, s) && s.place.JoinDead? && IsBlocked(c, s))
            <==> c.piped && c.capacity < c.payload
  {
    hide CanRun, After, IsBlocked;
    if c.piped && c.capacity < c.payload {
      HeirBlocksJoin(c);
    }
    if s: State :| Reachable(c, s) && s.place.JoinDead? && IsBlocked(c, s) {
      BlockedNeedsLargePayload(c, s);
    }
  }

  lemma BlockedNeedsLargePayload(c: Config, s: State)
    requires Reachable(c, s) && IsBlocked(c, s)
    ensures c.piped && c.capacity < c.payload
  {
    ReachableKeepsInvariant(c, s);
    hide CanDo, Do;
    var run: seq<Action> :| CanRun(c, run) && After(c, run) == s;
    BufferedWasSent(c, run);
  }
}
