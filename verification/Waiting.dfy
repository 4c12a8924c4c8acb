/** How a live `waiting` report meets the reports after it (`src/agent/waiting.rs`), with the report handler
    that applies the rules (`src/app/mcp.rs`). */
module Waiting {
  import opened Text
  import opened Agent

  datatype Origin = OwnReport | Hook(event: Option<HookEvent>)

  datatype Verdict = Apply | AbsorbTurnEnd | Absorb

  datatype Reported = Reported(status: Activity, expiry: int, note: Option<string>, turnEndAbsorbed: bool)

  predicate IsNamed(event: Option<HookEvent>, name: string) {
    event.Some? && event.value.name == name
  }

  /** Whether the event says work is pending that will wake the agent; `None` when it cannot say. */
  function WakesPending(event: HookEvent): Option<bool> {
    if event.backgroundTasks.None? && event.sessionCrons.None? then
      if event.fullyIdle.None? then None else Some(!event.fullyIdle.value)
    else
      Some((event.backgroundTasks.Some? && event.backgroundTasks.value > 0)
           || (event.sessionCrons.Some? && event.sessionCrons.value > 0))
  }

  function Pending(event: Option<HookEvent>): Option<bool> {
    if event.None? then None else WakesPending(event.value)
  }

  function TurnOpenAfter(open: bool, incoming: Activity, event: Option<HookEvent>): bool {
    if IsNamed(event, "Notification") then open
    else if IsNamed(event, "StopFailure") then false
    else
      match incoming
      case Working => true
      case Done => false
      case Waiting => false
      case Idle => false
      case _ => open
  }

  predicate HeldForTurnEnd(incoming: Activity, origin: Origin, turnOpen: bool) {
    turnOpen && incoming == Activity.Waiting && origin.OwnReport?
  }

  function LiveWaiting(live: Option<Reported>, now: int): Option<Reported> {
    if live.Some? && live.value.status == Activity.Waiting && now < live.value.expiry then live else None
  }

  function Meet(live: Option<Reported>, incoming: Activity, origin: Origin, now: int): Verdict {
    var waiting := LiveWaiting(live, now);
    if waiting.None? || origin.OwnReport? || (incoming != Done && incoming != Idle) then Apply
    else if IsNamed(origin.event, "Notification") then Absorb
    else
      match Pending(origin.event)
      case Some(false) => Apply
      case Some(true) => Absorb
      case None => if waiting.value.turnEndAbsorbed then Apply else AbsorbTurnEnd
  }

  /** `hookNote` stands for what the event's own summary or failure note says. */
  function NoteFor(live: Option<Reported>, incoming: Activity, note: Option<string>, hookNote: Option<string>,
                   now: int): Option<string>
  {
    if note.Some? then note
    else
      match incoming
      case Waiting =>
        var waiting := LiveWaiting(live, now);
        if waiting.Some? && waiting.value.note.Some? then waiting.value.note else hookNote
      case Blocked => hookNote
      case _ => None
  }

  // ---------- The handler ----------

  /** The fields of a tab the handler keeps for these rules. */
  datatype Tab = Tab(live: Option<Reported>, held: Option<Reported>, turnOpen: bool)

  /** One report; `accepted` is the agent-specific decision made before these rules. */
  datatype Report = Report(status: Activity, origin: Origin, note: Option<string>, hookNote: Option<string>,
                           now: int, expiry: int, accepted: bool)

  function FollowTurn(tab: Tab, r: Report): Tab {
    if r.origin.OwnReport? then tab.(held := None)
    else
      var open := TurnOpenAfter(tab.turnOpen, r.status, r.origin.event);
      if tab.turnOpen && !open && tab.held.Some? then Tab(tab.held, None, open) else tab.(turnOpen := open)
  }

  function Receive(tab: Tab, r: Report): Tab {
    var followed := FollowTurn(tab, r);
    if r.accepted && HeldForTurnEnd(r.status, r.origin, followed.turnOpen) then
      followed.(held := Some(Reported(Activity.Waiting, r.expiry, r.note, false)))
    else
      var verdict := Meet(followed.live, r.status, r.origin, r.now);
      var live := if verdict == AbsorbTurnEnd && followed.live.Some?
                  then Some(followed.live.value.(turnEndAbsorbed := true)) else followed.live;
      if r.accepted && verdict == Apply then
        followed.(live := Some(Reported(r.status, r.expiry, NoteFor(live, r.status, r.note, r.hookNote, r.now), false)))
      else followed.(live := live)
  }

  function Run(tab: Tab, reports: seq<Report>): Tab {
    if reports == [] then tab else Receive(Run(tab, reports[..|reports| - 1]), reports[|reports| - 1])
  }

  // ---------- What a live wait survives ----------

  predicate IsNudge(r: Report) {
    r.origin.Hook? && IsNamed(r.origin.event, "Notification")
  }

  /** A hook's turn end, acted on or refused. */
  predicate IsTurnEnd(r: Report) {
    r.origin.Hook? && (r.status == Done || r.status == Idle)
  }

  /** A turn end from a hook that cannot say whether work is pending. */
  predicate IsSilent(r: Report) {
    IsTurnEnd(r) && !IsNudge(r) && Pending(r.origin.event).None?
  }

  /** A turn end whose event says nothing will wake the agent. */
  predicate SaysNothingPending(r: Report) {
    IsTurnEnd(r) && !IsNudge(r) && Pending(r.origin.event) == Some(false)
  }

  /** The held wait takes over at the end of the turn it was held for. */
  predicate Promotes(tab: Tab, r: Report) {
    tab.held.Some? && r.origin.Hook? && tab.turnOpen && !TurnOpenAfter(tab.turnOpen, r.status, r.origin.event)
  }

  /** The report itself becomes the live one. */
  predicate Applies(tab: Tab, r: Report) {
    var followed := FollowTurn(tab, r);
    && r.accepted && !HeldForTurnEnd(r.status, r.origin, followed.turnOpen)
    && Meet(followed.live, r.status, r.origin, r.now) == Apply
  }

  predicate Replaces(tab: Tab, r: Report) {
    Promotes(tab, r) || Applies(tab, r)
  }

  /** The live report has not been replaced by any of these. */
  ghost predicate Stands(tab: Tab, reports: seq<Report>) {
    forall k :: 0 <= k < |reports| ==> !Replaces(Run(tab, reports[..k]), reports[k])
  }

  /** Replacing means what it says, and nothing else touches the live report but to mark it. */
  lemma ReplacesMeans(tab: Tab, r: Report)
    requires tab.live.Some?
    ensures var end := Receive(tab, r).live;
            && end.Some?
            && (Applies(tab, r) ==> end.value.status == r.status && end.value.expiry == r.expiry
                                    && !end.value.turnEndAbsorbed)
            && (Promotes(tab, r) && !Applies(tab, r) ==>
                  end.value.(turnEndAbsorbed := tab.held.value.turnEndAbsorbed) == tab.held.value)
            && (!Replaces(tab, r) ==>
                  end.value.(turnEndAbsorbed := tab.live.value.turnEndAbsorbed) == tab.live.value)
  {
  }

  // What the reports alone say of the turn, of a held wait, and of the live wait's mark.

  predicate TurnBy(tab: Tab, reports: seq<Report>) {
    if reports == [] then tab.turnOpen
    else
      var before, r := TurnBy(tab, reports[..|reports| - 1]), reports[|reports| - 1];
      if r.origin.OwnReport? then before else TurnOpenAfter(before, r.status, r.origin.event)
  }

  predicate HoldsBy(tab: Tab, reports: seq<Report>) {
    if reports == [] then tab.held.Some?
    else
      var front, r := reports[..|reports| - 1], reports[|reports| - 1];
      if r.origin.OwnReport? then r.accepted && r.status == Activity.Waiting && TurnBy(tab, front)
      else HoldsBy(tab, front) && (TurnBy(tab, reports) || !TurnBy(tab, front))
  }

  ghost predicate MarkedBy(wait: Reported, reports: seq<Report>) {
    wait.turnEndAbsorbed || exists i :: 0 <= i < |reports| && IsSilent(reports[i]) && reports[i].now < wait.expiry
  }

  /** Report `k` is the end of the wait, if it is still live. */
  ghost predicate EndsWait(tab: Tab, wait: Reported, reports: seq<Report>, k: nat)
    requires k < |reports|
  {
    var before, r := reports[..k], reports[k];
    || (HoldsBy(tab, before) && TurnBy(tab, before) && !TurnBy(tab, reports[..k + 1]))
    || (&& r.accepted
        && !(r.origin.OwnReport? && r.status == Activity.Waiting && TurnBy(tab, before))
        && (|| r.now >= wait.expiry
            || !IsTurnEnd(r)
            || SaysNothingPending(r)
            || (IsSilent(r) && MarkedBy(wait, before))))
  }

  /** Over any reports at all, the agent's own or a hook's, acted on or refused, with a wait held or not: the live wait
      stands exactly when none of them ends it, and is marked exactly when a turn end that cannot say came before it
      expired. */
  lemma {:induction false} WaitStands(tab: Tab, wait: Reported, reports: seq<Report>)
    requires tab.live == Some(wait) && wait.status == Activity.Waiting
    ensures Stands(tab, reports) <==> forall k :: 0 <= k < |reports| ==> !EndsWait(tab, wait, reports, k)
    ensures var end := Run(tab, reports);
            && end.turnOpen == TurnBy(tab, reports) && end.held.Some? == HoldsBy(tab, reports)
            && (Stands(tab, reports) ==> end.live == Some(wait.(turnEndAbsorbed := MarkedBy(wait, reports))))
  {
    hide Replaces, EndsWait, Receive;
    if reports != [] {
      var n := |reports| - 1;
      var front := reports[..n];
      WaitStands(tab, wait, front);
      TurnStep(Run(tab, front), reports[n]);
      StandsStep(tab, reports);
      EndsStep(tab, wait, reports);
      MarkedStep(wait, reports);
      if Stands(tab, front) {
        WaitMeets(Run(tab, front), tab, wait, reports);
      }
    }
  }

  lemma TurnStep(tab: Tab, r: Report)
    ensures var end := Receive(tab, r);
            && end.turnOpen == (if r.origin.OwnReport? then tab.turnOpen
                                else TurnOpenAfter(tab.turnOpen, r.status, r.origin.event))
            && end.held.Some? == (if r.origin.OwnReport?
                                  then r.accepted && r.status == Activity.Waiting && tab.turnOpen
                                  else tab.held.Some? && (end.turnOpen || !tab.turnOpen))
  {
  }

  lemma StandsStep(tab: Tab, reports: seq<Report>)
    requires reports != []
    ensures var n := |reports| - 1;
            Stands(tab, reports) <==> Stands(tab, reports[..n]) && !Replaces(Run(tab, reports[..n]), reports[n])
  {
    hide Replaces, Run;
    var front := reports[..|reports| - 1];
    assert forall k :: 0 <= k < |front| ==> front[..k] == reports[..k] && front[k] == reports[k];
  }

  lemma EndsStep(tab: Tab, wait: Reported, reports: seq<Report>)
    requires reports != []
    ensures var n := |reports| - 1;
            forall k :: 0 <= k < n ==> (EndsWait(tab, wait, reports, k) <==> EndsWait(tab, wait, reports[..n], k))
  {
    hide TurnBy, HoldsBy, MarkedBy;
    var front := reports[..|reports| - 1];
    assert forall k {:trigger front[k]} :: 0 <= k < |front| ==>
        front[..k] == reports[..k] && front[..k + 1] == reports[..k + 1] && front[k] == reports[k];
  }

  lemma MarkedStep(wait: Reported, reports: seq<Report>)
    requires reports != []
    ensures var n := |reports| - 1;
            MarkedBy(wait, reports)
            <==> MarkedBy(wait, reports[..n]) || (IsSilent(reports[n]) && reports[n].now < wait.expiry)
  {
    hide IsSilent;
    var front := reports[..|reports| - 1];
    assert forall i :: 0 <= i < |front| ==> front[i] == reports[i];
  }

  /** One report meets the wait while it is live. */
  lemma WaitMeets(t: Tab, tab: Tab, wait: Reported, reports: seq<Report>)
    requires reports != [] && wait.status == Activity.Waiting
    requires var front := reports[..|reports| - 1];
             && t.turnOpen == TurnBy(tab, front) && t.held.Some? == HoldsBy(tab, front)
             && t.live == Some(wait.(turnEndAbsorbed := MarkedBy(wait, front)))
    ensures var r := reports[|reports| - 1];
            && (Replaces(t, r) <==> EndsWait(tab, wait, reports, |reports| - 1))
            && (!Replaces(t, r) ==> Receive(t, r).live == Some(wait.(turnEndAbsorbed := MarkedBy(wait, reports))))
  {
    hide MarkedBy;
    MarkedStep(wait, reports);
    assert reports[..|reports|] == reports;
  }

  /** Turn ends before it expires, nothing held: the wait stands exactly when no end that is acted on says nothing is
      pending, and none that cannot say comes after another that cannot. Nudges and ends with work pending never
      count. */
  lemma WaitOutlastsTurnEnds(tab: Tab, wait: Reported, reports: seq<Report>)
    requires tab.live == Some(wait) && tab.held.None? && wait.status == Activity.Waiting
    requires forall i :: 0 <= i < |reports| ==> IsTurnEnd(reports[i]) && reports[i].now < wait.expiry
    ensures Stands(tab, reports)
            <==> forall k :: 0 <= k < |reports| && reports[k].accepted ==>
                   && !SaysNothingPending(reports[k])
                   && !(IsSilent(reports[k])
                        && (wait.turnEndAbsorbed || exists i :: 0 <= i < k && IsSilent(reports[i])))
  {
    hide IsSilent, SaysNothingPending, IsNudge, TurnBy;
    WaitStands(tab, wait, reports);
    forall k | 0 <= k < |reports|
      ensures EndsWait(tab, wait, reports, k)
              <==> && reports[k].accepted
                   && (SaysNothingPending(reports[k]) || (IsSilent(reports[k]) && MarkedBy(wait, reports[..k])))
      ensures MarkedBy(wait, reports[..k]) <==> wait.turnEndAbsorbed || exists i :: 0 <= i < k && IsSilent(reports[i])
    {
      NothingHeld(tab, reports[..k]);
      assert forall i :: 0 <= i < k ==> reports[..k][i] == reports[i];
    }
  }

  lemma {:induction false} NothingHeld(tab: Tab, reports: seq<Report>)
    requires tab.held.None? && forall i :: 0 <= i < |reports| ==> IsTurnEnd(reports[i])
    ensures !HoldsBy(tab, reports)
  {
    if reports != [] {
      NothingHeld(tab, reports[..|reports| - 1]);
    }
  }

  /** A refused turn end marks the wait all the same, so that the first one acted on after it ends the wait. */
  lemma RefusedEndCounts(tab: Tab, wait: Reported, refused: Report, end: Report)
    requires tab.live == Some(wait) && tab.held.None? && wait.status == Activity.Waiting && !wait.turnEndAbsorbed
    requires !refused.accepted && IsSilent(refused) && refused.now < wait.expiry
    requires end.accepted && IsSilent(end) && end.now < wait.expiry
    ensures Stands(tab, [refused]) && !Stands(tab, [refused, end])
    ensures Run(tab, [refused, end]).live.value.status == end.status
  {
    hide IsSilent, SaysNothingPending, IsNudge, Receive;
    var both := [refused, end];
    assert IsTurnEnd(refused) && IsTurnEnd(end) by { SilentEnds(refused); SilentEnds(end); }
    assert both[0] == refused && both[1] == end && both[..1] == [refused];
    WaitOutlastsTurnEnds(tab, wait, [refused]);
    WaitOutlastsTurnEnds(tab, wait, both);
    WaitStands(tab, wait, [refused]);
    StandsStep(tab, both);
    var marked := Run(tab, [refused]);
    RunTwo(tab, refused, end);
    ReplacesMeans(marked, end);
    NothingHeld(tab, [refused]);
  }

  lemma SilentEnds(r: Report)
    requires IsSilent(r)
    ensures IsTurnEnd(r)
  {
  }

  lemma RunTwo(tab: Tab, first: Report, second: Report)
    ensures Run(tab, [first, second]) == Receive(Run(tab, [first]), second)
  {
    hide Receive;
    assert [first, second][..1] == [first];
  }

  /** An accepted report of the agent's own is never held back by a live wait: it becomes the live report, or, a
      `waiting` inside an open turn, the one held for that turn's end. */
  lemma OwnReportNeverBlocked(tab: Tab, r: Report)
    requires r.origin.OwnReport? && r.accepted
    ensures var end := Receive(tab, r);
            if r.status == Activity.Waiting && tab.turnOpen
            then end.live == tab.live && end.held == Some(Reported(r.status, r.expiry, r.note, false))
            else end.held.None? && end.live.Some? && end.live.value.status == r.status
                 && end.live.value.expiry == r.expiry && !end.live.value.turnEndAbsorbed
  {
  }

  // ---------- Turns and held waits ----------

  predicate Opens(r: Report) {
    r.origin.Hook? && r.status == Working
    && !IsNamed(r.origin.event, "Notification") && !IsNamed(r.origin.event, "StopFailure")
  }

  predicate Closes(r: Report) {
    r.origin.Hook? && !IsNamed(r.origin.event, "Notification")
    && (IsNamed(r.origin.event, "StopFailure") || r.status == Done || r.status == Idle || r.status == Activity.Waiting)
  }

  ghost predicate OpenedSince(reports: seq<Report>, i: nat) {
    i < |reports| && Opens(reports[i]) && forall j :: i <= j < |reports| ==> !Closes(reports[j])
  }

  /** A turn is open exactly when a prompt opened it and no end, failure or cancel came after: agent reports,
      questions and nudges move nothing. */
  lemma {:induction false} TurnIsOpenSincePrompt(tab: Tab, reports: seq<Report>)
    requires !tab.turnOpen
    ensures Run(tab, reports).turnOpen <==> exists i: nat :: OpenedSince(reports, i)
  {
    if reports != [] {
      var n := |reports| - 1;
      var front, last := reports[..n], reports[n];
      TurnIsOpenSincePrompt(tab, front);
      if Opens(last) {
        assert OpenedSince(reports, n);
      } else if !Closes(last) {
        if i: nat :| OpenedSince(front, i) {
          assert OpenedSince(reports, i);
        }
        if i: nat :| OpenedSince(reports, i) {
          assert OpenedSince(front, i);
        }
      }
    }
  }

  /** Reports that leave an open turn open and a held wait held. */
  predicate KeepsTurn(r: Report) {
    r.origin.Hook? && !Closes(r)
  }

  lemma {:induction false} HeldThroughTheTurn(tab: Tab, reports: seq<Report>)
    requires tab.turnOpen && forall i :: 0 <= i < |reports| ==> KeepsTurn(reports[i])
    ensures Run(tab, reports).turnOpen && Run(tab, reports).held == tab.held
  {
    if reports != [] {
      HeldThroughTheTurn(tab, reports[..|reports| - 1]);
    }
  }

  /** A wait the agent reported during its turn meets the turn's end exactly as one reported with no turn open
      just before it: whatever the turn's hooks said in between, both tabs end up the same. */
  lemma HeldWaitActsAtTurnEnd(tab: Tab, wait: Report, during: seq<Report>, end: Report)
    requires tab.turnOpen
    requires wait.accepted && wait.origin.OwnReport? && wait.status == Activity.Waiting && wait.hookNote.None?
    requires forall i :: 0 <= i < |during| ==> KeepsTurn(during[i])
    requires Closes(end)
    ensures Receive(Run(Receive(tab, wait), during), end) == Receive(Receive(Tab(None, None, false), wait), end)
  {
    HeldThroughTheTurn(Receive(tab, wait), during);
  }

  /** The agent's words outlive any report that leaves a wait standing without words of its own. */
  lemma NoteOutlasts(tab: Tab, words: string, r: Report)
    requires !Promotes(tab, r) && tab.live.Some? && r.now < tab.live.value.expiry
    requires tab.live.value.status == Activity.Waiting && tab.live.value.note == Some(words)
    requires r.origin.Hook? && r.note.None?
    ensures Receive(tab, r).live.Some?
    ensures Receive(tab, r).live.value.status == Activity.Waiting ==> Receive(tab, r).live.value.note == Some(words)
  {
  }
}
