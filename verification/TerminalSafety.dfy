/** What is safe over every run, and exactly where that stops. */
module TerminalSafety {
  import opened Terminal
  import opened TerminalRuns

  // ---------- Every run ----------

  /** Over every run, from any terminal and wherever writes are cut short, the events alone say what the terminal, the
      recorded state, the stacks and fd 2 are. */
  lemma EveryRunHolds(shell: Term, start: Start, events: seq<Event>)
    requires CanRun(shell, start, events)
    ensures var h := RunOf(shell, start, events).host;
            var t := h.term;
            && StacksFollow(t, shell, start, events)
            && (h.captured <==> CapturedBy(events)) && (h.stderr == Log <==> LogsBy(events))
            && (Buttons in t.modes <==> ReportsBy(shell, events)) && (AlternateScroll in t.modes <==> ScrollsBy(events))
            && (AnyMotion in t.modes <==> TracksBy(shell, events))
            && (h.mouseCaptureOn <==> RecordedBy(events))
  {
    hide LostBy, OwnBy, ScreenBy, ReportsBy, ScrollsBy, TracksBy, RecordedBy, CapturedBy, LogsBy, CanRun, RunOf;
    KeysFollow(shell, start, events);
    StderrFollows(shell, start, events);
    MouseFollows(shell, start, events);
  }

  /** What breaks an agreement of the recorded state and mode 1000: a toggle cut short once it has passed mode 1000, or
      a child that leaves the mouse reported. */
  predicate Breaks(recorded: bool, e: Event) {
    match e
    case Toggle(capture, written) => if capture then !recorded && 2 <= written < 4 else recorded && written == 4
    case Child(left) => recorded != (Buttons in left.modes)
    case _ => false
  }

  /** What repairs it: any toggle, hand-over or take-back that gets past its last command about mode 1000. */
  predicate Repairs(recorded: bool, e: Event) {
    match e
    case Toggle(capture, written) => if capture then written >= 4 || (recorded && written >= 2)
                                     else written >= 5 || (!recorded && written >= 4)
    case HandOver(rawOff, _, written) => rawOff && written >= 8
    case Child(left) => recorded == (Buttons in left.modes)
    case TakeBack(rawOn, _, written) => !recorded && rawOn && written >= 8
    case _ => false
  }

  /** The recorded capture state is the terminal's exactly when nothing has broken the agreement since it was last
      repaired; a shell that already reported the mouse starts out broken. */
  predicate AgreesBy(shell: Term, events: seq<Event>) {
    if events == [] then Buttons !in shell.modes
    else
      var recorded := RecordedBy(Front(events));
      if AgreesBy(shell, Front(events)) then !Breaks(recorded, Last(events)) else Repairs(recorded, Last(events))
  }

  lemma {:induction false} RecordedIsReal(shell: Term, start: Start, events: seq<Event>)
    requires CanRun(shell, start, events)
    ensures var h := RunOf(shell, start, events).host;
            (h.mouseCaptureOn <==> Buttons in h.term.modes) <==> AgreesBy(shell, events)
  {
    hide After, Setup, Breaks, Repairs;
    MouseFollows(shell, start, events);
    if events != [] {
      var front := Front(events);
      RecordedIsReal(shell, start, front);
      MouseFollows(shell, start, front);
      UnrecordedWhileSuspended(shell, start, front);
      AgreementStep(RecordedBy(front), ReportsBy(shell, front), Last(events));
    }
  }

  lemma {:induction false} UnrecordedWhileSuspended(shell: Term, start: Start, events: seq<Event>)
    requires CanRun(shell, start, events)
    ensures RunOf(shell, start, events).phase == Suspended ==> !RecordedBy(events)
  {
    hide After, Setup, SuspendCommands;
    if events != [] {
      UnrecordedWhileSuspended(shell, start, Front(events));
      PhaseStep(RunOf(shell, start, Front(events)), Last(events));
      SuspendList();
    }
  }

  lemma AgreementStep(recorded: bool, reports: bool, e: Event)
    requires e.TakeBack? ==> !recorded
    ensures (Records(recorded, e) <==> Reports(reports, e))
            <==> if recorded == reports then !Breaks(recorded, e) else Repairs(recorded, e)
  {
  }

  /** A toggle's write that fails after mode 1000 is on: the recorded state says it is off. */
  lemma CutToggleHappens(shell: Term, start: Start)
    requires Buttons !in shell.modes
    ensures CanRun(shell, start, [Toggle(true, 2)])
    ensures var h := RunOf(shell, start, [Toggle(true, 2)]).host; Buttons in h.term.modes && !h.mouseCaptureOn
  {
    var cut := Extend(shell, start, [], Toggle(true, 2));
    hide ExecAll;
    MouseFollows(shell, start, cut);
  }

  /** A hand-over that fails anywhere leaves spyc drawing with fd 2 the original, to be printed on its screen. */
  lemma FailedHandOver(shell: Term, start: Start, events: seq<Event>, rawOff: bool, popped: bool, written: nat)
    requires CanRun(shell, start, events) && RunOf(shell, start, events).phase == Owned
    requires !IsHandedOver(rawOff, written)
    ensures var longer := events + [HandOver(rawOff, popped, written)];
            && CanRun(shell, start, longer)
            && RunOf(shell, start, longer).phase == Owned && RunOf(shell, start, longer).host.stderr == Original
  {
    var longer := events + [HandOver(rawOff, popped, written)];
    assert Front(longer) == events && Last(longer) == HandOver(rawOff, popped, written);
    hide ExecAll, Setup, Suspend;
    StderrFollows(shell, start, longer);
  }

  /** A child that leaves the main screen up, a take-back that fails before its first command, and the next hand-over
      pops the login shell's own keyboard entry. */
  lemma LostKeyHappens(shell: Term, start: Start)
    requires shell.kitty
    ensures exists events: seq<Event> ::
              CanRun(shell, start, events) && RunOf(shell, start, events).host.term.mainKeys == Pop(shell.mainKeys)
              && RunOf(shell, start, events).phase == Owned
  {
    hide RunOf, CanRun, LostBy, OwnBy, ScreenBy;
    var left, events := LostKeyRun(shell, start);
    KeysFollow(shell, start, events);
    LostKeyCount(start, left);
    PopDrops(shell.mainKeys, 0, 0);
  }

  function LostKeyEvents(left: Term): seq<Event> {
    [HandOver(true, true, 9), Child(left), TakeBack(true, true, 0), HandOver(true, true, 0)]
  }

  lemma LostKeyRun(shell: Term, start: Start) returns (left: Term, events: seq<Event>)
    ensures left.screen == Main && events == LostKeyEvents(left)
    ensures CanRun(shell, start, events) && RunOf(shell, start, events).phase == Owned
  {
    hide Setup, Suspend, Resume, IsHandedOver, RunOf, CanRun;
    WrittenLengths();
    events := Nothing(shell, start);
    events := Extend(shell, start, events, HandOver(true, true, 9));
    left := RunOf(shell, start, events).host.term.(screen := Main);
    events := Extend(shell, start, events, Child(left));
    events := Extend(shell, start, events, TakeBack(true, true, 0));
    events := Extend(shell, start, events, HandOver(true, true, 0));
  }

  lemma LostKeyCount(start: Start, left: Term)
    requires left.screen == Main
    ensures LostBy(start, LostKeyEvents(left), Main) == 1
  {
    var four := LostKeyEvents(left);
    var three, two, one := four[..3], four[..2], four[..1];
    assert Front(four) == three && Front(three) == two && Front(two) == one && Front(one) == [];
    assert ScreenBy(two) == Main && ScreenBy(three) == Main && ScreenBy([]) == Alternate;
    assert LostBy(start, one, Main) == 0 && LostBy(start, two, Main) == 0 && LostBy(start, three, Main) == 0;
  }

  /** A hand-over whose keyboard pop fails alone: spyc's entry stays for the child, and taking back adds a second. */
  lemma DoublePushHappens(shell: Term, start: Start)
    requires shell.kitty && start.reply && start.pushed
    ensures exists events: seq<Event> ::
              CanRun(shell, start, events) && RunOf(shell, start, events).phase == Owned
              && RunOf(shell, start, events).host.term.altKeys == shell.altKeys + [DISAMBIGUATE, DISAMBIGUATE]
  {
    hide Setup, Suspend, Resume, IsHandedOver, RunOf, CanRun, LostBy, OwnBy, ScreenBy;
    WrittenLengths();
    var events := Nothing(shell, start);
    events := Extend(shell, start, events, HandOver(true, false, 9));
    events := Extend(shell, start, events, TakeBack(true, true, 10));
    KeysFollow(shell, start, events);
    DoublePushCount(start);
    assert events == [HandOver(true, false, 9), TakeBack(true, true, 10)];
    assert Own(2) == [DISAMBIGUATE, DISAMBIGUATE] && Drop(shell.altKeys, 0) == shell.altKeys;
    assert RunOf(shell, start, events).host.term.altKeys == Drop(shell.altKeys, 0) + Own(2);
  }

  lemma DoublePushCount(start: Start)
    requires start.reply && start.pushed
    ensures var events := [HandOver(true, false, 9), TakeBack(true, true, 10)];
            OwnBy(start, events) == 2 && LostBy(start, events, Alternate) == 0
  {
    var two := [HandOver(true, false, 9), TakeBack(true, true, 10)];
    var one := two[..1];
    assert Front(two) == one && Front(one) == [];
    assert OwnBy(start, one) == 1 && LostBy(start, one, Alternate) == 0;
  }

  lemma Nothing(shell: Term, start: Start) returns (events: seq<Event>)
    ensures events == [] && CanRun(shell, start, []) && RunOf(shell, start, []).phase == Owned
  {
    events := [];
  }

  /** A hand-over that reached the child with its pop written, or did not reach it. */
  predicate PopsIfHanded(e: Event) {
    e.HandOver? && IsHandedOver(e.rawOff, e.written) ==> e.popped
  }

  /** Unless a pop fails alone, the alternate screen's stack never holds more than one entry of spyc's, and none while a
      child has the terminal. */
  lemma {:induction false} OneEntryAtMost(shell: Term, start: Start, events: seq<Event>)
    requires CanRun(shell, start, events) && forall e :: e in events ==> PopsIfHanded(e)
    ensures OwnBy(start, events) <= 1
    ensures RunOf(shell, start, events).phase == Suspended ==> OwnBy(start, events) == 0
    ensures OwnBy(start, events) == 1 ==> ScreenBy(events) == Alternate
    ensures RunOf(shell, start, events).phase == Owned && shell.kitty ==>
              |RunOf(shell, start, events).host.term.altKeys| <= |shell.altKeys| + 1
  {
    hide After, Setup, SuspendGroup, StacksFollow;
    if events != [] {
      assert events == Front(events) + [Last(events)];
      assert PopsIfHanded(Last(events)) by { assert Last(events) in events; }
      OneEntryAtMost(shell, start, Front(events));
      PhaseStep(RunOf(shell, start, Front(events)), Last(events));
      SuspendList();
    }
    KeysFollow(shell, start, events);
    StackSize(RunOf(shell, start, events).host.term, shell, start, events);
  }

  lemma StackSize(t: Term, shell: Term, start: Start, events: seq<Event>)
    requires StacksFollow(t, shell, start, events)
    ensures shell.kitty ==> |t.altKeys| <= |shell.altKeys| + OwnBy(start, events)
  {
    hide OwnBy, LostBy, ScreenBy;
  }

  lemma WrittenLengths()
    ensures IsHandedOver(true, 9) && !IsHandedOver(true, 0)
  {
  }

  lemma Extend(shell: Term, start: Start, events: seq<Event>, e: Event) returns (longer: seq<Event>)
    requires CanRun(shell, start, events) && CanHappen(RunOf(shell, start, events), e)
    ensures longer == events + [e] && longer != [] && Front(longer) == events && Last(longer) == e
    ensures CanRun(shell, start, longer) && RunOf(shell, start, longer) == After(RunOf(shell, start, events), e)
  {
    longer := events + [e];
    assert Front(longer) == events;
  }

  // ---------- Never both, at any command ----------

  /** Nothing in `cs` switches on one of the two wheel modes while the other is on. */
  ghost predicate NeverBoth(t: Term, cs: seq<Command>) {
    forall k :: 0 <= k < |cs| ==>
      && (cs[k] == Set(AlternateScroll) ==> Buttons !in ExecAll(t, cs[..k]).modes)
      && (cs[k] == Set(Buttons) ==> AlternateScroll !in ExecAll(t, cs[..k]).modes)
  }

  /** Nothing that sets neither mode switches one on. */
  lemma UnsetNeverBoth(t: Term, cs: seq<Command>)
    requires Set(AlternateScroll) !in cs && Set(Buttons) !in cs
    ensures NeverBoth(t, cs)
  {
    hide ExecAll;
  }

  lemma NeverBothUpto(t: Term, cs: seq<Command>, written: nat)
    requires NeverBoth(t, cs)
    ensures NeverBoth(t, Upto(cs, written))
  {
    hide ExecAll;
    if written < |cs| {
      assert forall k :: 0 <= k < written ==> cs[..written][..k] == cs[..k];
    }
  }

  lemma ToggleNeverBoth(t: Term, capture: bool)
    ensures NeverBoth(t, MouseModeCommands(capture))
  {
    hide ExecAll;
    forall k | 0 <= k < |MouseModeCommands(capture)|
      ensures MouseModeCommands(capture)[..k] == Upto(MouseModeCommands(capture), k)
    {
      ToggleModes(t, capture, k);
    }
    ToggleModes(t, capture, 1);
    ToggleModes(t, capture, 4);
  }

  /** Taking the terminal back is safe whatever the child left on. */
  lemma ResumeNeverBoth(t: Term, push: bool, written: nat)
    ensures NeverBoth(t, ResumeCommands(push, written))
  {
    hide ExecAll, ResumeGroup;
    ResumeList();
    var all := ResumeGroup();
    OnlyResets(t, all[..8], Buttons);
    assert all[7] == all[..8][7] == Reset(Buttons);
    var cs := ResumeCommands(push, written);
    assert forall k :: 0 <= k < |cs| ==> (cs[k] == Set(AlternateScroll) ==> k == 8) && cs[k] != Set(Buttons);
    assert |cs| > 8 ==> cs[..8] == all[..8];
  }

  /** Setting up is safe exactly when the shell's terminal did not report the mouse. */
  lemma SetupNeverBoth(t: Term, start: Start)
    ensures NeverBoth(t, SetupCommands(start)) <==> Buttons !in t.modes
  {
    hide ExecAll;
    var cs := SetupCommands(start);
    OnlyResets(t, cs[..4], Buttons);
    assert cs[4] == Set(AlternateScroll);
  }

  /** At no prefix of anything spyc writes in any run, cut short or not, does it switch on alternate scroll while the
      terminal reports the mouse, or the reverse; but setting up does, on a terminal that already reports it. */
  lemma NothingEnablesBoth(shell: Term, start: Start, events: seq<Event>, e: Event)
    ensures NeverBoth(shell, SetupCommands(start)) <==> Buttons !in shell.modes
    ensures var h := RunOf(shell, start, events).host; NeverBoth(h.term, Written(h, e))
  {
    hide ExecAll, SuspendCommands, ResumeCommands, MouseModeCommands, SetupCommands, RunOf, NeverBoth;
    SetupNeverBoth(shell, start);
    var h := RunOf(shell, start, events).host;
    assert NeverBoth(h.term, []) by { NothingIsNeverBoth(h.term); }
    match e {
      case Toggle(capture, written) =>
        ToggleNeverBoth(h.term, capture);
        NeverBothUpto(h.term, MouseModeCommands(capture), written);
      case HandOver(_, popped, written) =>
        SuspendHas(popped, written);
        UnsetNeverBoth(h.term, SuspendCommands(popped, written));
      case TakeBack(_, pushed, written) => ResumeNeverBoth(h.term, h.keyboardSupported && pushed, written);
      case _ =>
    }
  }

  lemma NothingIsNeverBoth(t: Term)
    ensures NeverBoth(t, [])
  {
  }

  /** A shell that reports the mouse starts spyc in the state the pairing exists to prevent, unrecorded. */
  lemma SetupOverReporting(shell: Term, start: Start)
    requires Buttons in shell.modes
    ensures var h := RunOf(shell, start, []).host;
            Buttons in h.term.modes && AlternateScroll in h.term.modes && !h.mouseCaptureOn
  {
    hide ExecAll;
    MouseFollows(shell, start, []);
  }
}
