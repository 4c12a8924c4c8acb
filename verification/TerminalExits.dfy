/** Runs in which no write fails, and what the three exits leave after any run, whole or cut short. */
module TerminalExits {
  import opened Terminal
  import opened TerminalRuns

  // ---------- Runs without a failed write ----------

  predicate IsWhole(e: Event) {
    match e
    case Toggle(capture, written) => written >= |MouseModeCommands(capture)|
    case HandOver(rawOff, popped, written) => IsHandedOver(rawOff, written) && popped
    case TakeBack(rawOn, pushed, written) => rawOn && pushed && written > |ResumeGroup()|
    case GiveUp => false
    case _ => true
  }

  predicate AllWhole(events: seq<Event>) {
    forall e :: e in events ==> IsWhole(e)
  }

  /** The mouse mode has been settled since the start. */
  predicate IsSettled(events: seq<Event>) {
    exists e :: e in events && (e.Toggle? || e.HandOver?)
  }

  predicate IsUntracked(events: seq<Event>) {
    exists e :: e in events && ((e.Toggle? && !e.capture) || e.HandOver?)
  }

  predicate IsHanded(events: seq<Event>) {
    exists e :: e in events && e.HandOver?
  }

  lemma Extended(events: seq<Event>)
    requires events != []
    ensures AllWhole(events) <==> AllWhole(Front(events)) && IsWhole(Last(events))
    ensures IsSettled(events) <==> IsSettled(Front(events)) || Last(events).Toggle? || Last(events).HandOver?
    ensures IsUntracked(events)
            <==> IsUntracked(Front(events)) || (Last(events).Toggle? && !Last(events).capture) || Last(events).HandOver?
    ensures IsHanded(events) <==> IsHanded(Front(events)) || Last(events).HandOver?
  {
    hide IsWhole;
    assert events == Front(events) + [Last(events)];
  }

  /** What the events of an uncut run say. */
  predicate WholeMouse(shell: Term, phase: Phase, events: seq<Event>) {
    if phase == Owned then
      && ScreenBy(events) == Alternate
      && (if IsSettled(events)
          then ReportsBy(shell, events) == RecordedBy(events) != ScrollsBy(events)
          else ReportsBy(shell, events) == (Buttons in shell.modes) && ScrollsBy(events) && !RecordedBy(events))
      && (TracksBy(shell, events) <==> AnyMotion in shell.modes && !IsUntracked(events))
    else IsSettled(events) && IsUntracked(events) && !RecordedBy(events)
  }

  lemma WholeStep(shell: Term, phase: Phase, events: seq<Event>, phase': Phase)
    requires events != [] && WholeMouse(shell, phase, Front(events)) && IsWhole(Last(events))
    requires Last(events).Child? || Last(events).TakeBack? || Last(events).GiveUp? <==> phase == Suspended
    requires phase' == match Last(events)
                       case HandOver(_, _, _) => Suspended
                       case TakeBack(_, _, _) => Owned
                       case _ => phase
    ensures WholeMouse(shell, phase', events)
  {
    hide IsSettled, IsUntracked, SuspendGroup, ResumeGroup;
    SuspendList();
    ResumeList();
    Extended(events);
  }

  lemma {:induction false} WholeRunMouse(shell: Term, start: Start, events: seq<Event>)
    requires CanRun(shell, start, events) && AllWhole(events)
    ensures WholeMouse(shell, RunOf(shell, start, events).phase, events)
  {
    hide After, IsWhole, WholeMouse;
    if events == [] {
      assert WholeMouse(shell, Owned, []) by { WholeAtStart(shell); }
    } else {
      Extended(events);
      WholeRunMouse(shell, start, Front(events));
      var r := RunOf(shell, start, Front(events));
      PhaseStep(r, Last(events));
      WholeIsHandedOver(Last(events));
      WholeStep(shell, r.phase, events, After(r, Last(events)).phase);
    }
  }

  lemma WholeAtStart(shell: Term)
    ensures WholeMouse(shell, Owned, [])
  {
  }

  lemma WholeIsHandedOver(e: Event)
    requires IsWhole(e)
    ensures !e.GiveUp? && (e.HandOver? ==> IsHandedOver(e.rawOff, e.written))
  {
  }

  /** The losses of an uncut run: none when the terminal answered the keyboard query, and otherwise only off the
      alternate screen's stack, once something was handed over. */
  lemma {:induction false} WholeRunKeys(shell: Term, start: Start, events: seq<Event>)
    requires CanRun(shell, start, events) && AllWhole(events) && start.pushed
    ensures LostBy(start, events, Main) == 0
    ensures LostBy(start, events, Alternate) == 0 <==> start.reply || !IsHanded(events)
    ensures OwnBy(start, events) == if start.reply && RunOf(shell, start, events).phase == Owned then 1 else 0
  {
    hide After, WholeMouse, SuspendGroup, ResumeGroup;
    if events != [] {
      ResumeList();
      SuspendList();
      Extended(events);
      WholeRunKeys(shell, start, Front(events));
      WholeRunMouse(shell, start, Front(events));
      var r := RunOf(shell, start, Front(events));
      if r.phase == Owned {
        WholeOwnedScreen(shell, r.phase, Front(events));
      }
      PhaseStep(r, Last(events));
      WholeIsHandedOver(Last(events));
    }
  }

  lemma WholeOwnedScreen(shell: Term, phase: Phase, events: seq<Event>)
    requires WholeMouse(shell, phase, events) && phase == Owned
    ensures ScreenBy(events) == Alternate
  {
  }

  /** The paired modes: both claims hold from the first toggle or hand-over on, and before it exactly when the shell did
      not report the mouse. The rest holds throughout; an unanswered keyboard query costs the shell its entries on the
      alternate screen's stack. */
  lemma WholeRunHolds(shell: Term, start: Start, events: seq<Event>)
    requires CanRun(shell, start, events) && AllWhole(events) && start.pushed
    ensures var r := RunOf(shell, start, events);
            var h, t := r.host, r.host.term;
            && (r.phase == Owned ==>
                  && t.screen == Alternate
                  && ((h.mouseCaptureOn <==> Buttons in t.modes) <==> IsSettled(events) || Buttons !in shell.modes)
                  && (!(AlternateScroll in t.modes && Buttons in t.modes)
                      <==> IsSettled(events) || Buttons !in shell.modes)
                  && (AnyMotion !in t.modes <==> IsUntracked(events) || AnyMotion !in shell.modes))
            && (h.captured ==> (h.stderr == Log <==> r.phase == Owned))
            && t.mainKeys == shell.mainKeys
            && (t.altKeys
                == shell.altKeys + (if start.reply && shell.kitty && r.phase == Owned then [DISAMBIGUATE] else [])
                <==> start.reply || !shell.kitty || shell.altKeys == [] || !IsHanded(events))
  {
    hide RunOf, CanRun, ReportsBy, ScrollsBy, TracksBy, RecordedBy, ScreenBy, OwnBy, LostBy, CapturedBy, LogsBy,
         IsSettled, IsUntracked, IsHanded, AllWhole;
    MouseFollows(shell, start, events);
    WholeRunMouse(shell, start, events);
    StderrFollows(shell, start, events);
    WholeRunLogs(shell, start, events);
    KeysFollow(shell, start, events);
    WholeRunKeys(shell, start, events);
    assert Own(1) == [DISAMBIGUATE] && Own(0) == [];
  }

  lemma {:induction false} WholeRunLogs(shell: Term, start: Start, events: seq<Event>)
    requires CanRun(shell, start, events) && AllWhole(events)
    ensures CapturedBy(events) ==> (LogsBy(events) <==> RunOf(shell, start, events).phase == Owned)
  {
    hide After, CapturedBy, IsHandedOver;
    if events == [] {
      NothingCaptured();
    } else {
      Extended(events);
      CapturedByLast(events);
      WholeRunLogs(shell, start, Front(events));
      PhaseStep(RunOf(shell, start, Front(events)), Last(events));
      WholeIsHandedOver(Last(events));
    }
  }

  // ---------- Exits cut short ----------

  /** The first command of an exit's list at whose writing the mode is off. */
  function ExitAt(m: Mode): nat {
    match m
    case BracketedPaste => 2
    case AlternateScroll => 3
    case SgrCoordinates => 4
    case AnyMotion => 5
    case Drags => 6
    case Buttons => 7
  }

  lemma ExitList()
    ensures ExitGroup() == [LeaveAlternateScreen, Reset(BracketedPaste), Reset(AlternateScroll),
                            Reset(SgrCoordinates), Reset(AnyMotion), Reset(Drags), Reset(Buttons), Pointer(0)]
  {
  }

  lemma ExitHas(all: seq<Command>, written: nat, m: Mode)
    requires all == ExitGroup() || all == ExitGroup() + [ShowCursor]
    ensures var cs := Upto(all, written);
            && (Reset(m) in cs <==> written >= ExitAt(m)) && Set(m) !in cs
            && (LeaveAlternateScreen in cs <==> written >= 1)
  {
    hide ExitGroup, Upto;
    ExitList();
    HasUpto(all, written, Reset(m), ExitAt(m) - 1);
    HasUpto(all, written, LeaveAlternateScreen, 0);
    HasNotUpto(all, written, Set(m));
  }

  /** A list without keyboard commands leaves both stacks as they are. */
  lemma {:induction false} KeysStay(t: Term, cs: seq<Command>)
    requires PushKeyboard !in cs && PopKeyboard !in cs
    ensures var t' := ExecAll(t, cs); t'.mainKeys == t.mainKeys && t'.altKeys == t.altKeys && t'.kitty == t.kitty
    decreases |cs|
  {
    if cs != [] {
      KeysStay(Exec(t, cs[0]), cs[1..]);
      assert cs == [cs[0]] + cs[1..];
    }
  }

  lemma {:induction false} ScreenLeft(t: Term, cs: seq<Command>)
    requires EnterAlternateScreen !in cs
    ensures ExecAll(t, cs).screen == if LeaveAlternateScreen in cs then Main else t.screen
    decreases |cs|
  {
    if cs != [] {
      ScreenLeft(Exec(t, cs[0]), cs[1..]);
      assert cs == [cs[0]] + cs[1..];
    }
  }

  /** A terminal after an exit that wrote `written` commands of its list and, if `popped`, the keyboard pop before it:
      each mode is off from its command on, the screen is the main one from the first, and the pop took an entry off the
      stack of the screen that was up. */
  ghost predicate IsLeft(t: Term, end: Term, popped: bool, written: nat) {
    && (forall m: Mode :: m in end.modes <==> m in t.modes && written < ExitAt(m))
    && end.screen == (if written >= 1 then Main else t.screen) && end.kitty == t.kitty
    && end.mainKeys == (if popped then Popped(t) else t).mainKeys
    && end.altKeys == (if popped then Popped(t) else t).altKeys
  }

  lemma ExitLeaves(t: Term, popped: bool, all: seq<Command>, written: nat, tail: seq<Command>)
    requires all == ExitGroup() || all == ExitGroup() + [ShowCursor]
    requires forall c :: c in tail ==> c == PopTitle || c == ShowCursor
    ensures IsLeft(t, ExecAll(t, (if popped then [PopKeyboard] else []) + Upto(all, written) + tail), popped, written)
  {
    hide ExecAll, Upto, ExitGroup, ExitAt, Exec;
    var pop := if popped then [PopKeyboard] else [];
    var cs := pop + Upto(all, written) + tail;
    forall m: Mode
      ensures m in ExecAll(t, cs).modes <==> m in t.modes && written < ExitAt(m)
    {
      ExitHas(all, written, m);
      OnlyResets(t, cs, m);
    }
    ExitStacks(t, popped, all, written, tail);
  }

  lemma ExitIsExit(all: seq<Command>, written: nat)
    requires all == ExitGroup() || all == ExitGroup() + [ShowCursor]
    ensures var cs := Upto(all, written);
            EnterAlternateScreen !in cs && PushKeyboard !in cs && PopKeyboard !in cs
  {
    hide ExitGroup, Upto;
    ExitList();
    HasNotUpto(all, written, EnterAlternateScreen);
    HasNotUpto(all, written, PushKeyboard);
    HasNotUpto(all, written, PopKeyboard);
  }

  lemma ExitStacks(t: Term, popped: bool, all: seq<Command>, written: nat, tail: seq<Command>)
    requires all == ExitGroup() || all == ExitGroup() + [ShowCursor]
    requires forall c :: c in tail ==> c == PopTitle || c == ShowCursor
    ensures var end := ExecAll(t, (if popped then [PopKeyboard] else []) + Upto(all, written) + tail);
            var keys := if popped then Popped(t) else t;
            && end.screen == (if written >= 1 then Main else t.screen)
            && end.kitty == t.kitty && end.mainKeys == keys.mainKeys && end.altKeys == keys.altKeys
  {
    hide ExecAll, Upto, ExitGroup, Exec;
    ExitIsExit(all, written);
    ExitHas(all, written, Buttons);
    var pop := if popped then [PopKeyboard] else [];
    var rest := Upto(all, written) + tail;
    assert pop + Upto(all, written) + tail == pop + rest;
    ScreenLeft(t, pop + rest);
    ExecConcat(t, pop, rest);
    ExecOne(t, PopKeyboard);
    ExecNone(t);
    KeysStay(ExecAll(t, pop), rest);
    PoppedKitty(t);
  }

  lemma PoppedKitty(t: Term)
    ensures Popped(t).kitty == t.kitty
  {
  }

  /** What a normal exit leaves, wherever it fails: fd 2 is back in any case, and unless raw mode could not be left the
      terminal is as far restored as the writes got. */
  lemma CutExitLeaves(h: Host, rawOff: bool, popped: bool, titled: bool, written: nat)
    ensures var end := Restore(h, rawOff, popped, titled, written);
            && end.stderr == (if h.captured then Original else h.stderr) && end.raw == (h.raw && !rawOff)
            && (end.mouseCaptureOn <==> h.mouseCaptureOn && !(rawOff && written >= 8))
            && (if rawOff then IsLeft(h.term, end.term, popped, written) else end.term == h.term)
  {
    hide ExecAll, ExitGroup, IsLeft;
    ExitList();
    var title := if titled && written >= 8 then [PopTitle] else [];
    var cursor := if written > 8 then [ShowCursor] else [];
    ExitLeaves(h.term, popped, ExitGroup(), written, title + cursor);
    var pop := if popped then [PopKeyboard] else [];
    assert ExitCommands(popped, titled, written) == pop + Upto(ExitGroup(), written) + (title + cursor);
  }

  /** What the panic hook leaves: as the normal exit, but going on when raw mode cannot be left. */
  lemma CutPanicLeaves(h: Host, rawOff: bool, popped: bool, titled: bool, written: nat)
    ensures var end := RestoreOnPanic(h, rawOff, popped, titled, written);
            && end.stderr == (if h.captured then Original else h.stderr) && end.raw == (h.raw && !rawOff)
            && !end.mouseCaptureOn && IsLeft(h.term, end.term, popped, written)
  {
    hide ExecAll, ExitGroup, IsLeft;
    ExitLeaves(h.term, popped, ExitGroup() + [ShowCursor], written, if titled then [PopTitle] else []);
  }

  // ---------- The three exits, whole ----------

  function WholeExit(h: Host): Host {
    Restore(h, true, true, true, |ExitGroup()| + 1)
  }

  function WholePanic(h: Host): Host {
    RestoreOnPanic(h, true, true, true, |ExitGroup()| + 1)
  }

  /** The pointer, the cursor, the title and its stack after all of an exit's commands. */
  function Titled(t: Term): Term {
    Exec(t.(pointer := 0, cursorVisible := true), PopTitle)
  }

  lemma {:induction false} TitlesStay(t: Term, cs: seq<Command>)
    requires PopTitle !in cs && PushTitle !in cs
    ensures var t' := ExecAll(t, cs); t'.titles == t.titles && t'.title == t.title
    decreases |cs|
  {
    if cs != [] {
      TitlesStay(Exec(t, cs[0]), cs[1..]);
      assert cs == [cs[0]] + cs[1..];
    }
  }

  /** The end of all three exits: the pointer's command, then the title pop and the cursor in either order. */
  lemma EndsDo(t: Term, front: seq<Command>)
    requires PopTitle !in front && PushTitle !in front
    ensures var cs, cs' := front + [Pointer(0)] + [PopTitle, ShowCursor], front + [Pointer(0)] + [ShowCursor, PopTitle];
            && ExecAll(t, cs) == ExecAll(t, cs')
            && ExecAll(t, cs).titles == Titled(t).titles && ExecAll(t, cs).title == Titled(t).title
            && ExecAll(t, cs).pointer == 0 && ExecAll(t, cs).cursorVisible
  {
    hide ExecAll;
    var mid := ExecAll(t, front);
    TitlesStay(t, front);
    ExecConcat(t, front, [Pointer(0)]);
    ExecOne(mid, Pointer(0));
    var out := mid.(pointer := 0);
    ExecConcat(t, front + [Pointer(0)], [PopTitle, ShowCursor]);
    ExecConcat(t, front + [Pointer(0)], [ShowCursor, PopTitle]);
    ExecTwo(out, PopTitle, ShowCursor);
    ExecTwo(out, ShowCursor, PopTitle);
  }

  lemma WholeLists()
    ensures var front := [PopKeyboard, LeaveAlternateScreen, Reset(BracketedPaste), Reset(AlternateScroll),
                          Reset(SgrCoordinates), Reset(AnyMotion), Reset(Drags), Reset(Buttons)];
            && ExitCommands(true, true, 9) == front + [Pointer(0)] + [PopTitle, ShowCursor]
            && PanicCommands(true, true, 9) == front + [Pointer(0)] + [ShowCursor, PopTitle]
            && RestoreCommands() == front + [Pointer(0)] + [ShowCursor, PopTitle]
            && |ExitGroup()| == 8
  {
    hide ExitGroup;
    ExitList();
    assert Upto(ExitGroup(), 9) == ExitGroup() && Upto(ExitGroup() + [ShowCursor], 9) == ExitGroup() + [ShowCursor];
  }

  lemma WholeLeaves(t: Term)
    ensures IsLeft(t, ExecAll(t, ExitCommands(true, true, 9)), true, 9)
  {
    hide ExecAll, ExitGroup, IsLeft;
    ExitList();
    ExitLeaves(t, true, ExitGroup(), 9, [PopTitle] + [ShowCursor]);
    assert ExitCommands(true, true, 9) == [PopKeyboard] + Upto(ExitGroup(), 9) + ([PopTitle] + [ShowCursor]);
  }

  /** What each exit, written whole, does to any terminal: the same. */
  lemma ExitsDo(t: Term)
    ensures ExecAll(t, ExitCommands(true, true, 9)) == ExecAll(t, PanicCommands(true, true, 9))
    ensures ExecAll(t, ExitCommands(true, true, 9)) == ExecAll(t, RestoreCommands())
    ensures var end := ExecAll(t, ExitCommands(true, true, 9));
            && end.modes == {} && end.screen == Main && end.pointer == 0 && end.cursorVisible
            && end.kitty == t.kitty && end.mainKeys == Popped(t).mainKeys && end.altKeys == Popped(t).altKeys
            && end.titles == Pop(t.titles)
            && end.title == if t.titles == [] then t.title else t.titles[|t.titles| - 1]
  {
    hide ExecAll, ExitCommands, PanicCommands, RestoreCommands;
    WholeLists();
    EndsDo(t, [PopKeyboard, LeaveAlternateScreen, Reset(BracketedPaste), Reset(AlternateScroll),
               Reset(SgrCoordinates), Reset(AnyMotion), Reset(Drags), Reset(Buttons)]);
    WholeLeaves(t);
    hide Exec;
    assert forall m: Mode :: ExitAt(m) <= 9;
    TitledIs(t);
  }

  lemma TitledIs(t: Term)
    ensures Titled(t).titles == Pop(t.titles)
    ensures Titled(t).title == if t.titles == [] then t.title else t.titles[|t.titles| - 1]
  {
  }

  /** The shell's terminal is as spyc leaves one: nothing switched on, on the main screen. */
  predicate IsNeutral(shell: Term) {
    shell.modes == {} && shell.pointer == 0 && shell.cursorVisible && shell.screen == Main
  }

  /** Entries the shell has lost off a screen's stack once an exit has popped too. */
  function LostAtExit(start: Start, events: seq<Event>, screen: Screen): nat {
    LostBy(start, events, screen) + if Misses(start, events, screen) then 1 else 0
  }

  /** Entries of spyc's own an exit leaves behind. */
  function OwnAtExit(start: Start, events: seq<Event>): nat {
    var own := OwnBy(start, events);
    if ScreenBy(events) == Alternate && own > 0 then own - 1 else own
  }

  /** A stack comes back exactly when as many entries were left on it as taken off, and those it lost were like spyc's
      own: with nothing left behind, when nothing was taken. */
  predicate IsKept(shell: Term, start: Start, events: seq<Event>, screen: Screen) {
    var stack := if screen == Main then shell.mainKeys else shell.altKeys;
    var left := if screen == Main then 0 else OwnAtExit(start, events);
    !shell.kitty || ComesBack(stack, LostAtExit(start, events, screen), left)
  }

  predicate ComesBack(stack: seq<nat>, lost: nat, left: nat) {
    && left == (if lost < |stack| then lost else |stack|)
    && forall i :: |stack| - left <= i < |stack| ==> stack[i] == DISAMBIGUATE
  }

  lemma ComesBackIs(stack: seq<nat>, lost: nat, left: nat)
    ensures Drop(stack, lost) + Own(left) == stack <==> ComesBack(stack, lost, left)
  {
    var kept := Drop(stack, lost);
    if kept + Own(left) == stack {
      assert forall i :: 0 <= i < left ==> stack[|kept| + i] == Own(left)[i];
    }
  }

  /** The shell's title comes back if it was saved. */
  predicate IsTitleKept(shell: Term, start: Start, title: string) {
    start.titled || (shell.titles == [] && title == shell.title)
  }

  /** After any run, cut short or not, the normal exit, the panic hook and the signal handler, written whole, leave the
      same terminal, in cooked mode and with every mode off; it is the terminal spyc found exactly when that one was
      neutral, both keyboard stacks are kept and the title is. */
  lemma ExitsAgree(shell: Term, start: Start, events: seq<Event>)
    requires CanRun(shell, start, events)
    ensures var h := RunOf(shell, start, events).host;
            var end := WholeExit(h);
            && WholePanic(h) == end && SignalTerminate(h).term == end.term
            && !SignalTerminate(h).raw && !end.raw && !end.mouseCaptureOn && end.stderr == Original
            && end.term.modes == {} && end.term.screen == Main
            && (end.term.titles == shell.titles && end.term.title == shell.title
                <==> IsTitleKept(shell, start, h.term.title))
            && (end.term.mainKeys == shell.mainKeys <==> IsKept(shell, start, events, Main))
            && (end.term.altKeys == shell.altKeys <==> IsKept(shell, start, events, Alternate))
            && (end.term == shell
                <==> && IsNeutral(shell) && IsTitleKept(shell, start, h.term.title)
                     && IsKept(shell, start, events, Main) && IsKept(shell, start, events, Alternate))
  {
    hide ExecAll, ExitCommands, PanicCommands, RestoreCommands, ExitGroup, RunOf, LostBy, OwnBy, ScreenBy, CanRun,
         CapturedBy, LogsBy;
    KeysFollow(shell, start, events);
    StderrFollows(shell, start, events);
    var h := RunOf(shell, start, events).host;
    ExitList();
    ExitsDo(h.term);
    PopFinds(h.term, shell, start, events);
    ComesBackIs(shell.mainKeys, LostAtExit(start, events, Main), 0);
    ComesBackIs(shell.altKeys, LostAtExit(start, events, Alternate), OwnAtExit(start, events));
    assert Drop(shell.mainKeys, LostAtExit(start, events, Main)) + Own(0)
        == Drop(shell.mainKeys, LostAtExit(start, events, Main));
  }

  lemma PopFinds(t: Term, shell: Term, start: Start, events: seq<Event>)
    requires StacksFollow(t, shell, start, events)
    ensures Popped(t).kitty == shell.kitty && Popped(t).titles == t.titles
    ensures Popped(t).mainKeys
         == if shell.kitty then Drop(shell.mainKeys, LostAtExit(start, events, Main)) else shell.mainKeys
    ensures Popped(t).altKeys
         == if shell.kitty
            then Drop(shell.altKeys, LostAtExit(start, events, Alternate)) + Own(OwnAtExit(start, events))
            else shell.altKeys
  {
    hide LostBy, OwnBy, ScreenBy;
    PopDrops(shell.mainKeys, LostBy(start, events, Main), 0);
    PopDrops(shell.altKeys, LostBy(start, events, Alternate), OwnBy(start, events));
    PopDrops(shell.altKeys, LostBy(start, events, Alternate) + 1, 0);
  }

  /** After an uncut run: an exit of spyc's own gives back the terminal it found exactly when that one was neutral and
      the keyboard query was answered, or there was no entry to lose; a signal while a child has the terminal takes an
      entry off the stack of whichever screen the child is on. */
  lemma WholeRunExits(shell: Term, start: Start, events: seq<Event>)
    requires CanRun(shell, start, events) && AllWhole(events) && start.pushed && start.titled
    ensures var r := RunOf(shell, start, events);
            var end := SignalTerminate(r.host).term;
            && (r.phase == Owned ==>
                  && end.mainKeys == shell.mainKeys
                  && (end == shell <==> IsNeutral(shell) && (start.reply || !shell.kitty || shell.altKeys == [])))
            && (r.phase == Suspended ==>
                  && (end.mainKeys == shell.mainKeys
                      <==> !shell.kitty || shell.mainKeys == [] || r.host.term.screen == Alternate)
                  && (end.altKeys == shell.altKeys
                      <==> !shell.kitty || shell.altKeys == [] || (start.reply && r.host.term.screen == Main)))
  {
    hide RunOf, LostBy, OwnBy, ScreenBy, CanRun, AllWhole, WholeMouse, IsHanded, IsNeutral, WholeExit, WholePanic,
         SignalTerminate;
    ExitsAgree(shell, start, events);
    KeysFollow(shell, start, events);
    WholeRunKeys(shell, start, events);
    WholeRunMouse(shell, start, events);
    WholePhase(shell, start, events);
    assert Own(0) == [];
  }

  lemma {:induction false} WholePhase(shell: Term, start: Start, events: seq<Event>)
    requires CanRun(shell, start, events) && AllWhole(events)
    ensures RunOf(shell, start, events).phase == Suspended ==> IsHanded(events)
    ensures RunOf(shell, start, events).phase == Owned ==> ScreenBy(events) == Alternate
  {
    hide After, IsHanded;
    WholeRunMouse(shell, start, events);
    if events != [] {
      Extended(events);
      WholePhase(shell, start, Front(events));
      PhaseStep(RunOf(shell, start, Front(events)), Last(events));
    }
  }
}
