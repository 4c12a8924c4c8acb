/** What holds over every run of spyc between `setup_terminal` and an exit, whatever terminal it is started in, whatever
    its children do, and wherever its writes are cut short. */
module TerminalRuns {
  import opened Terminal

  /** spyc draws on the terminal, or has handed it to a child. */
  datatype Phase = Owned | Suspended

  datatype Event =
    | Capture(available: bool)                  // stderr_capture::start
    | Toggle(capture: bool, written: nat)       // set_mouse_capture
    | Draw(cursor: bool, title: string)         // a frame: the cursor and the title, nothing else
    | HandOver(rawOff: bool, popped: bool, written: nat)   // suspend_tui
    | Child(left: Term)                         // the child leaves the terminal like this
    | TakeBack(rawOn: bool, pushed: bool, written: nat)    // resume_tui
    | GiveUp                                    // the pause prompt fails, so resume_tui is never called

  datatype Run = Run(host: Host, phase: Phase)

  /** A child may leave any mode, screen, pointer, cursor and title; it leaves the stacks as it found them. */
  predicate IsBalanced(before: Term, after: Term) {
    && after.kitty == before.kitty && after.mainKeys == before.mainKeys && after.altKeys == before.altKeys
    && after.titles == before.titles
  }

  predicate CanHappen(r: Run, e: Event) {
    match e
    case Child(left) => r.phase == Suspended && IsBalanced(r.host.term, left)
    case TakeBack(_, _, _) => r.phase == Suspended
    case GiveUp => r.phase == Suspended
    case _ => r.phase == Owned
  }

  /** What the event writes to the terminal. */
  function Written(h: Host, e: Event): seq<Command> {
    match e
    case Toggle(capture, written) => Upto(MouseModeCommands(capture), written)
    case HandOver(rawOff, popped, written) => if rawOff then SuspendCommands(popped, written) else []
    case TakeBack(rawOn, pushed, written) =>
      if rawOn then ResumeCommands(h.keyboardSupported && pushed, written) else []
    case _ => []
  }

  /** A hand-over or a take-back that fails leaves spyc drawing: its caller shows the error and carries on. */
  function After(r: Run, e: Event): Run {
    match e
    case Capture(available) => r.(host := StartCapture(r.host, available))
    case Toggle(capture, written) => r.(host := SetMouseCapture(r.host, capture, written))
    case Draw(cursor, title) => r.(host := r.host.(term := r.host.term.(cursorVisible := cursor, title := title)))
    case HandOver(rawOff, popped, written) =>
      Run(Suspend(r.host, rawOff, popped, written), if IsHandedOver(rawOff, written) then Suspended else Owned)
    case Child(left) => r.(host := r.host.(term := left))
    case TakeBack(rawOn, pushed, written) => Run(Resume(r.host, rawOn, pushed, written), Owned)
    case GiveUp => r.(phase := Owned)
  }

  function Begin(shell: Term, start: Start): Run {
    Run(Setup(Host(shell, false, false, false, false, Original), start), Owned)
  }

  /** The run after some events, from any terminal. */
  function RunOf(shell: Term, start: Start, events: seq<Event>): Run {
    if events == [] then Begin(shell, start)
    else After(RunOf(shell, start, Front(events)), Last(events))
  }

  ghost predicate CanRun(shell: Term, start: Start, events: seq<Event>) {
    events == []
    || (CanRun(shell, start, Front(events)) && CanHappen(RunOf(shell, start, Front(events)), Last(events)))
  }

  function Front(events: seq<Event>): (front: seq<Event>)
    requires events != []
    ensures |front| < |events|
  {
    events[..|events| - 1]
  }

  function Last(events: seq<Event>): Event
    requires events != []
  {
    events[|events| - 1]
  }

  // ---------- What the events say ----------

  /** The screen: the alternate one, from the last command that enters it on, or what the last child left. */
  function ScreenBy(events: seq<Event>): Screen {
    if events == [] then Alternate
    else
      match Last(events)
      case Child(left) => left.screen
      case TakeBack(rawOn, _, written) => if rawOn && written >= 1 then Alternate else ScreenBy(Front(events))
      case _ => ScreenBy(Front(events))
  }

  /** Whether mode 1000 is on after an event. */
  predicate Reports(before: bool, e: Event) {
    match e
    case Toggle(capture, written) => if capture then written >= 2 || before else written < 4 && before
    case HandOver(rawOff, _, written) => !(rawOff && written >= 8) && before
    case Child(left) => Buttons in left.modes
    case TakeBack(rawOn, _, written) => !(rawOn && written >= 8) && before
    case _ => before
  }

  predicate ReportsBy(shell: Term, events: seq<Event>) {
    if events == [] then Buttons in shell.modes else Reports(ReportsBy(shell, Front(events)), Last(events))
  }

  /** Whether mode 1007 is on after an event. */
  predicate Scrolls(before: bool, e: Event) {
    match e
    case Toggle(capture, written) => if capture then written == 0 && before else written >= 5 || before
    case HandOver(rawOff, _, written) => !(rawOff && written >= 4) && before
    case Child(left) => AlternateScroll in left.modes
    case TakeBack(rawOn, _, written) => (rawOn && written >= 9) || before
    case _ => before
  }

  predicate ScrollsBy(events: seq<Event>) {
    if events == [] then true else Scrolls(ScrollsBy(Front(events)), Last(events))
  }

  /** Whether mode 1003 is on after an event. */
  predicate Tracks(before: bool, e: Event) {
    match e
    case Toggle(capture, written) => (capture || written < 2) && before
    case HandOver(rawOff, _, written) => !(rawOff && written >= 6) && before
    case Child(left) => AnyMotion in left.modes
    case TakeBack(rawOn, _, written) => !(rawOn && written >= 6) && before
    case _ => before
  }

  predicate TracksBy(shell: Term, events: seq<Event>) {
    if events == [] then AnyMotion in shell.modes else Tracks(TracksBy(shell, Front(events)), Last(events))
  }

  /** What `MOUSE_CAPTURE_ON` holds after an event: a toggle moves it only when written whole. */
  predicate Records(before: bool, e: Event) {
    match e
    case Toggle(capture, written) => if written >= |MouseModeCommands(capture)| then capture else before
    case HandOver(rawOff, _, written) => !(rawOff && written >= 8) && before
    case _ => before
  }

  predicate RecordedBy(events: seq<Event>) {
    if events == [] then false else Records(RecordedBy(Front(events)), Last(events))
  }

  predicate CapturedBy(events: seq<Event>) {
    exists i :: 0 <= i < |events| && events[i] == Capture(true)
  }

  /** Whether fd 2 is the log: since capture first started, or since the last take-back, nothing was handed over. */
  predicate LogsBy(events: seq<Event>) {
    if events == [] then false
    else
      var front := Front(events);
      match Last(events)
      case Capture(available) => if CapturedBy(front) then LogsBy(front) else available
      case HandOver(_, _, _) => false
      case TakeBack(_, _, _) => CapturedBy(front)
      case _ => LogsBy(front)
  }

  /** How many entries of spyc's own are on the alternate screen's keyboard stack. */
  function OwnBy(start: Start, events: seq<Event>): nat {
    if events == [] then if start.reply && start.pushed then 1 else 0
    else
      var before := OwnBy(start, Front(events));
      match Last(events)
      case HandOver(rawOff, popped, _) =>
        if rawOff && popped && ScreenBy(Front(events)) == Alternate && before > 0 then before - 1 else before
      case TakeBack(rawOn, pushed, written) =>
        before + if start.reply && rawOn && pushed && written >= 9 then 1 else 0
      case _ => before
  }

  /** How many entries the terminal had before spyc have been popped off a screen's stack: one for each pop made with
      no entry of spyc's own there. */
  function LostBy(start: Start, events: seq<Event>, screen: Screen): nat {
    if events == [] then 0
    else
      var front := Front(events);
      LostBy(start, front, screen) + (match Last(events)
                                      case HandOver(rawOff, popped, _) =>
                                        if rawOff && popped && Misses(start, front, screen) then 1 else 0
                                      case _ => 0)
  }

  /** A pop now would take an entry of the shell's off this screen's stack. */
  predicate Misses(start: Start, events: seq<Event>, screen: Screen) {
    ScreenBy(events) == screen && (screen == Main || OwnBy(start, events) == 0)
  }

  /** A stack without its top `n` entries. */
  function Drop<T>(stack: seq<T>, n: nat): seq<T> {
    if n >= |stack| then [] else stack[..|stack| - n]
  }

  // ---------- What command lists do ----------

  /** A list that never sets a mode leaves it on exactly when it was on and the list does not reset it. */
  lemma {:induction false} OnlyResets(t: Term, cs: seq<Command>, m: Mode)
    requires Set(m) !in cs
    ensures m in ExecAll(t, cs).modes <==> m in t.modes && Reset(m) !in cs
    decreases |cs|
  {
    if cs != [] {
      ModeStep(t, cs[0], m);
      OnlyResets(Exec(t, cs[0]), cs[1..], m);
      assert cs == [cs[0]] + cs[1..];
    }
  }

  lemma {:induction false} OnlySets(t: Term, cs: seq<Command>, m: Mode)
    requires Reset(m) !in cs
    ensures m in ExecAll(t, cs).modes <==> m in t.modes || Set(m) in cs
    decreases |cs|
  {
    if cs != [] {
      ModeStep(t, cs[0], m);
      OnlySets(Exec(t, cs[0]), cs[1..], m);
      assert cs == [cs[0]] + cs[1..];
    }
  }

  lemma ModeStep(t: Term, c: Command, m: Mode)
    ensures m in Exec(t, c).modes <==> c == Set(m) || (c != Reset(m) && m in t.modes)
  {
  }

  /** Neither the screen nor a stack is touched. */
  predicate IsQuiet(c: Command) {
    c.Set? || c.Reset? || c.Pointer? || c.ShowCursor? || c.HideCursor? || c.ClearAll? || c.MoveHome?
  }

  predicate SameStacks(a: Term, b: Term) {
    IsBalanced(a, b) && a.screen == b.screen
  }

  lemma {:induction false} QuietKeepsStacks(t: Term, cs: seq<Command>)
    requires forall i :: 0 <= i < |cs| ==> IsQuiet(cs[i])
    ensures SameStacks(t, ExecAll(t, cs))
    decreases |cs|
  {
    if cs != [] {
      QuietKeepsStacks(Exec(t, cs[0]), cs[1..]);
    }
  }

  // ---------- The modes ----------

  lemma SuspendList()
    ensures SuspendGroup() == [ClearAll, MoveHome, Reset(BracketedPaste), Reset(AlternateScroll),
                               Reset(SgrCoordinates), Reset(AnyMotion), Reset(Drags), Reset(Buttons), ShowCursor]
  {
  }

  lemma ResumeList()
    ensures ResumeGroup()
         == [EnterAlternateScreen, ClearAll, MoveHome, Set(BracketedPaste), Reset(SgrCoordinates), Reset(AnyMotion),
             Reset(Drags), Reset(Buttons), Set(AlternateScroll)]
  {
  }

  lemma ToggleModes(t: Term, capture: bool, written: nat)
    ensures var modes := ExecAll(t, Upto(MouseModeCommands(capture), written)).modes;
            && (Buttons in modes <==> if capture then written >= 2 || Buttons in t.modes
                                      else written < 4 && Buttons in t.modes)
            && (AlternateScroll in modes <==> if capture then written == 0 && AlternateScroll in t.modes
                                              else written >= 5 || AlternateScroll in t.modes)
            && (AnyMotion in modes <==> (capture || written < 2) && AnyMotion in t.modes)
  {
    hide ExecAll;
    var cs := Upto(MouseModeCommands(capture), written);
    if capture {
      assert MouseModeCommands(true) == [Reset(AlternateScroll), Set(Buttons), Set(Drags), Set(SgrCoordinates)];
      assert Reset(AlternateScroll) in cs <==> written >= 1 by {
        assert written >= 1 ==> cs[0] == Reset(AlternateScroll);
      }
      assert Set(Buttons) in cs <==> written >= 2 by { assert written >= 2 ==> cs[1] == Set(Buttons); }
      OnlySets(t, cs, Buttons);
      OnlyResets(t, cs, AlternateScroll);
      OnlyResets(t, cs, AnyMotion);
    } else {
      assert MouseModeCommands(false)
          == [Reset(SgrCoordinates), Reset(AnyMotion), Reset(Drags), Reset(Buttons), Set(AlternateScroll)];
      assert Reset(AnyMotion) in cs <==> written >= 2 by { assert written >= 2 ==> cs[1] == Reset(AnyMotion); }
      assert Reset(Buttons) in cs <==> written >= 4 by { assert written >= 4 ==> cs[3] == Reset(Buttons); }
      assert Set(AlternateScroll) in cs <==> written >= 5 by { assert written >= 5 ==> cs[4] == Set(AlternateScroll); }
      OnlyResets(t, cs, Buttons);
      OnlySets(t, cs, AlternateScroll);
      OnlyResets(t, cs, AnyMotion);
    }
  }

  /** A command that stands once in a list is in as much of it as has been written. */
  lemma HasUpto(cs: seq<Command>, written: nat, c: Command, at: nat)
    requires at < |cs| && cs[at] == c && forall i :: 0 <= i < |cs| && i != at ==> cs[i] != c
    ensures c in Upto(cs, written) <==> written > at
  {
    assert written > at ==> Upto(cs, written)[at] == c;
  }

  lemma HasNotUpto(cs: seq<Command>, written: nat, c: Command)
    requires c !in cs
    ensures c !in Upto(cs, written)
  {
  }

  lemma SuspendHas(popped: bool, written: nat)
    ensures var cs := SuspendCommands(popped, written);
            && (Reset(AlternateScroll) in cs <==> written >= 4) && Set(AlternateScroll) !in cs
            && (Reset(AnyMotion) in cs <==> written >= 6) && Set(AnyMotion) !in cs
            && (Reset(Buttons) in cs <==> written >= 8) && Set(Buttons) !in cs
  {
    hide SuspendGroup, Upto;
    SuspendList();
    var all := SuspendGroup();
    HasUpto(all, written, Reset(AlternateScroll), 3);
    HasUpto(all, written, Reset(AnyMotion), 5);
    HasUpto(all, written, Reset(Buttons), 7);
    HasNotUpto(all, written, Set(AlternateScroll));
    HasNotUpto(all, written, Set(AnyMotion));
    HasNotUpto(all, written, Set(Buttons));
  }

  lemma SuspendModes(t: Term, popped: bool, written: nat)
    ensures var modes := ExecAll(t, SuspendCommands(popped, written)).modes;
            && (Buttons in modes <==> written < 8 && Buttons in t.modes)
            && (AlternateScroll in modes <==> written < 4 && AlternateScroll in t.modes)
            && (AnyMotion in modes <==> written < 6 && AnyMotion in t.modes)
  {
    hide ExecAll, SuspendCommands;
    SuspendHas(popped, written);
    var cs := SuspendCommands(popped, written);
    OnlyResets(t, cs, Buttons);
    OnlyResets(t, cs, AlternateScroll);
    OnlyResets(t, cs, AnyMotion);
  }

  lemma ResumeHas(push: bool, written: nat)
    ensures var cs := ResumeCommands(push, written);
            && (Reset(AnyMotion) in cs <==> written >= 6) && Set(AnyMotion) !in cs
            && (Reset(Buttons) in cs <==> written >= 8) && Set(Buttons) !in cs
            && (Set(AlternateScroll) in cs <==> written >= 9) && Reset(AlternateScroll) !in cs
  {
    hide ResumeGroup, Upto;
    ResumeList();
    var all := ResumeGroup();
    HasUpto(all, written, Reset(AnyMotion), 5);
    HasUpto(all, written, Reset(Buttons), 7);
    HasUpto(all, written, Set(AlternateScroll), 8);
    HasNotUpto(all, written, Set(AnyMotion));
    HasNotUpto(all, written, Set(Buttons));
    HasNotUpto(all, written, Reset(AlternateScroll));
  }

  lemma ResumeModes(t: Term, push: bool, written: nat)
    ensures var modes := ExecAll(t, ResumeCommands(push, written)).modes;
            && (Buttons in modes <==> written < 8 && Buttons in t.modes)
            && (AlternateScroll in modes <==> written >= 9 || AlternateScroll in t.modes)
            && (AnyMotion in modes <==> written < 6 && AnyMotion in t.modes)
  {
    hide ExecAll, ResumeCommands;
    ResumeHas(push, written);
    var cs := ResumeCommands(push, written);
    OnlyResets(t, cs, Buttons);
    OnlySets(t, cs, AlternateScroll);
    OnlyResets(t, cs, AnyMotion);
  }

  lemma SetupModes(t: Term, start: Start)
    ensures var modes := ExecAll(t, SetupCommands(start)).modes;
            && (Buttons in modes <==> Buttons in t.modes)
            && AlternateScroll in modes
            && (AnyMotion in modes <==> AnyMotion in t.modes)
  {
    hide ExecAll;
    var cs := SetupCommands(start);
    assert cs[4] == Set(AlternateScroll);
    OnlySets(t, cs, Buttons);
    OnlySets(t, cs, AlternateScroll);
    OnlySets(t, cs, AnyMotion);
  }

  lemma MouseStep(r: Run, e: Event)
    ensures var t, t' := r.host.term, After(r, e).host.term;
            && (Buttons in t'.modes <==> Reports(Buttons in t.modes, e))
            && (AlternateScroll in t'.modes <==> Scrolls(AlternateScroll in t.modes, e))
            && (AnyMotion in t'.modes <==> Tracks(AnyMotion in t.modes, e))
  {
    hide ExecAll, SuspendCommands, ResumeCommands, MouseModeCommands;
    match e {
      case Toggle(capture, written) => ToggleModes(r.host.term, capture, written);
      case HandOver(_, popped, written) => SuspendModes(r.host.term, popped, written);
      case TakeBack(_, pushed, written) => ResumeModes(r.host.term, r.host.keyboardSupported && pushed, written);
      case _ =>
    }
  }

  lemma RecordStep(r: Run, e: Event)
    ensures After(r, e).host.mouseCaptureOn <==> Records(r.host.mouseCaptureOn, e)
  {
    hide ExecAll, SuspendCommands, ResumeCommands;
    SuspendList();
  }

  /** The three mouse modes and the recorded state, at any point of any run, from the events alone. */
  lemma {:induction false} MouseFollows(shell: Term, start: Start, events: seq<Event>)
    ensures var h := RunOf(shell, start, events).host;
            && (Buttons in h.term.modes <==> ReportsBy(shell, events))
            && (AlternateScroll in h.term.modes <==> ScrollsBy(events))
            && (AnyMotion in h.term.modes <==> TracksBy(shell, events))
            && (h.mouseCaptureOn <==> RecordedBy(events))
  {
    hide Setup, After, Reports, Scrolls, Tracks, Records;
    if events == [] {
      SetupIs(shell, start);
      SetupModes(shell, start);
    } else {
      var front := Front(events);
      MouseFollows(shell, start, front);
      MouseStep(RunOf(shell, start, front), Last(events));
      RecordStep(RunOf(shell, start, front), Last(events));
    }
  }

  lemma SetupIs(shell: Term, start: Start)
    ensures Begin(shell, start).host
         == Host(ExecAll(shell, SetupCommands(start)), true, false, start.reply, false, Original)
  {
  }

  // ---------- fd 2 ----------

  lemma CapturedByLast(events: seq<Event>)
    requires events != []
    ensures CapturedBy(events) <==> CapturedBy(Front(events)) || Last(events) == Capture(true)
  {
    assert events == Front(events) + [Last(events)];
  }

  /** fd 2 is the log exactly when, capture once started, nothing was handed over since the last take-back: a
      hand-over that fails leaves it the original while spyc draws. */
  lemma {:induction false} StderrFollows(shell: Term, start: Start, events: seq<Event>)
    ensures var h := RunOf(shell, start, events).host;
            && (h.captured <==> CapturedBy(events))
            && (h.stderr == Log <==> LogsBy(events))
            && (LogsBy(events) ==> CapturedBy(events))
  {
    hide Setup, After, CapturedBy;
    if events == [] {
      SetupIs(shell, start);
      NothingCaptured();
    } else {
      StderrFollows(shell, start, Front(events));
      CapturedByLast(events);
      StderrStep(RunOf(shell, start, Front(events)), Last(events));
    }
  }

  lemma StderrStep(r: Run, e: Event)
    ensures var h, h' := r.host, After(r, e).host;
            && (h'.captured <==> h.captured || e == Capture(true))
            && h'.stderr == match e
                            case Capture(available) => if h.captured || !available then h.stderr else Log
                            case HandOver(_, _, _) => if h.captured then Original else h.stderr
                            case TakeBack(_, _, _) => if h.captured then Log else h.stderr
                            case _ => h.stderr
  {
    hide ExecAll, SuspendCommands, ResumeCommands, MouseModeCommands;
  }

  lemma NothingCaptured()
    ensures !CapturedBy([])
  {
  }

  // ---------- The screen and the stacks ----------

  function Popped(t: Term): Term {
    Exec(t, PopKeyboard)
  }

  function PushedIf(t: Term, keyboard: bool): Term {
    if keyboard then Exec(t, PushKeyboard) else t
  }

  lemma SuspendStacks(t: Term, popped: bool, written: nat)
    ensures SameStacks(if popped then Popped(t) else t, ExecAll(t, SuspendCommands(popped, written)))
  {
    hide ExecAll, SuspendGroup, Exec, Upto;
    SuspendList();
    var pop := if popped then [PopKeyboard] else [];
    var group := Upto(SuspendGroup(), written);
    ExecConcat(t, pop, group);
    ExecOne(t, PopKeyboard);
    ExecNone(t);
    QuietKeepsStacks(ExecAll(t, pop), group);
  }

  lemma ResumeHead(t: Term, n: nat)
    ensures SameStacks(if n == 0 then t else t.(screen := Alternate), ExecAll(t, Upto(ResumeGroup(), n)))
  {
    hide ExecAll, ResumeGroup, Upto;
    ResumeList();
    var cs := Upto(ResumeGroup(), n);
    if n == 0 {
      QuietKeepsStacks(t, []);
    } else {
      EnterDoes(t);
      ExecConcat(t, [EnterAlternateScreen], cs[1..]);
      assert [EnterAlternateScreen] + cs[1..] == cs;
      assert forall i :: 1 <= i < |cs| ==> IsQuiet(cs[i]);
      QuietKeepsStacks(t.(screen := Alternate), cs[1..]);
    }
  }

  lemma ResumeStacks(t: Term, push: bool, written: nat)
    ensures SameStacks(if written == 0 then t else PushedIf(t.(screen := Alternate), push && written >= 9),
                       ExecAll(t, ResumeCommands(push, written)))
  {
    hide ResumeGroup, ExecAll, Exec, Upto;
    ResumeList();
    var head := Upto(ResumeGroup(), written);
    var key := if push && written >= 9 then [PushKeyboard] else [];
    var cursor := if written > 9 then [HideCursor] else [];
    ExecConcat(t, head + key, cursor);
    ExecConcat(t, head, key);
    ResumeHead(t, written);
    var drawn := ExecAll(t, head);
    ExecOne(drawn, PushKeyboard);
    ExecNone(drawn);
    if written > 0 {
      PushKeepsSame(t.(screen := Alternate), drawn);
    }
    QuietKeepsStacks(ExecAll(drawn, key), cursor);
  }

  lemma PushKeepsSame(a: Term, b: Term)
    requires SameStacks(a, b)
    ensures SameStacks(Exec(a, PushKeyboard), Exec(b, PushKeyboard))
    ensures Exec(b, PushKeyboard).title == b.title && Exec(a, PushKeyboard).titles == a.titles
  {
  }

  lemma ExecOne(t: Term, c: Command)
    ensures ExecAll(t, [c]) == Exec(t, c)
  {
  }

  lemma ExecNone(t: Term)
    ensures ExecAll(t, []) == t
  {
  }

  lemma ExecTwo(t: Term, c: Command, d: Command)
    ensures ExecAll(t, [c, d]) == Exec(Exec(t, c), d)
  {
    ExecConcat(t, [c], [d]);
    assert [c] + [d] == [c, d];
  }

  lemma SetupHead(t: Term)
    ensures var drawn := ExecAll(t, SetupGroup());
            SameStacks(t.(screen := Alternate), drawn) && drawn.title == t.title
  {
    hide ExecAll;
    var middle := [ClearAll, MoveHome, Set(BracketedPaste), Set(AlternateScroll), Pointer(1)];
    EnterDoes(t);
    ExecConcat(t, [EnterAlternateScreen], middle);
    QuietKeepsStacks(t.(screen := Alternate), middle);
    TitleStays(t.(screen := Alternate), middle);
    assert [EnterAlternateScreen] + middle == SetupGroup();
  }

  lemma SetupStacks(t: Term, start: Start)
    ensures var pushed := PushedIf(t.(screen := Alternate), start.reply && start.pushed);
            SameStacks(pushed.(titles := t.titles + (if start.titled then [t.title] else [])),
                       ExecAll(t, SetupCommands(start)))
  {
    hide ExecAll, Exec, SetupGroup;
    SetupHead(t);
    var drawn := ExecAll(t, SetupGroup());
    var push := if start.reply && start.pushed then [PushKeyboard] else [];
    var title := if start.titled then [PushTitle] else [];
    ExecConcat(t, SetupGroup() + push, title);
    ExecConcat(t, SetupGroup(), push);
    ExecOne(drawn, PushKeyboard);
    ExecNone(drawn);
    PushKeepsSame(t.(screen := Alternate), drawn);
    var ready := ExecAll(drawn, push);
    ExecOne(ready, PushTitle);
    ExecNone(ready);
    TitlePushed(ready);
  }

  lemma EnterDoes(t: Term)
    ensures ExecAll(t, [EnterAlternateScreen]) == t.(screen := Alternate)
  {
  }

  lemma TitlePushed(t: Term)
    ensures Exec(t, PushTitle) == t.(titles := t.titles + [t.title])
  {
  }

  lemma {:induction false} TitleStays(t: Term, cs: seq<Command>)
    requires PopTitle !in cs
    ensures ExecAll(t, cs).title == t.title
    decreases |cs|
  {
    if cs != [] {
      TitleStays(Exec(t, cs[0]), cs[1..]);
    }
  }

  function Own(n: nat): (own: seq<nat>)
    ensures |own| == n
  {
    seq(n, _ => DISAMBIGUATE)
  }

  /** Both keyboard stacks at any point of any run: below spyc's own entries, each is the shell's without what pops took
      off it. The title stack has the shell's title on top, if that could be saved. */
  ghost predicate StacksFollow(t: Term, shell: Term, start: Start, events: seq<Event>) {
    && t.screen == ScreenBy(events) && t.kitty == shell.kitty
    && t.titles == shell.titles + (if start.titled then [shell.title] else [])
    && (if shell.kitty
        then && t.mainKeys == Drop(shell.mainKeys, LostBy(start, events, Main))
             && t.altKeys == Drop(shell.altKeys, LostBy(start, events, Alternate)) + Own(OwnBy(start, events))
        else t.mainKeys == shell.mainKeys && t.altKeys == shell.altKeys)
  }

  lemma {:induction false} KeysFollow(shell: Term, start: Start, events: seq<Event>)
    requires CanRun(shell, start, events)
    ensures var h := RunOf(shell, start, events).host;
            h.keyboardSupported == start.reply && StacksFollow(h.term, shell, start, events)
  {
    hide ExecAll, SuspendCommands, ResumeCommands, Setup, Exec, After, StacksFollow;
    if events == [] {
      SetupIs(shell, start);
      SetupStacks(shell, start);
      PushDoes(shell.(screen := Alternate));
      StacksAtSetup(RunOf(shell, start, events).host.term, shell, start);
    } else {
      var front := Front(events);
      KeysFollow(shell, start, front);
      var r := RunOf(shell, start, front);
      StacksStep(r, Last(events));
      StackedFollows(r.host.term, shell, start, events);
      SameFollows(Stacked(r.host.term, start.reply, Last(events)), After(r, Last(events)).host.term, shell, start,
                  events);
    }
  }

  lemma StacksAtSetup(t: Term, shell: Term, start: Start)
    requires SameStacks(PushedIf(shell.(screen := Alternate), start.reply && start.pushed)
                          .(titles := shell.titles + (if start.titled then [shell.title] else [])), t)
    ensures StacksFollow(t, shell, start, [])
  {
  }

  lemma SameFollows(a: Term, b: Term, shell: Term, start: Start, events: seq<Event>)
    requires SameStacks(a, b) && StacksFollow(a, shell, start, events)
    ensures StacksFollow(b, shell, start, events)
  {
    hide LostBy, OwnBy, ScreenBy;
  }

  /** What an event does to the screen and the stacks. */
  function Stacked(t: Term, keyboard: bool, e: Event): Term {
    match e
    case HandOver(rawOff, popped, _) => if rawOff && popped then Popped(t) else t
    case Child(left) => left
    case TakeBack(rawOn, pushed, written) =>
      if rawOn && written >= 1 then PushedIf(t.(screen := Alternate), keyboard && pushed && written >= 9) else t
    case _ => t
  }

  lemma StacksStep(r: Run, e: Event)
    ensures SameStacks(Stacked(r.host.term, r.host.keyboardSupported, e), After(r, e).host.term)
    ensures After(r, e).host.keyboardSupported == r.host.keyboardSupported
  {
    hide ExecAll, SuspendCommands, ResumeCommands, MouseModeCommands, Exec;
    match e {
      case Toggle(capture, written) => ToggleIsQuiet(r.host.term, capture, written);
      case HandOver(_, popped, written) => SuspendStacks(r.host.term, popped, written);
      case TakeBack(_, pushed, written) => ResumeStacks(r.host.term, r.host.keyboardSupported && pushed, written);
      case _ =>
    }
  }

  lemma ToggleIsQuiet(t: Term, capture: bool, written: nat)
    ensures SameStacks(t, ExecAll(t, Upto(MouseModeCommands(capture), written)))
  {
    hide ExecAll;
    QuietKeepsStacks(t, Upto(MouseModeCommands(capture), written));
  }

  lemma PhaseStep(r: Run, e: Event)
    ensures After(r, e).phase == match e
                                 case HandOver(rawOff, _, written) =>
                                   if IsHandedOver(rawOff, written) then Suspended else Owned
                                 case TakeBack(_, _, _) => Owned
                                 case GiveUp => Owned
                                 case _ => r.phase
  {
    hide ExecAll;
  }

  lemma StackedFollows(t: Term, shell: Term, start: Start, events: seq<Event>)
    requires events != [] && StacksFollow(t, shell, start, Front(events))
    requires Last(events).Child? ==> IsBalanced(t, Last(events).left)
    ensures StacksFollow(Stacked(t, start.reply, Last(events)), shell, start, events)
  {
    hide Exec;
    match Last(events) {
      case HandOver(rawOff, popped, _) =>
        if rawOff && popped {
          PopFollows(t, shell, start, events);
        }
      case TakeBack(_, _, _) =>
        PushDoes(t.(screen := Alternate));
        OneMoreOwn(OwnBy(start, Front(events)), Drop(shell.altKeys, LostBy(start, Front(events), Alternate)));
      case _ =>
    }
  }

  lemma OneMoreOwn(n: nat, below: seq<nat>)
    ensures below + Own(n) + [DISAMBIGUATE] == below + Own(n + 1)
  {
  }

  lemma PushDoes(t: Term)
    requires t.screen == Alternate
    ensures Exec(t, PushKeyboard) == if t.kitty then t.(altKeys := t.altKeys + [DISAMBIGUATE]) else t
  {
  }

  lemma PopFollows(t: Term, shell: Term, start: Start, events: seq<Event>)
    requires events != [] && Last(events).HandOver? && Last(events).rawOff && Last(events).popped
    requires StacksFollow(t, shell, start, Front(events))
    ensures StacksFollow(Popped(t), shell, start, events)
  {
    var front := Front(events);
    hide OwnBy, LostBy, ScreenBy;
    LostStep(start, events);
    PopDrops(shell.mainKeys, LostBy(start, front, Main), 0);
    PopDrops(shell.altKeys, LostBy(start, front, Alternate), OwnBy(start, front));
  }

  lemma LostStep(start: Start, events: seq<Event>)
    requires events != [] && Last(events).HandOver? && Last(events).rawOff && Last(events).popped
    ensures forall s :: LostBy(start, events, s) == LostBy(start, Front(events), s)
                                                  + if Misses(start, Front(events), s) then 1 else 0
    ensures var own := OwnBy(start, Front(events));
            OwnBy(start, events) == if ScreenBy(Front(events)) == Alternate && own > 0 then own - 1 else own
    ensures ScreenBy(events) == ScreenBy(Front(events))
  {
  }

  lemma PopDrops(stack: seq<nat>, n: nat, own: nat)
    ensures Pop(Drop(stack, n) + Own(own))
         == if own == 0 then Drop(stack, n + 1) else Drop(stack, n) + Own(own - 1)
    ensures Drop(stack, n) + Own(0) == Drop(stack, n)
  {
    assert Drop(stack, n) + Own(0) == Drop(stack, n);
    if own > 0 {
      assert Own(own) == Own(own - 1) + [DISAMBIGUATE];
    }
  }
}
