/** The host terminal as spyc drives it (`src/terminal.rs`), with fd 2 (`src/stderr_capture.rs`). */
module Terminal {
  // ---------- A terminal ----------

  datatype Mode =
    | BracketedPaste    // 2004
    | AlternateScroll   // 1007
    | Buttons           // 1000
    | Drags             // 1002
    | AnyMotion         // 1003
    | SgrCoordinates    // 1006

  datatype Screen = Main | Alternate

  datatype Command =
    | Set(mode: Mode)
    | Reset(mode: Mode)
    | EnterAlternateScreen
    | LeaveAlternateScreen
    | PushKeyboard
    | PopKeyboard
    | PushTitle
    | PopTitle
    | Pointer(pointerMode: nat)
    | ShowCursor
    | HideCursor
    | ClearAll
    | MoveHome

  /** What a terminal remembers: one keyboard-flag stack per screen, and whether it has such stacks at all. */
  datatype Term = Term(
    modes: set<Mode>,
    screen: Screen,
    kitty: bool,
    mainKeys: seq<nat>,
    altKeys: seq<nat>,
    pointer: nat,
    cursorVisible: bool,
    title: string,
    titles: seq<string>)

  const DISAMBIGUATE: nat := 1

  function Pop<T>(stack: seq<T>): seq<T> {
    if stack == [] then [] else stack[..|stack| - 1]
  }

  function Exec(t: Term, c: Command): Term {
    match c
    case Set(mode) => t.(modes := t.modes + {mode})
    case Reset(mode) => t.(modes := t.modes - {mode})
    case EnterAlternateScreen => t.(screen := Alternate)
    case LeaveAlternateScreen => t.(screen := Main)
    case PushKeyboard =>
      if !t.kitty then t
      else if t.screen == Main then t.(mainKeys := t.mainKeys + [DISAMBIGUATE])
      else t.(altKeys := t.altKeys + [DISAMBIGUATE])
    case PopKeyboard =>
      if !t.kitty then t
      else if t.screen == Main then t.(mainKeys := Pop(t.mainKeys))
      else t.(altKeys := Pop(t.altKeys))
    case PushTitle => t.(titles := t.titles + [t.title])
    case PopTitle =>
      if t.titles == [] then t else t.(title := t.titles[|t.titles| - 1], titles := Pop(t.titles))
    case Pointer(mode) => t.(pointer := mode)
    case ShowCursor => t.(cursorVisible := true)
    case HideCursor => t.(cursorVisible := false)
    case ClearAll => t
    case MoveHome => t
  }

  function ExecAll(t: Term, cs: seq<Command>): Term
    decreases |cs|
  {
    if cs == [] then t else ExecAll(Exec(t, cs[0]), cs[1..])
  }

  lemma {:induction false} ExecConcat(t: Term, a: seq<Command>, b: seq<Command>)
    ensures ExecAll(t, a + b) == ExecAll(ExecAll(t, a), b)
    decreases |a|
  {
    if a == [] {
      assert a + b == b;
    } else {
      assert (a + b)[1..] == a[1..] + b;
      ExecConcat(Exec(t, a[0]), a[1..], b);
    }
  }

  // ---------- The sequences ----------

  function EnableWheelReporting(): seq<Command> {
    [Set(Buttons), Set(Drags), Set(SgrCoordinates)]
  }

  function DisableWheelReporting(): seq<Command> {
    [Reset(SgrCoordinates), Reset(AnyMotion), Reset(Drags), Reset(Buttons)]
  }

  function MouseModeCommands(capture: bool): seq<Command> {
    if capture then [Reset(AlternateScroll)] + EnableWheelReporting()
    else DisableWheelReporting() + [Set(AlternateScroll)]
  }

  /** `mouse_mode_seq`. */
  method MouseModeSeq(capture: bool) returns (s: seq<Command>)
    ensures s == MouseModeCommands(capture)
  {
    s := [];
    if capture {
      s := s + [Reset(AlternateScroll)];
      s := s + EnableWheelReporting();
    } else {
      s := s + DisableWheelReporting();
      s := s + [Set(AlternateScroll)];
    }
  }

  function RestoreCommands(): seq<Command> {
    [PopKeyboard, LeaveAlternateScreen, Reset(BracketedPaste), Reset(AlternateScroll)]
    + DisableWheelReporting() + [Pointer(0), ShowCursor, PopTitle]
  }

  /** `terminal_restore_seq`, which the signal handler writes. */
  method TerminalRestoreSeq() returns (s: seq<Command>)
    ensures s == RestoreCommands()
  {
    s := [];
    s := s + [PopKeyboard];
    s := s + [LeaveAlternateScreen];
    s := s + [Reset(BracketedPaste)];
    s := s + [Reset(AlternateScroll)];
    s := s + DisableWheelReporting();
    s := s + [Pointer(0)];
    s := s + [ShowCursor];
    s := s + [PopTitle];
  }

  // ---------- The process ----------

  datatype Fd = Original | Log

  /** The terminal, the line discipline's raw mode, spyc's globals and where fd 2 points. `captured` is whether
      the stderr redirect has been set up. */
  datatype Host = Host(
    term: Term,
    raw: bool,
    mouseCaptureOn: bool,
    keyboardSupported: bool,
    captured: bool,
    stderr: Fd)

  function Emit(h: Host, cs: seq<Command>): Host {
    h.(term := ExecAll(h.term, cs))
  }

  function Release(h: Host): Host {
    if h.captured then h.(stderr := Original) else h
  }

  function Reclaim(h: Host): Host {
    if h.captured then h.(stderr := Log) else h
  }

  /** `stderr_capture::start`: `available` is whether the log could be opened. */
  function StartCapture(h: Host, available: bool): Host {
    if h.captured || !available then h else h.(captured := true, stderr := Log)
  }

  /** How setup went: whether the terminal answered the keyboard query, and whether the two writes whose errors are
      ignored went through. */
  datatype Start = Start(reply: bool, pushed: bool, titled: bool)

  function SetupGroup(): seq<Command> {
    [EnterAlternateScreen, ClearAll, MoveHome, Set(BracketedPaste), Set(AlternateScroll), Pointer(1)]
  }

  function SetupCommands(s: Start): seq<Command> {
    SetupGroup() + (if s.reply && s.pushed then [PushKeyboard] else []) + (if s.titled then [PushTitle] else [])
  }

  function Setup(h: Host, s: Start): Host {
    Emit(h.(raw := true, keyboardSupported := s.reply), SetupCommands(s))
  }

  /** `written` commands of the sequence reach the terminal; the flag moves only when all of them do. */
  function SetMouseCapture(h: Host, capture: bool, written: nat): Host {
    var cs := MouseModeCommands(capture);
    if written >= |cs| then Emit(h, cs).(mouseCaptureOn := capture) else Emit(h, cs[..written])
  }

  function SuspendGroup(): seq<Command> {
    [ClearAll, MoveHome, Reset(BracketedPaste), Reset(AlternateScroll)] + DisableWheelReporting() + [ShowCursor]
  }

  /** As much of a sequence as reaches the terminal. */
  function Upto(cs: seq<Command>, written: nat): (r: seq<Command>)
    ensures r == if written >= |cs| then cs else cs[..written]
  {
    if written >= |cs| then cs else cs[..written]
  }

  /** The keyboard pop's error is ignored, so it can fail alone. */
  function SuspendCommands(popped: bool, written: nat): seq<Command> {
    (if popped then [PopKeyboard] else []) + Upto(SuspendGroup(), written)
  }

  /** fd 2 goes back first; nothing is written if raw mode cannot be left, and the flag moves once all but the last
      command is written. */
  function Suspend(h: Host, rawOff: bool, popped: bool, written: nat): Host {
    var released := Release(h);
    if !rawOff then released
    else
      var flag := h.mouseCaptureOn && written + 1 < |SuspendGroup()|;
      Emit(released.(raw := false, mouseCaptureOn := flag), SuspendCommands(popped, written))
  }

  predicate IsHandedOver(rawOff: bool, written: nat) {
    rawOff && written >= |SuspendGroup()|
  }

  function ResumeGroup(): seq<Command> {
    [EnterAlternateScreen, ClearAll, MoveHome, Set(BracketedPaste)] + DisableWheelReporting() + [Set(AlternateScroll)]
  }

  /** The keyboard push's error is ignored, so it can fail alone; the cursor comes after it. */
  function ResumeCommands(push: bool, written: nat): seq<Command> {
    Upto(ResumeGroup(), written)
    + (if push && written >= |ResumeGroup()| then [PushKeyboard] else [])
    + (if written > |ResumeGroup()| then [HideCursor] else [])
  }

  function Resume(h: Host, rawOn: bool, pushed: bool, written: nat): Host {
    var reclaimed := Reclaim(h);
    if !rawOn then reclaimed
    else Emit(reclaimed.(raw := true), ResumeCommands(h.keyboardSupported && pushed, written))
  }

  function ExitGroup(): seq<Command> {
    [LeaveAlternateScreen, Reset(BracketedPaste), Reset(AlternateScroll)] + DisableWheelReporting() + [Pointer(0)]
  }

  /** What a normal exit writes; the pops of the keyboard and the title can fail alone. */
  function ExitCommands(popped: bool, titled: bool, written: nat): seq<Command> {
    (if popped then [PopKeyboard] else []) + Upto(ExitGroup(), written)
    + (if titled && written >= |ExitGroup()| then [PopTitle] else [])
    + (if written > |ExitGroup()| then [ShowCursor] else [])
  }

  function Restore(h: Host, rawOff: bool, popped: bool, titled: bool, written: nat): Host {
    var released := Release(h);
    if !rawOff then released
    else
      var flag := h.mouseCaptureOn && written < |ExitGroup()|;
      Emit(released.(raw := false, mouseCaptureOn := flag), ExitCommands(popped, titled, written))
  }

  /** The panic hook goes on whatever fails. */
  function PanicCommands(popped: bool, titled: bool, written: nat): seq<Command> {
    (if popped then [PopKeyboard] else []) + Upto(ExitGroup() + [ShowCursor], written)
    + (if titled then [PopTitle] else [])
  }

  function RestoreOnPanic(h: Host, rawOff: bool, popped: bool, titled: bool, written: nat): Host {
    Emit(Release(h).(raw := h.raw && !rawOff, mouseCaptureOn := false), PanicCommands(popped, titled, written))
  }

  /** What the kernel and the terminal are left with when the signal handler has written its sequence. */
  function SignalTerminate(h: Host): Host {
    Emit(h.(raw := false), RestoreCommands())
  }

  /** The process's globals and the terminal it writes to, changed in place by every step. */
  class Process {
    var term: Term
    var raw: bool
    var mouseCaptureOn: bool
    var keyboardSupported: bool
    var captured: bool
    var stderr: Fd

    function State(): Host
      reads this
    {
      Host(term, raw, mouseCaptureOn, keyboardSupported, captured, stderr)
    }

    constructor (initial: Term)
      ensures State() == Host(initial, false, false, false, false, Original)
    {
      term, raw, mouseCaptureOn, keyboardSupported, captured, stderr := initial, false, false, false, false, Original;
    }

    method Execute(cs: seq<Command>)
      modifies `term
      ensures term == ExecAll(old(term), cs)
    {
      term := ExecAll(term, cs);
    }

    method StartStderrCapture(available: bool)
      modifies this
      ensures State() == StartCapture(old(State()), available)
    {
      if !captured && available {
        stderr := Log;
        captured := true;
      }
    }

    method ReleaseStderr()
      modifies `stderr
      ensures State() == Release(old(State()))
    {
      if captured {
        stderr := Original;
      }
    }

    method ReclaimStderr()
      modifies `stderr
      ensures State() == Reclaim(old(State()))
    {
      if captured {
        stderr := Log;
      }
    }

    /** `setup_terminal`: entering raw mode can fail, and the first writes can stop after any command. */
    method SetupTerminal(rawOn: bool, written: nat, s: Start) returns (ok: bool)
      modifies this
      ensures ok == (rawOn && written >= |SetupGroup()|)
      ensures State() == if ok then Setup(old(State()), s)
                         else if !rawOn then old(State())
                         else Emit(old(State()).(raw := true), Upto(SetupGroup(), written))
    {
      ghost var before := term;
      if !rawOn {
        return false;
      }
      raw := true;
      Execute(Upto(SetupGroup(), written));
      if written < |SetupGroup()| {
        return false;
      }
      keyboardSupported := s.reply;
      var push := if s.reply && s.pushed then [PushKeyboard] else [];
      Execute(push);
      var title := if s.titled then [PushTitle] else [];
      Execute(title);
      ExecConcat(before, SetupGroup(), push);
      ExecConcat(before, SetupGroup() + push, title);
      ok := true;
    }

    /** `set_mouse_capture`; `written` is how much of the write succeeded. */
    method SetMouseMode(capture: bool, written: nat) returns (ok: bool)
      modifies this
      ensures State() == SetMouseCapture(old(State()), capture, written)
      ensures ok == (written >= |MouseModeCommands(capture)|)
    {
      var s := MouseModeSeq(capture);
      if written < |s| {
        Execute(s[..written]);
        return false;
      }
      Execute(s);
      mouseCaptureOn := capture;
      ok := true;
    }

    /** `suspend_tui`: leaving raw mode and the pop can fail, and the other writes can stop after any command. */
    method SuspendTui(rawOff: bool, popped: bool, written: nat) returns (ok: bool)
      modifies this
      ensures State() == Suspend(old(State()), rawOff, popped, written)
      ensures ok == IsHandedOver(rawOff, written)
    {
      ghost var before := term;
      ReleaseStderr();
      if !rawOff {
        return false;
      }
      raw := false;
      var pop := if popped then [PopKeyboard] else [];
      Execute(pop);
      var rest := [ClearAll, MoveHome, Reset(BracketedPaste), Reset(AlternateScroll)] + DisableWheelReporting();
      Execute(Upto(rest, written));
      ExecConcat(before, pop, Upto(rest, written));
      if written < |rest| {
        assert Upto(rest, written) == Upto(SuspendGroup(), written);
        return false;
      }
      mouseCaptureOn := false;
      if written == |rest| {
        assert rest == Upto(SuspendGroup(), written);
        return false;
      }
      Execute([ShowCursor]);
      ExecConcat(before, pop + rest, [ShowCursor]);
      assert pop + rest + [ShowCursor] == pop + SuspendGroup();
      ok := true;
    }

    /** `resume_tui`: entering raw mode and the push can fail, and the other writes can stop after any command. */
    method ResumeTui(rawOn: bool, pushed: bool, written: nat) returns (ok: bool)
      modifies this
      ensures State() == Resume(old(State()), rawOn, pushed, written)
      ensures ok == (rawOn && written > |ResumeGroup()|)
    {
      ghost var before := term;
      ReclaimStderr();
      if !rawOn {
        return false;
      }
      raw := true;
      Execute(Upto(ResumeGroup(), written));
      if written < |ResumeGroup()| {
        assert Upto(ResumeGroup(), written) + [] + [] == Upto(ResumeGroup(), written);
        return false;
      }
      var push := if keyboardSupported && pushed then [PushKeyboard] else [];
      Execute(push);
      ExecConcat(before, ResumeGroup(), push);
      if written == |ResumeGroup()| {
        assert ResumeGroup() + push + [] == ResumeGroup() + push;
        return false;
      }
      Execute([HideCursor]);
      ExecConcat(before, ResumeGroup() + push, [HideCursor]);
      ok := true;
    }

    /** `restore_terminal`: leaving raw mode and either pop can fail, and the other writes can stop after any
        command. */
    method RestoreTerminal(rawOff: bool, popped: bool, titled: bool, written: nat) returns (ok: bool)
      modifies this
      ensures State() == Restore(old(State()), rawOff, popped, titled, written)
      ensures ok == (rawOff && written > |ExitGroup()|)
    {
      hide ExecAll, ExitGroup;
      ghost var before := term;
      ReleaseStderr();
      if !rawOff {
        return false;
      }
      raw := false;
      var pop := if popped then [PopKeyboard] else [];
      Execute(pop);
      Execute(Upto(ExitGroup(), written));
      ExecConcat(before, pop, Upto(ExitGroup(), written));
      var head := pop + Upto(ExitGroup(), written);
      if written < |ExitGroup()| {
        assert head + [] + [] == head;
        return false;
      }
      mouseCaptureOn := false;
      var title := if titled then [PopTitle] else [];
      Execute(title);
      ExecConcat(before, head, title);
      if written == |ExitGroup()| {
        assert head + title + [] == head + title;
        return false;
      }
      Execute([ShowCursor]);
      ExecConcat(before, head + title, [ShowCursor]);
      ok := true;
    }

    /** `restore_on_panic`, which ignores every error. */
    method RestoreOnPanicHook(rawOff: bool, popped: bool, titled: bool, written: nat)
      modifies this
      ensures State() == RestoreOnPanic(old(State()), rawOff, popped, titled, written)
    {
      ghost var before := term;
      ReleaseStderr();
      if rawOff {
        raw := false;
      }
      var pop := if popped then [PopKeyboard] else [];
      Execute(pop);
      var group := Upto(ExitGroup() + [ShowCursor], written);
      Execute(group);
      mouseCaptureOn := false;
      var title := if titled then [PopTitle] else [];
      Execute(title);
      ExecConcat(before, pop, group);
      ExecConcat(before, pop + group, title);
    }

    method HandleTerminateSignal()
      modifies this
      ensures State() == SignalTerminate(old(State()))
    {
      var seq' := TerminalRestoreSeq();
      Execute(seq');
      raw := false;
    }
  }
}
