# spyc: verified models

Dafny models of the parts of spyc, a terminal file commander that hosts coding agents, whose correctness depends on
loops, protocols or round trips rather than on any single line. Each module names the source file it follows.

- **Checksums of vendored code** (`Sha256`, `Sha256Constants`, against `Fips180`): the build script's own SHA-256,
  with its in-place message schedule and wrapping 32-bit words, computes the function of FIPS 180-4, which `Fips180`
  states independently on bit strings (functions 4.1.2, padding 5.1.1, computation 6.2.2). The literal constants are
  shown to be the roots of the first primes that sections 4.2.2 and 5.3.3 define.
- **Codex command lines** (`CodexLexer`, `CodexCommand`): a quoting lexer, an option parser and a rebuilder that undo
  each other. Restoring a session and asking for its selector gives the id back exactly when it holds no line break.
- **Agent reports** (`Agent`, `CodexRecovery`, `Waiting`): a bounded record of open questions that conservatively
  simulates an unbounded one over every history, and what a live `waiting` report survives.
- **The host terminal** (`Terminal`, `TerminalRuns`, `TerminalSafety`, `TerminalExits`): setup on any terminal, mouse
  toggles, hand-over to an arbitrary child and taking back, each possibly cut short, and three exits, with every
  sequence interpreted by a small terminal that has modes, two screens, a keyboard stack per screen and a title stack.
- **The clipboard** (`ClipboardPipe`, `Osc52`): caller, helper and writer thread interleaved one step at a time under
  a deadline; and the escape sequence that carries base64, plain or doubled for tmux.
- **Version conflicts** (`Version`, `MergeDriver`): conflict text is parsed, resolved and printed.
- **Source guards** (`CodeLines`, `GuardSupport`): a find-and-skip comment scanner equals a character automaton; a
  filter of test modules; the closure of tracked paths under parent directories.
- **The bottom of an agent's pane** (`DetectRules`, `AgyRows`, `AgyDialog`, `AgyPrinted`, `Chrome`): footers, dialogs, input boxes.
- **Tool tallies** (`Metrics`): a bounded list of counts that stays exact.

`Text` and `Numbers` hold the string operations the others share. Loops and updates in place are methods proved equal
to a specification function, and the properties are lemmas about that function.

## Where the code and its description part

Each is stated as a lemma with the exact condition.

- A session id with a carriage return or line feed is accepted and rebuilt into a command that no longer parses
  (`CodexCommand.RestoreRoundTrip`, `CodexCommand.ForkRoundTrip`).
- The clipboard helper is left with nobody waiting for it when the deadline passes and the writer has already failed:
  the early return at `src/clipboard.rs:695` comes before the reaper (`ClipboardPipe.ChildIsAccountedFor`,
  `ClipboardPipe.LostChildHappens`).
- The comment at `src/clipboard.rs:703` says the writer can no longer block once the child is gone. It can, when a
  process the child started still holds the pipe, exactly when the payload is larger than the pipe
  (`ClipboardPipe.JoinCanBlock`).
- The two shell-split checks at the end of `words` in `src/agent/codex_command.rs` can never fail
  (`CodexLexer.RawIsOneShellWord`).
- Text without conflict markers is returned unchanged only when it holds no CRLF line ending
  (`MergeDriver.UnconflictedText`).
- Blank rows below a pane's last row do change the output length when no input box or dialog is on screen
  (`Chrome.ClaudeIgnoresTrailingBlanks`, `Chrome.AgyIgnoresTrailingBlanks`).
- The comment in `src/merge_driver.rs:125` says anything but the plain triple is refused; a plus sign or leading zeros
  before a number are accepted (`Version.ParsesExactlyVersionLines`, `Version.PlusSignParses`).
- A turn end that is refused still marks a live wait, so one refused and one accepted end replace it though the wait is
  said to absorb its own turn's end (`Waiting.RefusedEndCounts`).
- Started in a terminal that already reports the mouse, spyc switches alternate scroll on over it, the state the pairing
  exists to prevent, and does not record it (`TerminalSafety.SetupOverReporting`, `TerminalSafety.NothingEnablesBoth`).
- The comment at `src/terminal.rs:515` says a failed write leaves the terminal in its previous mode. Cut short after mode
  1000 it does not, and the flag is then wrong (`TerminalSafety.RecordedIsReal`, `TerminalSafety.CutToggleHappens`).
- A hand-over that fails leaves spyc drawing with fd 2 the original, so what is printed there lands on its screen
  (`TerminalSafety.FailedHandOver`); and a take-back that fails before its first command can cost the login shell a
  keyboard entry (`TerminalSafety.LostKeyHappens`). When only the pop of a hand-over fails, taking back pushes a second
  entry (`TerminalSafety.DoublePushHappens`).
- The exits give back the very terminal they found only when it was neutral (modes off, main screen, default pointer,
  visible cursor), its title was saved, and no pop missed spyc's own keyboard entry, which it does when the terminal has
  such stacks but did not answer the query, or when a signal arrives during a child's turn (`TerminalExits.ExitsAgree`,
  `TerminalExits.WholeRunExits`).

## Model

| member | source | states |
|---|---|---|
| Sha256.Sha256Hex | crates/spyc-vt-sys/build.rs:35-106 | the loops over bytes print the SHA-256 of FIPS 180-4, defined on bit strings, of every message shorter than 2^61 bytes |
| Sha256.ExpandSchedule | crates/spyc-vt-sys/build.rs:62-66 | the array filled in place holds the recursive schedule of the block the chunk's bits form |
| Sha256.ExtendSchedule | crates/spyc-vt-sys/build.rs:67-74 | extending in place from sixteen words computes every later word of the recursive schedule |
| Sha256.ScheduleStep | crates/spyc-vt-sys/build.rs:67-74 | the recurrence in the program's order of additions and with its rotations is the standard's |
| Sha256.ChunkWordIsFips | crates/spyc-vt-sys/build.rs:63-66 | four bytes read big-endian are the standard's 32-bit block word |
| Sha256.SigmasAreFips | crates/spyc-vt-sys/build.rs:68-86 | the four mixing functions, written with rotations, are the standard's, written with shifts |
| Sha256.RunRound | crates/spyc-vt-sys/build.rs:77-96 | the shifted array after one round is the standard's a to h |
| Sha256.RunRounds | crates/spyc-vt-sys/build.rs:75-97 | sixty-four rounds from a copy of the running hash give the standard's working variables |
| Sha256.CompressChunk | crates/spyc-vt-sys/build.rs:61-101 | one chunk takes the running hash, updated in place, to the next chained hash |
| Sha256.PaddingIsFips | crates/spyc-vt-sys/build.rs:54-60 | the byte padding, read as bits, is the padding of section 5.1.1, which counts zero bits |
| Sha256.PaddingIsLeast | crates/spyc-vt-sys/build.rs:57-60 | no smaller whole number of 64-byte blocks holds message, marker and length |
| Sha256.UnpadPad | crates/spyc-vt-sys/build.rs:54-60 | the message is recovered from its padded form, so padding is injective |
| Sha256.PrintHex | crates/spyc-vt-sys/build.rs:102-105 | the fold prints every word as eight digits, in order |
| Sha256.HexOfInjective | crates/spyc-vt-sys/build.rs:102-105 | equal printed checksums mean equal digests |
| Sha256Constants.TableHoldsPrimes | crates/spyc-vt-sys/build.rs:38-53 | row t of the prime table is a prime with exactly t primes below it |
| Sha256Constants.RoundConstantsAreCubeRoots | crates/spyc-vt-sys/build.rs:38-49 | each round constant is the first 32 fractional bits of its prime's cube root |
| Sha256Constants.InitialHashIsSquareRoots | crates/spyc-vt-sys/build.rs:50-53 | each initial word is the first 32 fractional bits of its prime's square root |
| CodexLexer.Words | src/agent/codex_command.rs:19-86 | the loop over start, quote, escape and spans returns what the one-character automaton does, errors included |
| CodexLexer.SpansAreRaw | src/agent/codex_command.rs:19-69 | every span of an accepted command is a word that, alone, the lexer takes whole |
| CodexLexer.JoinedWordsLex | src/agent/codex_command.rs:19-69 | raw words joined by single spaces lex to exactly those words, quoting intact |
| CodexLexer.RawIsOneShellWord | src/agent/codex_command.rs:69-86 | a raw word splits, by shell rules, into exactly one word, so neither check on it can fail |
| CodexLexer.LexedWords | src/agent/codex_command.rs:19-86 | lexing succeeds exactly when the spans do, and returns them with their unquoted values |
| CodexLexer.JoinedWordsRoundTrip | src/agent/codex_command.rs:19-86 | words, printed raw with single spaces, lex back to the same words and values |
| CodexLexer.DequoteAll | src/agent/codex_command.rs:69-86 | mapping and collecting gives the values of all words or the first error |
| CodexCommand.Parse | src/agent/codex_command.rs:137-236 | the parsing loop, strict or lax, returns the recursive parser's result on every command |
| CodexCommand.Replay | src/agent/codex_command.rs:137-236 | parsing what a strict parse retained, whatever follows it, reaches the same retained words and options without operation or selector |
| CodexCommand.BaselineIsFixpoint | src/agent/codex_command.rs:239-241 | a baseline keeps every word of the command, in order and by position, but its one operation, its one selector with the `--` before it, and its switches; it lexes to those words and parses to itself with nothing selected |
| CodexCommand.StrictImpliesLax | src/agent/codex_command.rs:137-236 | what the strict parse accepts the lax one accepts with the same operation and selector |
| CodexCommand.RebuiltParses | src/agent/codex_command.rs:243-253 | a rebuilt command parses strictly and laxly to the operation and selector given, over the same baseline |
| CodexCommand.RestoreRoundTrip | src/agent/codex_command.rs:256-277 | restoring with an id and reading the selector gives the id back, over the same baseline, if and only if the id has no CR or LF |
| CodexCommand.RestoreLastRoundTrip | src/agent/codex_command.rs:243-277 | without an id the restored command resumes, names no selector and keeps its baseline |
| CodexCommand.ForkRoundTrip | src/agent/codex_command.rs:261-277 | a fork is never read as a resume, and keeps the baseline if and only if its id has no CR or LF |
| CodexCommand.RebuildTwice | src/agent/codex_command.rs:243-262 | rebuilding a rebuilt command equals rebuilding the first one: only the last id counts |
| CodexCommand.BreakNeverParses | src/agent/codex_command.rs:19-69 | no quoting of an id with a line break gives a command that parses |
| CodexCommand.SingleQuotedIsQuoter | src/agent/codex_command.rs:243-253 | single quoting meets what is required of the quoting function, for every id |
| CodexRecovery.CodexRecovery.Report | src/agent/codex_recovery.rs:31-83 | the object's fields and the answer after a report are those of the step function on the fields before |
| CodexRecovery.QuestionWaitingMeans | src/agent/codex_recovery.rs:26-28 | the pane waits if and only if a question is unanswered or one overflowed since the last reset |
| CodexRecovery.OpenIsUnanswered | src/agent/codex_recovery.rs:61-83 | the unbounded machine's set holds exactly the questions started, not ended since, and not reset since |
| CodexRecovery.StepSimulates | src/agent/codex_recovery.rs:31-83 | one report keeps the simulation of the unbounded machine, answers equal before overflow, and says exactly which report overflows |
| CodexRecovery.PendingIsUnanswered | src/agent/codex_recovery.rs:18-84 | after any history what is pending is unanswered, distinct and at most eight, an unanswered question always waits, and before overflow nothing is missing |
| CodexRecovery.LatchedIsUnsuperseded | src/agent/codex_recovery.rs:47-67 | the unbounded machine's latch holds exactly when a generic block came with no reset, and no question asked with none open, after it |
| CodexRecovery.EndAnswersWorkingOnlyWhenClear | src/agent/codex_recovery.rs:76-83 | a question end answers working only for the last open question with no block latched, both read off the history |
| CodexRecovery.ExactWithoutOverflow | src/agent/codex_recovery.rs:61-83 | before overflow every answer is the unbounded machine's, and only a ninth open question overflows |
| CodexRecovery.OverflowHolds | src/agent/codex_recovery.rs:41-83 | after overflow no reports short of a reset answer working or stop the waiting |
| CodexRecovery.ResetForgets | src/agent/codex_recovery.rs:47-56 | a generic non-blocked report makes the machine as new |
| CodexRecovery.RefusalsChangeNothing | src/agent/codex_recovery.rs:40-83 | a refused report changes the state if and only if it ends a pending question, and then only that question goes |
| Waiting.WaitStands | src/app/mcp.rs:757-776 | over any reports, own or a hook's, acted on or refused, a wait held or not, a live wait is replaced if and only if one of them, read with those before it, ends it; and it is marked if and only if a turn end that cannot say came before it expired |
| Waiting.WaitOutlastsTurnEnds | src/agent/waiting.rs:100-126 | over turn ends with nothing held, a live wait stands if and only if no end acted on says nothing is pending, or cannot say after another that could not, refused ones included |
| Waiting.RefusedEndCounts | src/app/mcp.rs:761-767 | a refused turn end that cannot say marks the wait, so that the first such end acted on after it replaces it |
| Waiting.ReplacesMeans | src/app/mcp.rs:757-776 | what replaces a live report is the report itself or the held wait; every other report leaves it as it was but for the mark |
| Waiting.OwnReportNeverBlocked | src/app/mcp.rs:757-776 | an accepted report of the agent's own becomes live, or is held if it is a wait inside an open turn, whatever wait is live |
| Waiting.TurnIsOpenSincePrompt | src/agent/waiting.rs:64-80 | the turn is open exactly when the history has a prompt with no end, failure or cancel after it |
| Waiting.HeldThroughTheTurn | src/app/mcp.rs:826-845 | reports that keep the turn open keep the held wait |
| Waiting.HeldWaitActsAtTurnEnd | src/app/mcp.rs:826-870 | a wait reported inside a turn meets the turn's end exactly as one reported outside just before it |
| Waiting.NoteOutlasts | src/agent/waiting.rs:132-149 | while the wait stands, hook reports without a note keep the agent's words |
| Terminal.Process.SetupTerminal | src/terminal.rs:374-434 | the state when entering raw mode fails or the first writes stop after any command, and after setup, with or without the two writes whose errors are ignored |
| Terminal.Process.SetMouseMode | src/terminal.rs:508-520 | the capture flag moves only when the whole sequence was written, whatever part of it reached the terminal |
| Terminal.Process.SuspendTui | src/terminal.rs:530-558 | the state when leaving raw mode fails, the keyboard pop fails alone or the writes stop after any command, and the one handed to a child |
| Terminal.Process.ResumeTui | src/terminal.rs:565-605 | the state taken back from a child, or left when entering raw mode fails, the keyboard push fails alone or the writes stop after any command |
| Terminal.Process.RestoreTerminal | src/terminal.rs:436-457 | the state after a normal exit, or when leaving raw mode fails, either pop fails alone or the writes stop after any command |
| Terminal.Process.RestoreOnPanicHook | src/terminal.rs:471-498 | the state after the panic hook, whichever of its steps fail |
| TerminalRuns.ToggleModes | src/terminal.rs:191-201 | the three mouse modes after any number of a toggle's commands, from any terminal |
| TerminalRuns.MouseFollows | src/terminal.rs:508-605 | at any point of any run modes 1000, 1007 and 1003 and the capture flag are what the events say, failed writes included |
| TerminalRuns.StderrFollows | src/stderr_capture.rs:43-86 | fd 2 is the log if and only if, capture once started, nothing was handed over since the last take-back, failed or not |
| TerminalRuns.KeysFollow | src/terminal.rs:535-601 | both keyboard stacks are the shell's, less the entries that pops took with none of spyc's own there, with as many of spyc's own on the alternate screen's as the events left |
| TerminalSafety.EveryRunHolds | src/terminal.rs:374-605 | all of that over every run from any terminal |
| TerminalSafety.OneEntryAtMost | src/terminal.rs:535-601 | the alternate screen's stack never holds more than one entry of spyc's, and none during a child's turn, unless a hand-over's pop failed alone |
| TerminalSafety.DoublePushHappens | src/terminal.rs:542-601 | a run in which it did, with two entries on the stack |
| TerminalSafety.RecordedIsReal | src/terminal.rs:508-520 | the capture flag is the real mode 1000 if and only if nothing broke the agreement since it was last repaired: a toggle cut short past mode 1000, a child's leftovers, or a shell that already reported the mouse |
| TerminalSafety.CutToggleHappens | src/terminal.rs:513-519 | a run in which a failed write leaves the mouse reported and the flag off |
| TerminalSafety.FailedHandOver | src/app/proc.rs:285-292 | from every reachable state a hand-over that fails anywhere leaves spyc drawing with fd 2 the original |
| TerminalSafety.LostKeyHappens | src/terminal.rs:565-601 | a run in which a take-back fails early and the next hand-over pops the shell's own keyboard entry |
| TerminalSafety.NothingEnablesBoth | src/terminal.rs:106-201 | at no prefix of anything written in any run, failed writes included, is alternate scroll switched on over mouse reporting or the reverse; while setting up does so if and only if the shell reported the mouse |
| TerminalSafety.ResumeNeverBoth | src/terminal.rs:565-605 | taking the terminal back is safe whatever a child left on |
| TerminalSafety.SetupOverReporting | src/terminal.rs:386-404 | started over mouse reporting, spyc has both wheel modes on and the flag off |
| TerminalExits.WholeRunHolds | src/terminal.rs:374-605 | with no failed write: flag and mode 1000 agree, and 1000 and 1007 exclude each other, if and only if the shell did not report the mouse or a toggle or hand-over came since; likewise 1003; fd 2 is the log exactly while spyc draws; the main screen's stack never changes; the alternate one's keeps the shell's entries if and only if the query was answered, there were none, or nothing was handed over |
| TerminalExits.CutExitLeaves | src/terminal.rs:436-457 | wherever a normal exit fails, fd 2 is back, and unless raw mode could not be left each mode, the screen and the keyboard stacks are restored exactly as far as the writes got |
| TerminalExits.CutPanicLeaves | src/terminal.rs:471-498 | the same for the panic hook, which goes on whatever fails |
| TerminalExits.ExitsDo | src/terminal.rs:225-498 | each of the three exits, written whole, does the same to any terminal: every mode off, main screen, one entry popped off the keyboard and title stacks |
| TerminalExits.ExitsAgree | src/terminal.rs:225-498 | from every reachable state the normal exit, the panic hook and the signal, written whole, leave the same cooked terminal; each stack, the title and the whole terminal come back under an exact condition |
| TerminalExits.WholeRunExits | src/terminal.rs:225-498 | with no failed write: spyc's own exit restores the terminal if and only if it was neutral and the query was answered or there was no entry to lose; a signal during a child's turn costs an entry of the screen the child is on |
| ClipboardPipe.OkMeansWritten | src/clipboard.rs:626-725 | in every interleaving a successful return means the whole payload went into the pipe |
| ClipboardPipe.ChildIsAccountedFor | src/clipboard.rs:626-725 | at every return the helper is reaped or has a reaper, if and only if it is not the return where the deadline passed and the writer had failed |
| ClipboardPipe.LiveJoinLosesChild | src/clipboard.rs:694-700 | the branch where that is decided loses the helper exactly when the writer failed |
| ClipboardPipe.LostChildHappens | src/clipboard.rs:694-700 | an interleaving that ends with a running helper nobody waits for |
| ClipboardPipe.CallerIsNeverStuck | src/clipboard.rs:660-705 | outside the final join the caller can always step; in it the write is over or breaks at once when no process holds the pipe |
| ClipboardPipe.JoinCanBlock | src/clipboard.rs:703-705 | some interleaving blocks the final join if and only if the helper has a stdin and the payload is larger than the pipe |
| ClipboardPipe.DeadlineBoundsCaller | src/clipboard.rs:659-702 | once the deadline has passed the caller returns within five steps of its own, whatever the others do in between |
| ClipboardPipe.HeirBlocksJoin | src/clipboard.rs:703-705 | an interleaving that reaches that blocked join |
| Osc52.DecodeEncode | src/clipboard.rs:446-448 | a strict decoder of section 4 of RFC 4648 gives back every byte string encoded |
| Osc52.EncodeDecode | src/clipboard.rs:446-448 | the encoding is the only text the decoder turns into those bytes |
| Osc52.EncodingIsClean | src/clipboard.rs:442-445 | encoded text holds neither ESC nor BEL |
| Osc52.RefusedExactlyWhenTooLong | src/clipboard.rs:412-454 | refused if and only if the encoding exceeds 74994 characters, that is, the text 56244 bytes, in either framing |
| Osc52.PlainRoundTrip | src/clipboard.rs:455-464 | a terminal reads the sequence, whatever follows it, as exactly the payload, which decodes to the text |
| Osc52.TmuxRoundTrip | src/clipboard.rs:458-464 | tmux reads the wrapped form, whatever follows it, as a passthrough of exactly the plain sequence |
| Osc52.PassthroughRoundTrip | src/clipboard.rs:458-461 | undoing the doubling gives any inner text back, and the framing ends at one place |
| Version.VersionLineParses | src/merge_driver.rs:128-140 | every spacing of a version line parses as what its quotes hold does |
| Version.ParsesExactlyVersionLines | src/merge_driver.rs:125-140 | a line parses to a version if and only if it is a spacing of three numerals of it, leading zeros and a plus sign allowed |
| Version.PlusSignParses | src/merge_driver.rs:125-140 | a plus sign before a number is accepted |
| Version.PrintedVersionParses | src/merge_driver.rs:128-140 | a version printed in decimal parses to itself |
| MergeDriver.ParsePrinted | src/merge_driver.rs:61-95 | any list of plain lines and well-formed hunks, printed, parses to itself |
| MergeDriver.PrintParsed | src/merge_driver.rs:61-95 | lines that parse print back to themselves, and what was parsed is well formed |
| MergeDriver.SoleVersion | src/merge_driver.rs:111-123 | the loop over a side returns the recursive scan's result |
| MergeDriver.SoleVersionMeans | src/merge_driver.rs:108-123 | a side resolves if and only if it has only blank and version lines and at least one version; then to a greatest version and a line of it |
| MergeDriver.ReadOurs | src/merge_driver.rs:71-86 | the labelled loop splits off our side, base section dropped, or meets the end |
| MergeDriver.ReadUntil | src/merge_driver.rs:88-95 | the loop splits at the first closing marker, or meets the end |
| MergeDriver.ResolveVersionConflicts | src/merge_driver.rs:61-106 | the one-pass loop returns what parsing and resolving item by item does |
| MergeDriver.ResolvesExactlyVersionConflicts | src/merge_driver.rs:56-106 | any text resolves if and only if its conflicts are closed and about versions only; then plain lines stay and each hunk is one line with the greatest version of both sides |
| MergeDriver.PrintedConflictsResolve | src/merge_driver.rs:56-106 | printed conflict text resolves if and only if every hunk is about versions, item by item and in order |
| MergeDriver.UnconflictedText | src/merge_driver.rs:61-106 | marker-free text comes back, unchanged if and only if it has no CRLF |
| MergeDriver.SwapKeepsVersion | src/merge_driver.rs:96-99 | swapping the sides of a hunk changes neither success nor the version chosen |
| MergeDriver.SwappedTextResolves | src/merge_driver.rs:61-106 | swapping the sides of every hunk of a printed text changes neither success, nor a plain line, nor a version chosen |
| MergeDriver.ResolvedItemsHaveNoMarker | src/merge_driver.rs:96-100 | no resolved line opens a conflict |
| MergeDriver.CleanMeansNoMarker | src/merge_driver.rs:46-54 | a conflicted text is reported clean if and only if its conflicts are closed and about versions only; then no line of the result opens a conflict; otherwise the text is untouched |
| CodeLines.CodeLines | src/fn_size_guard.rs:242-278 | find and skip, line by line, counts what a one-character automaton over the whole body counts |
| CodeLines.CountLine | src/fn_size_guard.rs:251-274 | the inner loop ends and returns the recursive scan of the line |
| CodeLines.ScanLineRuns | src/fn_size_guard.rs:251-274 | the scan of any rest of a line moves the automaton to the same state |
| CodeLines.ScanLinesRuns | src/fn_size_guard.rs:250-276 | comment state carried over lines is the automaton's |
| CodeLines.TrimIsFree | src/fn_size_guard.rs:243-247 | trimming the body changes no count |
| CodeLines.InsertedLinesCount | src/fn_size_guard.rs:242-278 | lines inserted anywhere that leave the comment state as it was add exactly their own code lines, read from where they were put |
| CodeLines.FreeLinesAddNothing | src/fn_size_guard.rs:239-241 | inserted, a blank line, a pure line or block comment, any lines that alone count nothing and end outside a comment, or a line inside a block comment, changes no count |
| GuardSupport.ProductionHalf | src/guard_support.rs:36-85 | the scan over the lines returns the lines at the kept numbers |
| GuardSupport.SkipGuarded | src/guard_support.rs:41-79 | where the scan goes on after an attribute |
| GuardSupport.SkipBlock | src/guard_support.rs:60-72 | the brace loop ends at the first line after the opening where the braces balance, or at the end |
| GuardSupport.GuardedItemIsNext | src/guard_support.rs:42-52 | the guarded item is the first line after the attribute that is neither blank nor an attribute |
| GuardSupport.OutputIsSubsequence | src/guard_support.rs:36-85 | the output is an in-order selection of the input's lines |
| GuardSupport.OutputLines | src/guard_support.rs:36-85 | the output splits into exactly the kept lines, none a test attribute |
| GuardSupport.UnchangedWithoutAttribute | src/guard_support.rs:34-85 | a source is unchanged if and only if no line starts with the attribute |
| GuardSupport.FilterIsIdempotent | src/guard_support.rs:36-85 | filtering twice is filtering once |
| GuardSupport.DroppedIsGuarded | src/guard_support.rs:40-80 | a line is kept, or is part of what an attribute at or above it guards |
| GuardSupport.LinesBetweenAttributesAreKept | src/guard_support.rs:40-83 | lines after the point the scan resumes at are kept up to the next attribute |
| GuardSupport.TrackedPaths | src/guard_support.rs:162-180 | the set is exactly the root, every file and every directory above one, early break and all |
| GuardSupport.AddAncestors | src/guard_support.rs:168-177 | the inner loop leaves the set closed under parents and adds only ancestors of files |
| GuardSupport.ClosedHoldsAncestors | src/guard_support.rs:169-172 | a closed set that holds a path holds every directory above it, which is why stopping early is sound |
| Metrics.Tally.CountTool | src/agent/metrics.rs:87-108 | the list after the call and the slot returned, from the list before |
| Metrics.NamesAreKept | src/agent/metrics.rs:85-108 | over any events names stay distinct, at most twenty-five, and none is ever lost or moved |
| Metrics.TallyIsExact | src/agent/metrics.rs:85-108 | each slot's counts are the calls and failures of the tools in its bucket |
| Metrics.CallsAddUp | src/agent/metrics.rs:87-108 | total calls never exceed call events, and equal them if and only if no slot's tools were called more often than a counter holds |
| Metrics.SlotHoldsLatest | src/agent/metrics.rs:111-115 | in whatever order samples arrive, the slot holds the last of the latest |
| DetectRules.FooterMatches | src/agent/detect_rules.rs:82-101 | the early-exit loop answers true if and only if some number of whole trailing non-blank rows, normalised and joined by spaces, is the footer |
| DetectRules.SuffixesNest | src/agent/detect_rules.rs:96-98 | a shorter suffix ends every longer one, which is why the exit is sound |
| DetectRules.RegionTextOf | src/agent/detect_rules.rs:115-129 | collecting from the bottom and reversing gives the last non-blank rows in order |
| DetectRules.RegionReadsBack | src/agent/detect_rules.rs:115-129 | a region's text splits back into exactly those rows |
| AgyRows.OrderedOptions | src/agent/agy_approval.rs:355-374 | the counting loop returns the recursive reading of the rows |
| AgyRows.ReadOptionsMeans | src/agent/agy_approval.rs:355-397 | the counters survive the rows if and only if these start with an option, number theirs 1, 2, 3 and so on, and hold only continuations besides |
| AgyRows.OrderedOptionsMean | src/agent/agy_approval.rs:355-374 | rows are accepted if and only if they are in order with at least two options and, for an approval, the first starts with Yes and the last with No |
| AgyDialog.DialogTopOf | src/agent/agy_approval.rs:26-41 | collecting numbered rows from the bottom, reversing and searching gives the specification's row number |
| AgyDialog.NonBlankIndicesMapBack | src/agent/agy_approval.rs:27-40 | a row number maps back to the very row, with exactly as many non-blank rows above it |
| AgyDialog.TopIsHeader | src/agent/agy_approval.rs:45-107 | whatever dialog is found, the row returned is one of its header words |
| AgyDialog.DialogTopIsHeader | src/agent/agy_approval.rs:23-41 | a top is returned if and only if the search finds one, and is that very header row of the unfiltered list |
| AgyDialog.ReadersAgree | src/agent/agy_approval.rs:16-41 | the detection rule fires on the region's text if and only if the same search over the pane finds a blocking dialog, and then the output reader returns its header row |
| AgyPrinted.DialogIsFound | src/agent/agy_approval.rs:45-55 | the approval search finds the header of every permission dialog as printed at the bottom, with or without its rule, whatever rows are above it |
| AgyPrinted.DialogIsDetected | src/agent/agy_approval.rs:16-55 | so the detection rule fires on every pane that ends with one in view, and the output reader returns its header row |
| AgyPrinted.ExampleIsDialog | src/agent/agy_approval.rs:121-143 | a concrete dialog is one of them |
| Chrome.BlockedPaneHidesDialog | src/agent/chrome.rs:48-54 | when the detection rule fires, the output length is strictly below the pane's |
| Chrome.BottomRuleIs | src/agent/chrome.rs:29-37 | the bottom-up search finds the lowest box rule if and only if fewer than twenty non-blank rows are below it |
| Chrome.ClaudeOutputEndsAtBox | src/agent/chrome.rs:25-46 | the output ends at a row if and only if that is the top of an input box: the lowest two rules, near enough |
| Chrome.ComposerTopIsUnique | src/agent/chrome.rs:67-79 | at most one rule qualifies as the composer's top |
| Chrome.ComposerStartIsTheTop | src/agent/chrome.rs:56-79 | the composer starts at a row if and only if that row and the lowest box rule frame a composer over an agy footer |
| Chrome.ClaudeIgnoresTrailingBlanks | src/agent/chrome.rs:28-46 | blank rows added below leave the length alone if and only if none are added or an input box is on screen |
| Chrome.AgyIgnoresTrailingBlanks | src/agent/chrome.rs:50-112 | the same for agy, with a live composer or a dialog in the searched rows |

## Left out

- Sha256.Sha256Hex: messages of 2^61 bytes and more, whose bit length does not fit the program's 64-bit counter.
- CodexLexer.RawIsOneShellWord: the `shlex` library is modelled by POSIX shell quoting rules (section 2.2 of XCU), comments included, not from its source.
- CodexCommand.RestoreRoundTrip: `shell_quote` is a parameter with the one requirement that its result is one shell word for the id; the source of that function is not part of this model.
- Waiting.WaitStands: report clocks and expiry times are parameters; how a report's lifetime is chosen is not modelled.
- TerminalSafety.EveryRunHolds: a child is taken to leave keyboard and title stacks as it found them, and a write stops between commands, never inside one; a setup that fails ends the program before any run.
- TerminalExits.ExitsAgree: the signal handler's one write is taken to go through whole, termios is one raw-or-cooked bit, the cursor position saved with the alternate screen is not kept, and the host is taken to honour the alternate screen.
- ClipboardPipe.CallerIsNeverStuck: polling and killing the helper are taken never to fail, and a panicking writer counts as a failed one.
- GuardSupport.SkipBlock: brace depth is unbounded, the program's is a 32-bit integer.
- MergeDriver.CleanMeansNoMarker: the three-way merge itself is any text, conflicted or clean.
- Error texts are one constructor per message, without their wording.
- Strings are sequences of characters; byte offsets appear only where the program compares byte lengths.
- Machine-sized indices and lengths are unbounded, except where the program checks them or wraps.
- Reading and writing files, git and process spawning, and the tmux wrapping of title sequences.
- Start-up of stderr capture beyond fd 2: log file names, pruning and the path reported at exit.
- JSON decoding of hook events, their summaries and failure notes, which are parameters of the waiting rules.
- The other detection matchers, rule priority, and Codex's own chrome and question forms, which are single searches.
- Saturating token arithmetic and staleness of samples in the metrics, which are single expressions.
- The flag strippers of the other agents, easier than the Codex parser.
