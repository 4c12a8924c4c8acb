/** The version-conflict resolver of `src/merge_driver.rs`. */
module MergeDriver {
  import opened Text
  import opened Version

  const OPENING := "<<<<<<<"
  const BASE := "|||||||"
  const SEPARATOR := "======="
  const CLOSING := ">>>>>>>"

  // ---------- Conflict documents ----------

  /** The base section of a diff3-style hunk: its marker line and the lines it skips. */
  datatype BaseSection = BaseSection(marker: string, lines: seq<string>)

  datatype Item =
    | Plain(line: string)
    | Hunk(open: string, ours: seq<string>, base: Option<BaseSection>, separator: string, theirs: seq<string>,
           close: string)

  predicate NoneStarts(lines: seq<string>, marker: string) {
    forall i :: 0 <= i < |lines| ==> !StartsWith(lines[i], marker)
  }

  predicate IsWellFormed(item: Item) {
    match item
    case Plain(line) => !StartsWith(line, OPENING)
    case Hunk(open, ours, base, separator, theirs, close) =>
      && StartsWith(open, OPENING) && StartsWith(separator, SEPARATOR) && StartsWith(close, CLOSING)
      && NoneStarts(ours, BASE) && NoneStarts(ours, SEPARATOR) && NoneStarts(theirs, CLOSING)
      && (base.Some? ==> StartsWith(base.value.marker, BASE) && NoneStarts(base.value.lines, SEPARATOR))
  }

  predicate AllWellFormed(items: seq<Item>) {
    forall i :: 0 <= i < |items| ==> IsWellFormed(items[i])
  }

  function ItemLines(item: Item): (lines: seq<string>)
    ensures lines != []
  {
    match item
    case Plain(line) => [line]
    case Hunk(open, ours, base, separator, theirs, close) =>
      [open] + (ours + ((if base.Some? then [base.value.marker] + base.value.lines else [])
                        + ([separator] + (theirs + [close]))))
  }

  function PrintLines(items: seq<Item>): seq<string> {
    if items == [] then [] else ItemLines(items[0]) + PrintLines(items[1..])
  }

  // ---------- Reading them back ----------

  /** The lines up to the first that starts with `marker`, that line, and the lines after it. */
  function UntilMarker(lines: seq<string>, marker: string): (r: Option<(seq<string>, string, seq<string>)>)
    ensures r.Some? ==>
              && lines == r.value.0 + ([r.value.1] + r.value.2)
              && NoneStarts(r.value.0, marker) && StartsWith(r.value.1, marker)
    ensures r.None? ==> NoneStarts(lines, marker)
  {
    if lines == [] then None
    else if StartsWith(lines[0], marker) then Some(([], lines[0], lines[1..]))
    else
      match UntilMarker(lines[1..], marker)
      case None => None
      case Some((front, line, rest)) => Some(([lines[0]] + front, line, rest))
  }

  /** Our side, the base section if there is one, the separator, and the lines after it. */
  datatype Side = Side(lines: seq<string>, base: Option<BaseSection>, separator: string, rest: seq<string>)

  function SideLines(s: Side): seq<string> {
    s.lines + ((if s.base.Some? then [s.base.value.marker] + s.base.value.lines else []) + ([s.separator] + s.rest))
  }

  function OursSide(lines: seq<string>): (r: Option<Side>)
    ensures r.Some? ==>
              && lines == SideLines(r.value)
              && NoneStarts(r.value.lines, BASE) && NoneStarts(r.value.lines, SEPARATOR)
              && StartsWith(r.value.separator, SEPARATOR)
              && (r.value.base.Some? ==>
                    StartsWith(r.value.base.value.marker, BASE) && NoneStarts(r.value.base.value.lines, SEPARATOR))
  {
    if lines == [] then None
    else if StartsWith(lines[0], BASE) then
      match UntilMarker(lines[1..], SEPARATOR)
      case None => None
      case Some((skipped, separator, rest)) => Some(Side([], Some(BaseSection(lines[0], skipped)), separator, rest))
    else if StartsWith(lines[0], SEPARATOR) then Some(Side([], None, lines[0], lines[1..]))
    else
      match OursSide(lines[1..])
      case None => None
      case Some(s) =>
        assert [lines[0]] + SideLines(s) == SideLines(s.(lines := [lines[0]] + s.lines));
        Some(s.(lines := [lines[0]] + s.lines))
  }

  /** The document some lines are, or `None` when a hunk does not end. */
  function ParseItems(lines: seq<string>): Option<seq<Item>>
    decreases |lines|
  {
    if lines == [] then Some([])
    else if !StartsWith(lines[0], OPENING) then Cons(Plain(lines[0]), ParseItems(lines[1..]))
    else
      match OursSide(lines[1..])
      case None => None
      case Some(ours) =>
        match UntilMarker(ours.rest, CLOSING)
        case None => None
        case Some((theirs, close, rest)) =>
          assert |rest| < |lines|;
          Cons(Hunk(lines[0], ours.lines, ours.base, ours.separator, theirs, close), ParseItems(rest))
  }

  function Cons(item: Item, items: Option<seq<Item>>): Option<seq<Item>> {
    if items.None? then None else Some([item] + items.value)
  }

  /** Lines that read as a document print back as themselves, and the document is well formed. */
  lemma {:induction false} PrintParsed(lines: seq<string>)
    requires ParseItems(lines).Some?
    ensures PrintLines(ParseItems(lines).value) == lines
    ensures AllWellFormed(ParseItems(lines).value)
    decreases |lines|
  {
    hide StartsWith, OursSide, UntilMarker, ItemLines, NoneStarts, IsWellFormed;
    if lines != [] {
      var items := ParseItems(lines).value;
      if !StartsWith(lines[0], OPENING) {
        PrintParsed(lines[1..]);
        assert items == [Plain(lines[0])] + ParseItems(lines[1..]).value;
        PlainPrints(lines[0]);
        assert lines == [lines[0]] + lines[1..];
      } else {
        var ours := OursSide(lines[1..]).value;
        var (theirs, close, rest) := UntilMarker(ours.rest, CLOSING).value;
        assert |rest| < |lines|;
        PrintParsed(rest);
        var hunk := Hunk(lines[0], ours.lines, ours.base, ours.separator, theirs, close);
        assert items == [hunk] + ParseItems(rest).value;
        HunkIsWellFormed(hunk);
        HunkLinesAre(hunk, ours, rest);
        assert lines == [lines[0]] + lines[1..];
      }
    }
  }

  lemma PlainPrints(line: string)
    requires !StartsWith(line, OPENING)
    ensures IsWellFormed(Plain(line)) && ItemLines(Plain(line)) == [line]
  {
  }

  lemma HunkIsWellFormed(hunk: Item)
    requires hunk.Hunk? && StartsWith(hunk.open, OPENING) && StartsWith(hunk.separator, SEPARATOR)
    requires StartsWith(hunk.close, CLOSING) && NoneStarts(hunk.ours, BASE) && NoneStarts(hunk.ours, SEPARATOR)
    requires NoneStarts(hunk.theirs, CLOSING)
    requires hunk.base.Some? ==>
               StartsWith(hunk.base.value.marker, BASE) && NoneStarts(hunk.base.value.lines, SEPARATOR)
    ensures IsWellFormed(hunk)
  {
    hide StartsWith, NoneStarts;
  }

  lemma HunkLinesAre(hunk: Item, ours: Side, rest: seq<string>)
    requires hunk.Hunk? && ours.lines == hunk.ours && ours.base == hunk.base && ours.separator == hunk.separator
    requires ours.rest == hunk.theirs + ([hunk.close] + rest)
    ensures ItemLines(hunk) + rest == [hunk.open] + SideLines(ours)
  {
    var base := if hunk.base.Some? then [hunk.base.value.marker] + hunk.base.value.lines else [];
    assert hunk.theirs + [hunk.close] + rest == hunk.theirs + ([hunk.close] + rest);
    assert base + ([hunk.separator] + (hunk.theirs + [hunk.close])) + rest
        == base + ([hunk.separator] + (hunk.theirs + ([hunk.close] + rest)));
  }

  lemma {:induction false} UntilMarkerFinds(front: seq<string>, marker: string, line: string, rest: seq<string>)
    requires NoneStarts(front, marker) && StartsWith(line, marker)
    ensures UntilMarker(front + ([line] + rest), marker) == Some((front, line, rest))
  {
    var all := front + ([line] + rest);
    if front == [] {
      assert all == [line] + rest;
    } else {
      assert all[1..] == front[1..] + ([line] + rest);
      assert !StartsWith(front[0], marker);
      UntilMarkerFinds(front[1..], marker, line, rest);
      assert [front[0]] + front[1..] == front;
    }
  }

  lemma MarkersDiffer(line: string)
    ensures StartsWith(line, SEPARATOR) ==> !StartsWith(line, BASE)
    ensures StartsWith(line, BASE) ==> !StartsWith(line, SEPARATOR)
  {
    assert SEPARATOR[0] != BASE[0];
  }

  lemma {:induction false} OursSideFinds(s: Side)
    requires NoneStarts(s.lines, BASE) && NoneStarts(s.lines, SEPARATOR) && StartsWith(s.separator, SEPARATOR)
    requires s.base.Some? ==>
               StartsWith(s.base.value.marker, BASE) && NoneStarts(s.base.value.lines, SEPARATOR)
    ensures OursSide(SideLines(s)) == Some(s)
    decreases |s.lines|
  {
    hide StartsWith;
    var all := SideLines(s);
    if s.lines == [] {
      MarkersDiffer(s.separator);
      if s.base.Some? {
        var skipped := s.base.value.lines;
        assert all[1..] == skipped + ([s.separator] + s.rest);
        UntilMarkerFinds(skipped, SEPARATOR, s.separator, s.rest);
      } else {
        assert all == [s.separator] + s.rest;
      }
    } else {
      var shorter := s.(lines := s.lines[1..]);
      assert all[1..] == SideLines(shorter);
      assert !StartsWith(s.lines[0], BASE) && !StartsWith(s.lines[0], SEPARATOR);
      OursSideFinds(shorter);
      assert [s.lines[0]] + s.lines[1..] == s.lines;
    }
  }

  /** Printing any list of plain lines and hunks and reading it gives the list back. */
  lemma {:induction false} ParsePrinted(items: seq<Item>)
    requires AllWellFormed(items)
    ensures ParseItems(PrintLines(items)) == Some(items)
  {
    hide StartsWith;
    if items != [] {
      var item, rest := items[0], PrintLines(items[1..]);
      var all := PrintLines(items);
      ParsePrinted(items[1..]);
      assert IsWellFormed(item);
      assert items == [item] + items[1..];
      if item.Plain? {
        assert all[1..] == rest;
      } else {
        var side := Side(item.ours, item.base, item.separator, item.theirs + ([item.close] + rest));
        HunkLinesAre(item, side, rest);
        assert all[1..] == SideLines(side);
        OursSideFinds(side);
        UntilMarkerFinds(item.theirs, CLOSING, item.close, rest);
      }
    }
  }

  // ---------- One side of a hunk ----------

  datatype Best = Best(version: Version, line: string)

  /** A side read so far: a line that is neither blank nor a version, or the greatest version seen. */
  datatype Scan = Foreign | Seen(best: Option<Best>)

  function ScanLine(scan: Scan, line: string): Scan {
    if scan.Foreign? || IsBlank(line) then scan
    else
      match ParseVersionLine(line)
      case None => Foreign
      case Some(v) => if scan.best.None? || Less(scan.best.value.version, v) then Seen(Some(Best(v, line))) else scan
  }

  function ScanSide(lines: seq<string>): Scan {
    if lines == [] then Seen(None) else ScanLine(ScanSide(lines[..|lines| - 1]), lines[|lines| - 1])
  }

  function SoleVersionOf(lines: seq<string>): Option<Best> {
    var scan := ScanSide(lines);
    if scan.Foreign? then None else scan.best
  }

  predicate IsVersionOnly(lines: seq<string>) {
    && (forall i :: 0 <= i < |lines| ==> IsBlank(lines[i]) || ParseVersionLine(lines[i]).Some?)
    && (exists i :: 0 <= i < |lines| && ParseVersionLine(lines[i]).Some?)
  }

  /** The line is one of `lines`, carries the version, and no version among `lines` is greater. */
  predicate IsGreatest(best: Best, lines: seq<string>) {
    && best.line in lines && ParseVersionLine(best.line) == Some(best.version)
    && (forall i :: 0 <= i < |lines| && ParseVersionLine(lines[i]).Some? ==>
          AtLeast(best.version, ParseVersionLine(lines[i]).value))
  }

  lemma BlankIsNoVersion(line: string)
    requires IsBlank(line)
    ensures ParseVersionLine(line).None?
  {
    assert TrimStart(line) == "";
  }

  lemma {:induction false} ScanMeans(lines: seq<string>)
    ensures ScanSide(lines).Foreign? <==>
              !(forall i :: 0 <= i < |lines| ==> IsBlank(lines[i]) || ParseVersionLine(lines[i]).Some?)
    ensures ScanSide(lines).Seen? ==>
              (ScanSide(lines).best.Some? <==> exists i :: 0 <= i < |lines| && ParseVersionLine(lines[i]).Some?)
    ensures ScanSide(lines).Seen? && ScanSide(lines).best.Some? ==> IsGreatest(ScanSide(lines).best.value, lines)
  {
    hide ParseVersionLine, IsBlank;
    if lines != [] {
      var n := |lines| - 1;
      var front, last := lines[..n], lines[n];
      ScanMeans(front);
      if IsBlank(last) {
        BlankIsNoVersion(last);
      }
      assert forall i :: 0 <= i < n ==> front[i] == lines[i];
      assert lines == front + [last];
      if ScanSide(lines).Seen? && ScanSide(front).best.Some? {
        assert ScanSide(front).best.value.line in lines;
      }
    }
  }

  /** A side resolves exactly when it holds only blank and version lines, at least one of the latter; the result
      is its numerically greatest version and a line that carries it. */
  lemma SoleVersionMeans(lines: seq<string>)
    ensures SoleVersionOf(lines).Some? <==> IsVersionOnly(lines)
    ensures SoleVersionOf(lines).Some? ==> IsGreatest(SoleVersionOf(lines).value, lines)
  {
    hide ParseVersionLine, IsBlank, ScanSide;
    ScanMeans(lines);
  }

  /** `sole_version`: the loop over one side. */
  method SoleVersion(lines: seq<string>) returns (best: Option<Best>)
    ensures best == SoleVersionOf(lines)
  {
    hide ParseVersionLine, IsBlank;
    best := None;
    for i := 0 to |lines|
      invariant ScanSide(lines[..i]) == Seen(best)
    {
      ScanPrefix(lines, i);
      if IsBlank(lines[i]) {
        continue;
      }
      var v := ParseVersionLine(lines[i]);
      if v.None? {
        ForeignStays(lines, i + 1);
        return None;
      }
      if best.None? || Less(best.value.version, v.value) {
        best := Some(Best(v.value, lines[i]));
      }
    }
    assert lines[..|lines|] == lines;
  }

  lemma ScanPrefix(lines: seq<string>, i: nat)
    requires i < |lines|
    ensures ScanSide(lines[..i + 1]) == ScanLine(ScanSide(lines[..i]), lines[i])
  {
    assert lines[..i + 1][..i] == lines[..i];
  }

  lemma {:induction false} ForeignStays(lines: seq<string>, i: nat)
    requires i <= |lines| && ScanSide(lines[..i]).Foreign?
    ensures ScanSide(lines).Foreign?
    decreases |lines| - i
  {
    if i == |lines| {
      assert lines[..i] == lines;
    } else {
      ScanPrefix(lines, i);
      ForeignStays(lines, i + 1);
    }
  }

  // ---------- Resolving ----------

  /** The line a hunk becomes: ours when its version is at least theirs. */
  function ResolveItem(item: Item): Option<string> {
    match item
    case Plain(line) => Some(line)
    case Hunk(_, ours, _, _, theirs, _) =>
      var o, t := SoleVersionOf(ours), SoleVersionOf(theirs);
      if o.None? || t.None? then None
      else Some(if AtLeast(o.value.version, t.value.version) then o.value.line else t.value.line)
  }

  function ResolveItems(items: seq<Item>): Option<seq<string>> {
    if items == [] then Some([])
    else
      var first, rest := ResolveItem(items[0]), ResolveItems(items[1..]);
      if first.None? || rest.None? then None else Some([first.value] + rest.value)
  }

  function ResolveLines(lines: seq<string>): Option<seq<string>> {
    match ParseItems(lines)
    case None => None
    case Some(items) => ResolveItems(items)
  }

  /** What `resolve_version_conflicts` returns; the method `ResolveVersionConflicts` computes it. */
  function ResolveText(text: string): Option<string> {
    match ResolveLines(Lines(text))
    case None => None
    case Some(out) => Some(Closed(out, EndsWithNewline(text)))
  }

  function Appended(front: seq<string>, rest: Option<seq<string>>): Option<seq<string>> {
    if rest.None? then None else Some(front + rest.value)
  }

  function WithOurs(front: seq<string>, side: Option<Side>): Option<Side> {
    if side.None? then None else Some(side.value.(lines := front + side.value.lines))
  }

  lemma ResolveStep(lines: seq<string>)
    requires lines != []
    ensures !StartsWith(lines[0], OPENING) ==> ResolveLines(lines) == Appended([lines[0]], ResolveLines(lines[1..]))
    ensures StartsWith(lines[0], OPENING) ==>
              (OursSide(lines[1..]).None? ==> ResolveLines(lines).None?)
  {
    hide StartsWith;
    if !StartsWith(lines[0], OPENING) && ParseItems(lines[1..]).Some? {
      var items := ParseItems(lines[1..]).value;
      assert ([Plain(lines[0])] + items)[1..] == items;
    }
  }

  lemma ResolveHunk(lines: seq<string>, ours: Side, theirs: seq<string>, close: string, rest: seq<string>)
    requires lines != [] && StartsWith(lines[0], OPENING)
    requires OursSide(lines[1..]) == Some(ours) && UntilMarker(ours.rest, CLOSING) == Some((theirs, close, rest))
    ensures var item := ResolveItem(Hunk(lines[0], ours.lines, ours.base, ours.separator, theirs, close));
            ResolveLines(lines) == if item.None? then None else Appended([item.value], ResolveLines(rest))
  {
    hide StartsWith, SoleVersionOf;
    var hunk := Hunk(lines[0], ours.lines, ours.base, ours.separator, theirs, close);
    if ParseItems(rest).Some? {
      var items := ParseItems(rest).value;
      assert ([hunk] + items)[1..] == items;
    }
  }

  lemma WithOursTwice(a: seq<string>, b: seq<string>, side: Option<Side>)
    ensures WithOurs(a, WithOurs(b, side)) == WithOurs(a + b, side)
    ensures WithOurs([], side) == side
  {
    if side.Some? {
      assert a + (b + side.value.lines) == a + b + side.value.lines;
      assert [] + side.value.lines == side.value.lines;
    }
  }

  /** The inner loop over our side, base section included: the lines of our side and the next line to read. */
  method ReadOurs(lines: seq<string>, from: nat) returns (ours: Option<seq<string>>, next: nat)
    requires from <= |lines|
    ensures ours.Some? <==> OursSide(lines[from..]).Some?
    ensures ours.Some? ==> next <= |lines| && OursSide(lines[from..]).value.lines == ours.value
    ensures ours.Some? ==> OursSide(lines[from..]).value.rest == lines[next..]
  {
    hide StartsWith, SideLines;
    var read: seq<string> := [];
    next := from;
    WithOursTwice([], [], OursSide(lines[from..]));
    while next < |lines|
      invariant from <= next <= |lines|
      invariant OursSide(lines[from..]) == WithOurs(read, OursSide(lines[next..]))
    {
      var line := lines[next];
      var tail := lines[next..];
      assert tail[0] == line && tail[1..] == lines[next + 1..];
      if StartsWith(line, BASE) {
        var found := false;
        found, next := SkipPast(lines, next + 1, SEPARATOR);
        if !found {
          return None, next;
        }
        return Some(read), next;
      } else if StartsWith(line, SEPARATOR) {
        return Some(read), next + 1;
      }
      WithOursTwice(read, [line], OursSide(lines[next + 1..]));
      read := read + [line];
      next := next + 1;
    }
    assert lines[next..] == [];
    ours := None;
  }

  method SkipPast(lines: seq<string>, from: nat, marker: string) returns (found: bool, next: nat)
    requires from <= |lines|
    ensures found <==> UntilMarker(lines[from..], marker).Some?
    ensures found ==> next <= |lines| && UntilMarker(lines[from..], marker).value.2 == lines[next..]
  {
    var skipped;
    skipped, next := ReadUntil(lines, from, marker);
    found := skipped.Some?;
  }

  lemma UntilStep(lines: seq<string>, next: nat, marker: string)
    requires next < |lines|
    ensures var tail, rest := UntilMarker(lines[next..], marker), UntilMarker(lines[next + 1..], marker);
            if StartsWith(lines[next], marker) then tail == Some(([], lines[next], lines[next + 1..]))
            else && (tail.Some? <==> rest.Some?)
                 && (tail.Some? ==> && tail.value.0 == [lines[next]] + rest.value.0
                                    && tail.value.2 == rest.value.2)
  {
    hide StartsWith;
    assert lines[next..][0] == lines[next] && lines[next..][1..] == lines[next + 1..];
  }

  lemma NoMarkerInNothing(marker: string)
    ensures UntilMarker([], marker).None?
  {
  }

  /** The loop that reads to a marker line. */
  method ReadUntil(lines: seq<string>, from: nat, marker: string) returns (front: Option<seq<string>>, next: nat)
    requires from <= |lines|
    ensures front.Some? <==> UntilMarker(lines[from..], marker).Some?
    ensures front.Some? ==> next <= |lines| && UntilMarker(lines[from..], marker).value.2 == lines[next..]
    ensures front.Some? ==> UntilMarker(lines[from..], marker).value.0 == front.value
  {
    hide StartsWith, UntilMarker;
    NoMarkerInNothing(marker);
    var read: seq<string> := [];
    next := from;
    while next < |lines|
      invariant from <= next <= |lines|
      invariant var whole, tail := UntilMarker(lines[from..], marker), UntilMarker(lines[next..], marker);
                && (whole.Some? <==> tail.Some?)
                && (whole.Some? ==> whole.value.0 == read + tail.value.0 && whole.value.2 == tail.value.2)
    {
      UntilStep(lines, next, marker);
      if StartsWith(lines[next], marker) {
        return Some(read), next + 1;
      }
      read := read + [lines[next]];
      next := next + 1;
    }
    assert lines[next..] == [];
    front := None;
  }

  /** `resolve_version_conflicts`: one pass over the lines, `None` at the first conflict that is not about versions
      or that does not end. */
  method ResolveVersionConflicts(text: string) returns (resolved: Option<string>)
    ensures resolved == ResolveText(text)
  {
    hide StartsWith, SoleVersionOf, OursSide, UntilMarker, ParseItems, EndsWithNewline;
    var lines := Lines(text);
    var out: seq<string> := [];
    var next := 0;
    assert lines[0..] == lines;
    assert ResolveLines(lines) == Appended([], ResolveLines(lines)) by {
      assert ResolveLines(lines).Some? ==> [] + ResolveLines(lines).value == ResolveLines(lines).value;
    }
    while next < |lines|
      invariant next <= |lines|
      invariant ResolveLines(lines) == Appended(out, ResolveLines(lines[next..]))
      decreases |lines| - next
    {
      ghost var tail := lines[next..];
      assert tail[0] == lines[next] && tail[1..] == lines[next + 1..];
      ResolveStep(tail);
      if !StartsWith(lines[next], OPENING) {
        AppendedTwice(out, [lines[next]], ResolveLines(lines[next + 1..]));
        out := out + [lines[next]];
        next := next + 1;
        continue;
      }
      var ours, afterOurs := ReadOurs(lines, next + 1);
      if ours.None? {
        return None;
      }
      var theirs, afterTheirs := ReadUntil(lines, afterOurs, CLOSING);
      ghost var side := OursSide(tail[1..]).value;
      if theirs.None? {
        UnclosedIsNone(tail);
        return None;
      }
      ghost var closing := UntilMarker(side.rest, CLOSING).value;
      ResolveHunk(tail, side, closing.0, closing.1, closing.2);
      SuffixShrinks(lines, next + 1, afterOurs, afterTheirs);
      var o := SoleVersion(ours.value);
      if o.None? {
        return None;
      }
      var t := SoleVersion(theirs.value);
      if t.None? {
        return None;
      }
      var line := if AtLeast(o.value.version, t.value.version) then o.value.line else t.value.line;
      AppendedTwice(out, [line], ResolveLines(lines[afterTheirs..]));
      out := out + [line];
      next := afterTheirs;
    }
    assert lines[next..] == [];
    assert ResolveLines([]) == Some([]) by { ResolveNothing(); }
    assert out + [] == out;
    resolved := Some(Closed(out, EndsWithNewline(text)));
  }

  lemma ResolveNothing()
    ensures ResolveLines([]) == Some([])
  {
  }

  lemma AppendedTwice(a: seq<string>, b: seq<string>, rest: Option<seq<string>>)
    ensures Appended(a, Appended(b, rest)) == Appended(a + b, rest)
  {
    if rest.Some? {
      assert a + (b + rest.value) == a + b + rest.value;
    }
  }

  lemma UnclosedIsNone(lines: seq<string>)
    requires lines != [] && StartsWith(lines[0], OPENING) && OursSide(lines[1..]).Some?
    requires UntilMarker(OursSide(lines[1..]).value.rest, CLOSING).None?
    ensures ResolveLines(lines).None?
  {
    hide StartsWith, OursSide, UntilMarker;
  }

  lemma SuffixShrinks(lines: seq<string>, from: nat, middle: nat, to: nat)
    requires from <= |lines| && middle <= |lines| && to <= |lines|
    requires OursSide(lines[from..]).Some? && OursSide(lines[from..]).value.rest == lines[middle..]
    requires UntilMarker(lines[middle..], CLOSING).Some? && UntilMarker(lines[middle..], CLOSING).value.2 == lines[to..]
    ensures from < to
  {
    hide StartsWith;
    var s := OursSide(lines[from..]).value;
    assert |lines[from..]| == |SideLines(s)|;
    assert |lines[middle..]| > |lines[to..]|;
  }

  // ---------- What resolving means ----------

  predicate IsVersionHunk(item: Item) {
    item.Hunk? ==> IsVersionOnly(item.ours) && IsVersionOnly(item.theirs)
  }

  /** The line an item becomes: a plain line as it was; for a hunk a line of one of its sides that carries the
      greatest version of both. */
  predicate IsResolved(item: Item, line: string) {
    match item
    case Plain(plain) => line == plain
    case Hunk(_, ours, _, _, theirs, _) =>
      ParseVersionLine(line).Some? && IsGreatest(Best(ParseVersionLine(line).value, line), ours + theirs)
  }

  lemma GreatestOfBoth(a: Best, b: Best, ours: seq<string>, theirs: seq<string>)
    requires IsGreatest(a, ours) && IsGreatest(b, theirs)
    ensures IsGreatest(if AtLeast(a.version, b.version) then a else b, ours + theirs)
  {
    hide ParseVersionLine;
    var best := if AtLeast(a.version, b.version) then a else b;
    var all := ours + theirs;
    forall i | 0 <= i < |all| && ParseVersionLine(all[i]).Some?
      ensures AtLeast(best.version, ParseVersionLine(all[i]).value)
    {
      if i < |ours| {
        assert all[i] == ours[i];
      } else {
        assert all[i] == theirs[i - |ours|];
      }
    }
  }

  lemma ResolveItemMeans(item: Item)
    ensures ResolveItem(item).Some? <==> IsVersionHunk(item)
    ensures ResolveItem(item).Some? ==> IsResolved(item, ResolveItem(item).value)
  {
    hide ParseVersionLine, SoleVersionOf, IsVersionOnly;
    if item.Hunk? {
      SoleVersionMeans(item.ours);
      SoleVersionMeans(item.theirs);
      if ResolveItem(item).Some? {
        GreatestOfBoth(SoleVersionOf(item.ours).value, SoleVersionOf(item.theirs).value, item.ours, item.theirs);
      }
    }
  }

  lemma {:induction false} ResolveItemsMeans(items: seq<Item>)
    ensures ResolveItems(items).Some? <==> forall i :: 0 <= i < |items| ==> IsVersionHunk(items[i])
    ensures ResolveItems(items).Some? ==>
              && |ResolveItems(items).value| == |items|
              && forall i :: 0 <= i < |items| ==> IsResolved(items[i], ResolveItems(items).value[i])
  {
    hide IsVersionHunk, IsResolved, ResolveItem;
    if items != [] {
      ResolveItemMeans(items[0]);
      ResolveItemsMeans(items[1..]);
      assert forall i :: 1 <= i < |items| ==> items[1..][i - 1] == items[i];
      if ResolveItems(items).Some? {
        var out := ResolveItems(items).value;
        assert forall i :: 1 <= i < |items| ==> ResolveItems(items[1..]).value[i - 1] == out[i];
      }
    }
  }

  predicate IsOnlyVersions(items: Option<seq<Item>>) {
    items.Some? && forall i :: 0 <= i < |items.value| ==> IsVersionHunk(items.value[i])
  }

  /** Any text at all: it resolves exactly when its lines are a document, every conflict closed, whose hunks hold
      only blank and version lines with a version on each side; then every line is the resolved item's. */
  lemma ResolvesExactlyVersionConflicts(text: string)
    ensures var items := ParseItems(Lines(text));
            && (ResolveText(text).Some? <==> IsOnlyVersions(items))
            && (ResolveText(text).Some? ==>
                  exists out: seq<string> ::
                    && |out| == |items.value|
                    && (forall i :: 0 <= i < |out| ==> IsResolved(items.value[i], out[i]))
                    && ResolveText(text) == Some(Closed(out, EndsWithNewline(text))))
  {
    hide IsVersionHunk, IsResolved, ParseItems, Lines;
    var items := ParseItems(Lines(text));
    if items.Some? {
      ResolveItemsMeans(items.value);
    }
  }

  /** Printed conflict text resolves exactly when every hunk is about versions, plain lines stay as they were and
      in order, and each hunk becomes one line with the greatest version of both sides. */
  lemma PrintedConflictsResolve(items: seq<Item>, newline: bool)
    requires IsPrinted(items, newline)
    ensures var text := Closed(PrintLines(items), newline);
            && (ResolveText(text).Some? <==> forall i :: 0 <= i < |items| ==> IsVersionHunk(items[i]))
            && (ResolveText(text).Some? ==>
                  exists out: seq<string> ::
                    && |out| == |items| && (forall i :: 0 <= i < |out| ==> IsResolved(items[i], out[i]))
                    && ResolveText(text) == Some(Closed(out, newline)))
  {
    hide IsVersionHunk, IsResolved, ParseItems, Lines, IsWellFormed, AreLines, ItemLines, ResolveItems;
    var text := Closed(PrintLines(items), newline);
    if items != [] {
      assert PrintLines(items) != [];
    }
    LinesOfClosed(PrintLines(items), newline);
    ParsePrinted(items);
    ResolvesExactlyVersionConflicts(text);
  }

  // ---------- Unconflicted text ----------

  predicate HasCrLf(text: string) {
    exists i :: 0 <= i < |text| - 1 && text[i] == '\r' && text[i + 1] == '\n'
  }

  lemma CrLfAtLineEnd(text: string, at: nat)
    requires at < |text| && text[at] == '\n' && '\n' !in text[..at]
    ensures HasCrLf(text) <==> StripCr(text[..at]) != text[..at] || HasCrLf(text[at + 1..])
  {
    var rest := text[at + 1..];
    if HasCrLf(rest) {
      var i :| 0 <= i < |rest| - 1 && rest[i] == '\r' && rest[i + 1] == '\n';
      assert text[at + 1 + i] == '\r' && text[at + 1 + i + 1] == '\n';
    }
    if HasCrLf(text) && !HasCrLf(rest) {
      var i :| 0 <= i < |text| - 1 && text[i] == '\r' && text[i + 1] == '\n';
      assert i + 1 == at;
    }
  }

  /** The text with its line endings normalised. */
  function Normalised(text: string): string {
    Closed(Lines(text), EndsWithNewline(text))
  }

  lemma NormalisedCons(line: string, rest: string)
    requires '\n' !in line
    ensures Normalised(line + ("\n" + rest)) == StripCr(line) + ("\n" + Normalised(rest))
  {
    hide StripCr, Lines, IndexOf;
    LinesCons(line, rest);
    var text := line + ("\n" + rest);
    assert text[|text| - 1] == if rest == "" then '\n' else rest[|rest| - 1];
    if rest == "" {
      LinesOfNothing(rest);
      assert Closed([StripCr(line)], true) == StripCr(line) + "\n";
    } else {
      LinesOfNothing(rest);
      ClosedCons(StripCr(line), Lines(rest), EndsWithNewline(rest));
    }
  }

  lemma LinesOfNothing(text: string)
    ensures Lines(text) == [] <==> text == ""
  {
    hide IndexOf, StripCr;
  }

  lemma LinesCons(line: string, rest: string)
    requires '\n' !in line
    ensures Lines(line + ("\n" + rest)) == [StripCr(line)] + Lines(rest)
  {
    hide StripCr;
    var text := line + ("\n" + rest);
    assert text[0..|line|] == line && text[..|line|] == line && text[|line|] == '\n' && text[|line| + 1..] == rest;
    IndexOfIs(text, '\n', 0, |line|);
  }

  lemma {:induction false} ClosedLines(text: string)
    ensures !HasCrLf(text) ==> Normalised(text) == text
    ensures HasCrLf(text) ==> |Normalised(text)| < |text|
    decreases |text|
  {
    hide Normalised, HasCrLf;
    var at := IndexOf(text, '\n', 0);
    if at.None? {
      OneLine(text);
    } else {
      var line, rest := text[..at.value], text[at.value + 1..];
      assert text[0..at.value] == line;
      CrLfAtLineEnd(text, at.value);
      ClosedLines(rest);
      assert text == line + ("\n" + rest);
      NormalisedCons(line, rest);
    }
  }

  lemma OneLine(text: string)
    requires IndexOf(text, '\n', 0).None?
    ensures Normalised(text) == text && !HasCrLf(text)
  {
    assert text[0..] == text;
  }

  lemma {:induction false} PlainLinesStay(lines: seq<string>)
    requires NoneStarts(lines, OPENING)
    ensures ResolveLines(lines) == Some(lines)
  {
    hide StartsWith;
    if lines != [] {
      assert !StartsWith(lines[0], OPENING);
      ResolveStep(lines);
      assert forall i :: 0 <= i < |lines| - 1 ==> lines[1..][i] == lines[i + 1];
      PlainLinesStay(lines[1..]);
      assert [lines[0]] + lines[1..] == lines;
    }
  }

  /** Text without conflict markers comes back unchanged exactly when it holds no CRLF line ending: those become
      LF. */
  lemma UnconflictedText(text: string)
    requires NoneStarts(Lines(text), OPENING)
    ensures ResolveText(text).Some?
    ensures ResolveText(text) == Some(text) <==> !HasCrLf(text)
  {
    hide Lines, HasCrLf, NoneStarts, ResolveLines;
    PlainLinesStay(Lines(text));
    ClosedLines(text);
  }

  // ---------- Swapping the sides; no marker survives ----------

  function Swapped(item: Item): Item {
    if item.Plain? then item else item.(ours := item.theirs, theirs := item.ours)
  }

  /** Swapping the sides of a hunk changes neither whether it resolves nor the version it resolves to. */
  lemma SwapKeepsVersion(item: Item)
    ensures ResolveItem(Swapped(item)).Some? <==> ResolveItem(item).Some?
    ensures item.Hunk? && ResolveItem(item).Some? ==>
              ParseVersionLine(ResolveItem(Swapped(item)).value) == ParseVersionLine(ResolveItem(item).value)
  {
    hide ParseVersionLine, SoleVersionOf, IsVersionOnly;
    if item.Hunk? {
      SoleVersionMeans(item.ours);
      SoleVersionMeans(item.theirs);
    }
  }

  function SwapAll(items: seq<Item>): (swapped: seq<Item>)
    ensures |swapped| == |items| && forall i :: 0 <= i < |items| ==> swapped[i] == Swapped(items[i])
  {
    seq(|items|, i requires 0 <= i < |items| => Swapped(items[i]))
  }

  /** The same version for a hunk, the same line for a plain one. */
  predicate SameItem(item: Item, a: string, b: string) {
    if item.Plain? then a == b else ParseVersionLine(a).Some? && ParseVersionLine(a) == ParseVersionLine(b)
  }

  predicate SameLines(items: seq<Item>, a: seq<string>, b: seq<string>) {
    |a| == |b| == |items| && forall i :: 0 <= i < |items| ==> SameItem(items[i], a[i], b[i])
  }

  lemma SwappedItem(item: Item)
    ensures IsVersionHunk(Swapped(item)) <==> IsVersionHunk(item)
    ensures ResolveItem(item).Some? ==>
              && ResolveItem(Swapped(item)).Some?
              && SameItem(item, ResolveItem(item).value, ResolveItem(Swapped(item)).value)
  {
    hide ParseVersionLine, SoleVersionOf, IsVersionOnly;
    SwapKeepsVersion(item);
    ResolveItemMeans(item);
  }

  lemma {:induction false} SwapItems(items: seq<Item>)
    ensures ResolveItems(SwapAll(items)).Some? <==> ResolveItems(items).Some?
    ensures ResolveItems(items).Some? ==>
              SameLines(items, ResolveItems(items).value, ResolveItems(SwapAll(items)).value)
  {
    hide ResolveItem, SameItem, Swapped, IsVersionHunk, SameLines, SwapAll, ResolveItems;
    if items == [] {
      NothingResolves();
    } else {
      SwappedItem(items[0]);
      ResolveItemMeans(items[0]);
      ResolveItemMeans(Swapped(items[0]));
      SwapItems(items[1..]);
      ResolveCons(items);
      ResolveCons(SwapAll(items));
      assert SwapAll(items)[1..] == SwapAll(items[1..]);
      if ResolveItems(items).Some? {
        SameCons(items, ResolveItem(items[0]).value, ResolveItem(Swapped(items[0])).value,
                 ResolveItems(items[1..]).value, ResolveItems(SwapAll(items[1..])).value);
      }
    }
  }

  lemma NothingResolves()
    ensures SwapAll([]) == [] && ResolveItems([]) == Some([]) && SameLines([], [], [])
  {
  }

  lemma ResolveCons(items: seq<Item>)
    requires items != []
    ensures var first, rest := ResolveItem(items[0]), ResolveItems(items[1..]);
            ResolveItems(items) == if first.None? || rest.None? then None else Some([first.value] + rest.value)
  {
    hide ResolveItem;
  }

  lemma SameCons(items: seq<Item>, a: string, b: string, as': seq<string>, bs: seq<string>)
    requires items != [] && SameItem(items[0], a, b) && SameLines(items[1..], as', bs)
    ensures SameLines(items, [a] + as', [b] + bs)
  {
    hide SameItem;
    forall i | 1 <= i < |items|
      ensures SameItem(items[i], ([a] + as')[i], ([b] + bs)[i])
    {
      assert SameItem(items[1..][i - 1], as'[i - 1], bs[i - 1]);
    }
  }

  /** Swapping the sides of every hunk of a printed text, where that prints too, changes neither whether it resolves nor
      any plain line or any version it resolves to. */
  lemma SwappedTextResolves(items: seq<Item>, newline: bool)
    requires IsPrinted(items, newline) && IsPrinted(SwapAll(items), newline)
    ensures var one, other := ResolveText(Closed(PrintLines(items), newline)),
                              ResolveText(Closed(PrintLines(SwapAll(items)), newline));
            && (one.Some? <==> other.Some?)
            && (one.Some? ==> exists a, b :: SameLines(items, a, b) && one.value == Closed(a, newline)
                                             && other.value == Closed(b, newline))
  {
    hide IsPrinted, SameLines, ResolveItems, Closed, ResolveText, PrintLines;
    PrintedResolves(items, newline);
    PrintedResolves(SwapAll(items), newline);
    SwapItems(items);
  }

  /** Some items whose text reads back as them. */
  predicate IsPrinted(items: seq<Item>, newline: bool) {
    && AllWellFormed(items) && AreLines(PrintLines(items))
    && (newline || PrintLines(items) == [] || PrintLines(items)[|PrintLines(items)| - 1] != "")
    && (newline ==> items != [])
  }

  lemma PrintedResolves(items: seq<Item>, newline: bool)
    requires IsPrinted(items, newline)
    ensures ResolveText(Closed(PrintLines(items), newline))
         == match ResolveItems(items) case None => None case Some(out) => Some(Closed(out, newline))
  {
    hide ParseItems, Lines, IsWellFormed, AreLines, ItemLines, ResolveItems, Closed;
    if items != [] {
      assert PrintLines(items) != [];
    }
    LinesOfClosed(PrintLines(items), newline);
    ParsePrinted(items);
  }

  lemma VersionLineIsNoMarker(line: string)
    requires ParseVersionLine(line).Some?
    ensures !StartsWith(line, OPENING)
  {
    hide *;
    if StartsWith(line, OPENING) {
      OpeningIsVisible(line);
      TrimKeepsHead(line);
      VersionLineStarts(line);
    }
  }

  lemma OpeningIsVisible(line: string)
    requires StartsWith(line, OPENING)
    ensures line != "" && line[0] == '<' && !IsWhitespace(line[0])
  {
    assert line[0] == OPENING[0];
  }

  lemma TrimKeepsHead(line: string)
    requires line != "" && !IsWhitespace(line[0])
    ensures Trim(line) != "" && Trim(line)[0] == line[0]
  {
  }

  lemma VersionLineStarts(line: string)
    requires ParseVersionLine(line).Some?
    ensures Trim(line) != "" && Trim(line)[0] == 'v'
  {
    hide Trim, ParseAssigned;
    assert StartsWith(Trim(line), "version");
    assert Trim(line)[0] == "version"[0];
  }

  lemma {:induction false} ResolvedItemsHaveNoMarker(items: seq<Item>)
    requires AllWellFormed(items) && ResolveItems(items).Some?
    ensures NoneStarts(ResolveItems(items).value, OPENING)
  {
    hide IsResolved, IsVersionHunk, ResolveItem;
    ResolveItemsMeans(items);
    var out := ResolveItems(items).value;
    forall i | 0 <= i < |out|
      ensures !StartsWith(out[i], OPENING)
    {
      assert IsWellFormed(items[i]) && IsResolved(items[i], out[i]);
      ResolvedIsNoMarker(items[i], out[i]);
    }
  }

  lemma ResolvedIsNoMarker(item: Item, line: string)
    requires IsWellFormed(item) && IsResolved(item, line)
    ensures !StartsWith(line, OPENING)
  {
    if item.Hunk? {
      hide StartsWith, ParseVersionLine;
      VersionLineIsNoMarker(line);
    }
  }

  /** `merge_versioned`, given what the three-way merge returned: `Ok` clean text, or `Err` with conflict markers. */
  function MergeVersioned(merged: Result<string, string>): (string, bool) {
    match merged
    case Ok(clean) => (clean, true)
    case Err(conflicted) =>
      match ResolveText(conflicted)
      case Some(resolved) => (resolved, true)
      case None => (conflicted, false)
  }

  // ---------- No marker is left ----------

  predicate AreBroken(lines: seq<string>) {
    forall i :: 0 <= i < |lines| ==> '\n' !in lines[i]
  }

  lemma {:induction false} LinesAreBroken(text: string)
    ensures AreBroken(Lines(text))
    decreases |text|
  {
    hide IndexOf;
    var at := IndexOf(text, '\n', 0);
    if text != "" && at.None? {
      assert text[0..] == text;
    } else if text != "" {
      assert text[0..at.value] == text[..at.value];
      LinesAreBroken(text[at.value + 1..]);
    }
  }

  lemma NoneStartsAppend(a: seq<string>, b: seq<string>)
    ensures NoneStarts(a + b, OPENING) <==> NoneStarts(a, OPENING) && NoneStarts(b, OPENING)
  {
    hide StartsWith;
    assert forall i :: 0 <= i < |a| ==> (a + b)[i] == a[i];
    assert forall i :: 0 <= i < |b| ==> (a + b)[|a| + i] == b[i];
  }

  lemma StrippedIsNoMarker(line: string)
    requires !StartsWith(line, OPENING)
    ensures NoneStarts([StripCr(line)], OPENING) && NoneStarts([line], OPENING)
  {
  }

  /** Lines without a marker, printed, are read back as lines without one. */
  lemma {:induction false} PrintedWithoutMarker(lines: seq<string>, newline: bool)
    requires NoneStarts(lines, OPENING) && AreBroken(lines)
    ensures NoneStarts(Lines(Closed(lines, newline)), OPENING)
  {
    hide StartsWith, Lines, StripCr, Closed;
    if |lines| <= 1 {
      FewWithoutMarker(lines, newline);
    } else {
      var rest := Closed(lines[1..], newline);
      assert lines == [lines[0]] + lines[1..];
      ClosedCons(lines[0], lines[1..], newline);
      LinesCons(lines[0], rest);
      PrintedWithoutMarker(lines[1..], newline);
      StrippedIsNoMarker(lines[0]);
      NoneStartsAppend([StripCr(lines[0])], Lines(rest));
    }
  }

  lemma FewWithoutMarker(lines: seq<string>, newline: bool)
    requires |lines| <= 1 && NoneStarts(lines, OPENING) && AreBroken(lines)
    ensures NoneStarts(Lines(Closed(lines, newline)), OPENING)
  {
    hide StartsWith, Lines, StripCr;
    var line := if lines == [] then "" else lines[0];
    LinesOfNothing("");
    assert !StartsWith(line, OPENING) by { EmptyIsNoMarker(); }
    StrippedIsNoMarker(line);
    if newline {
      LinesCons(line, "");
      assert Closed(lines, true) == line + ("\n" + "");
      NoneStartsAppend([StripCr(line)], []);
    } else {
      assert Closed(lines, false) == line;
      LastLineAlone(line);
    }
  }

  lemma EmptyIsNoMarker()
    ensures !StartsWith("", OPENING)
  {
  }

  lemma LastLineAlone(line: string)
    requires '\n' !in line
    ensures Lines(line) == if line == "" then [] else [line]
  {
  }

  lemma {:induction false} PrintedLinesOf(items: seq<Item>, i: nat)
    requires i < |items|
    ensures forall line :: line in ItemLines(items[i]) ==> line in PrintLines(items)
  {
    hide ItemLines;
    if i > 0 {
      PrintedLinesOf(items[1..], i - 1);
    }
  }

  lemma ResolvedIsItsLine(item: Item, line: string)
    requires IsResolved(item, line)
    ensures line in ItemLines(item)
  {
    hide ParseVersionLine;
  }

  lemma ResolvedAreBroken(lines: seq<string>, items: seq<Item>)
    requires AreBroken(lines) && PrintLines(items) == lines && ResolveItems(items).Some?
    ensures AreBroken(ResolveItems(items).value)
  {
    hide ItemLines, PrintLines, ResolveItems, IsResolved, IsVersionHunk;
    ResolveItemsMeans(items);
    var out := ResolveItems(items).value;
    forall i | 0 <= i < |out|
      ensures '\n' !in out[i]
    {
      ResolvedIsItsLine(items[i], out[i]);
      PrintedLinesOf(items, i);
      assert out[i] in lines;
    }
  }

  /** A merge is reported clean only when no line of the result opens a conflict, and a text that stays conflicted is
      not touched. */
  lemma CleanMeansNoMarker(conflicted: string)
    ensures var (text, clean) := MergeVersioned(Err(conflicted));
            && (clean <==> IsOnlyVersions(ParseItems(Lines(conflicted))))
            && (!clean ==> text == conflicted)
            && (clean ==> NoneStarts(Lines(text), OPENING))
  {
    hide IsVersionHunk, ParseItems, Lines, NoneStarts, AllWellFormed, AreBroken, ResolveItems, Closed;
    ResolvesExactlyVersionConflicts(conflicted);
    if ResolveText(conflicted).Some? {
      var items := ParseItems(Lines(conflicted)).value;
      PrintParsed(Lines(conflicted));
      LinesAreBroken(conflicted);
      ResolvedItemsHaveNoMarker(items);
      ResolvedAreBroken(Lines(conflicted), items);
      PrintedWithoutMarker(ResolveItems(items).value, EndsWithNewline(conflicted));
    }
  }
}
