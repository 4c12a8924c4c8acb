/** The source filter and the path closure of `src/guard_support.rs`. */
module GuardSupport {
  import opened Text

  // ---------- production_half ----------

  predicate IsTestAttribute(line: string) {
    StartsWith(TrimStart(line), "#[cfg(test)]")
  }

  predicate IsSkippable(line: string) {
    TrimStart(line) == "" || StartsWith(TrimStart(line), "#[")
  }

  predicate IsModule(item: string) {
    StartsWith(item, "mod ") || StartsWith(item, "pub mod ")
  }

  predicate EndsItem(item: string) {
    item != "" && item[|item| - 1] == ';'
  }

  function CountOf(s: string, c: char): int {
    if s == "" then 0 else (if s[0] == c then 1 else 0) + CountOf(s[1..], c)
  }

  /** What one line adds to the brace depth. */
  function Braces(line: string): int {
    CountOf(line, '{') - CountOf(line, '}')
  }

  /** The brace depth of `lines[lo..hi]`. */
  function Depth(lines: seq<string>, lo: nat, hi: nat): int
    requires lo <= hi <= |lines|
    decreases hi
  {
    if lo == hi then 0 else Depth(lines, lo, hi - 1) + Braces(lines[hi - 1])
  }

  /** The item an attribute guards: the first line after it that is neither blank nor another attribute. */
  function GuardedItem(lines: seq<string>, from: nat): (j: nat)
    requires from <= |lines|
    ensures from <= j <= |lines|
    decreases |lines| - from
  {
    if from == |lines| || !IsSkippable(lines[from]) then from else GuardedItem(lines, from + 1)
  }

  /** The line after the block opened at `from`: the first where the braces balance, or the end. */
  function BlockEnd(lines: seq<string>, from: nat, at: nat): (end: nat)
    requires from <= at < |lines|
    ensures at < end <= |lines|
    ensures end == |lines| || Depth(lines, from, end) <= 0
    ensures forall k :: at < k < end ==> Depth(lines, from, k) > 0
    decreases |lines| - at
  {
    if Depth(lines, from, at + 1) <= 0 || at + 1 == |lines| then at + 1 else BlockEnd(lines, from, at + 1)
  }

  /** Where the scan goes on after the attribute on line `i`. */
  function AfterAttribute(lines: seq<string>, i: nat): (next: nat)
    requires i < |lines|
    ensures i < next <= |lines|
  {
    var j := GuardedItem(lines, i + 1);
    if j == |lines| then i + 1
    else
      var item := TrimStart(lines[j]);
      if IsModule(item) && EndsItem(item) then j + 1
      else if IsModule(item) && '{' in item then BlockEnd(lines, j, j)
      else i + 1
  }

  /** The lines kept from `i` on, by number. */
  function KeptFrom(lines: seq<string>, i: nat): seq<nat>
    requires i <= |lines|
    decreases |lines| - i
  {
    if i == |lines| then []
    else if IsTestAttribute(lines[i]) then KeptFrom(lines, AfterAttribute(lines, i))
    else [i] + KeptFrom(lines, i + 1)
  }

  lemma {:induction false} KeptAreLater(lines: seq<string>, i: nat)
    requires i <= |lines|
    ensures forall k :: 0 <= k < |KeptFrom(lines, i)| ==> i <= KeptFrom(lines, i)[k] < |lines|
    decreases |lines| - i
  {
    hide IsTestAttribute, AfterAttribute;
    if i < |lines| {
      if IsTestAttribute(lines[i]) {
        KeptAreLater(lines, AfterAttribute(lines, i));
        assert KeptFrom(lines, i) == KeptFrom(lines, AfterAttribute(lines, i));
      } else {
        KeptAreLater(lines, i + 1);
        assert KeptFrom(lines, i) == [i] + KeptFrom(lines, i + 1);
      }
    }
  }

  function Pick(lines: seq<string>, kept: seq<nat>): (picked: seq<string>)
    requires forall k :: 0 <= k < |kept| ==> kept[k] < |lines|
    ensures |picked| == |kept| && forall k :: 0 <= k < |kept| ==> picked[k] == lines[kept[k]]
  {
    seq(|kept|, k requires 0 <= k < |kept| => lines[kept[k]])
  }

  function KeptLines(src: string): seq<string> {
    var lines := SplitOn(src, '\n');
    KeptAreLater(lines, 0);
    Pick(lines, KeptFrom(lines, 0))
  }

  function Production(src: string): string {
    Join(KeptLines(src), "\n")
  }

  /** `production_half`: the scan with `i`, `j`, `k` and `depth`. */
  method ProductionHalf(src: string) returns (r: string)
    ensures r == Production(src)
  {
    hide SplitOn, IsTestAttribute, AfterAttribute;
    var lines := SplitOn(src, '\n');
    var out: seq<string> := [];
    ghost var kept: seq<nat> := [];
    var i := 0;
    while i < |lines|
      invariant i <= |lines|
      invariant forall k :: 0 <= k < |kept| ==> kept[k] < |lines|
      invariant out == Pick(lines, kept) && KeptFrom(lines, 0) == kept + KeptFrom(lines, i)
      decreases |lines| - i
    {
      if IsTestAttribute(lines[i]) {
        i := SkipGuarded(lines, i);
        continue;
      }
      assert kept + ([i] + KeptFrom(lines, i + 1)) == kept + [i] + KeptFrom(lines, i + 1);
      out := out + [lines[i]];
      kept := kept + [i];
      i := i + 1;
    }
    assert kept + [] == kept;
    r := Join(out, "\n");
  }

  /** One attribute line: find the item it guards, then skip a module or only the attribute. */
  method SkipGuarded(lines: seq<string>, i: nat) returns (next: nat)
    requires i < |lines|
    ensures next == AfterAttribute(lines, i)
  {
    hide IsSkippable, IsModule, EndsItem, TrimStart, BlockEnd;
    var j := i + 1;
    while j < |lines| && IsSkippable(lines[j])
      invariant i < j <= |lines|
      invariant GuardedItem(lines, i + 1) == GuardedItem(lines, j)
    {
      j := j + 1;
    }
    if j < |lines| {
      var item := TrimStart(lines[j]);
      if IsModule(item) && EndsItem(item) {
        return j + 1;
      }
      if IsModule(item) && '{' in item {
        next := SkipBlock(lines, j);
        return;
      }
    }
    next := i + 1;
  }

  /** The brace-matching loop. */
  method SkipBlock(lines: seq<string>, j: nat) returns (k: nat)
    requires j < |lines|
    ensures k == BlockEnd(lines, j, j)
  {
    hide Braces;
    var depth := 0;
    k := j;
    while true
      invariant j <= k < |lines| && depth == Depth(lines, j, k)
      invariant BlockEnd(lines, j, j) == BlockEnd(lines, j, k)
      decreases |lines| - k
    {
      depth := depth + Braces(lines[k]);
      k := k + 1;
      if depth <= 0 || k == |lines| {
        return;
      }
    }
  }

  // ---------- What the filter keeps ----------

  lemma {:induction false} GuardedItemIsNext(lines: seq<string>, from: nat)
    requires from <= |lines|
    ensures var j := GuardedItem(lines, from);
            && (forall i :: from <= i < j ==> IsSkippable(lines[i]))
            && (j < |lines| ==> !IsSkippable(lines[j]))
    decreases |lines| - from
  {
    hide IsSkippable;
    if from < |lines| && IsSkippable(lines[from]) {
      GuardedItemIsNext(lines, from + 1);
    }
  }

  /** Line numbers of `lines` in increasing order, none of a line that starts with the test attribute. */
  predicate IsSelection(lines: seq<string>, kept: seq<nat>) {
    && (forall k :: 0 <= k < |kept| ==> kept[k] < |lines| && !IsTestAttribute(lines[kept[k]]))
    && (forall j, k :: 0 <= j < k < |kept| ==> kept[j] < kept[k])
  }

  lemma {:induction false} KeptInOrder(lines: seq<string>, i: nat)
    requires i <= |lines|
    ensures IsSelection(lines, KeptFrom(lines, i))
    decreases |lines| - i
  {
    hide IsTestAttribute, AfterAttribute;
    if i < |lines| {
      if IsTestAttribute(lines[i]) {
        KeptInOrder(lines, AfterAttribute(lines, i));
        assert KeptFrom(lines, i) == KeptFrom(lines, AfterAttribute(lines, i));
      } else {
        KeptInOrder(lines, i + 1);
        KeptAreLater(lines, i + 1);
        assert KeptFrom(lines, i) == [i] + KeptFrom(lines, i + 1);
      }
    }
  }

  predicate HasTestAttribute(lines: seq<string>) {
    exists i :: 0 <= i < |lines| && IsTestAttribute(lines[i])
  }

  lemma {:induction false} NothingToDrop(lines: seq<string>, i: nat)
    requires i <= |lines| && !HasTestAttribute(lines)
    ensures |KeptFrom(lines, i)| == |lines| - i
    ensures forall k :: 0 <= k < |lines| - i ==> KeptFrom(lines, i)[k] == i + k
    decreases |lines| - i
  {
    hide IsTestAttribute;
    if i < |lines| {
      NothingToDrop(lines, i + 1);
    }
  }

  /** What is left is split into exactly the kept lines again; nothing kept at all leaves one empty line. */
  lemma OutputLines(src: string)
    ensures SplitOn(Production(src), '\n') == if KeptLines(src) == [] then [""] else KeptLines(src)
    ensures !HasTestAttribute(SplitOn(Production(src), '\n'))
  {
    hide SplitOn, KeptFrom, IsTestAttribute, Join;
    var lines := SplitOn(src, '\n');
    var numbers := KeptFrom(lines, 0);
    var kept := KeptLines(src);
    KeptInOrder(lines, 0);
    assert forall k :: 0 <= k < |kept| ==> kept[k] == lines[numbers[k]];
    if kept == [] {
      EmptyLine();
    } else {
      SplitOnJoin(kept, '\n');
      assert SplitOn(Production(src), '\n') == kept;
    }
  }

  lemma EmptyLine()
    ensures Join([], "\n") == "" && SplitOn("", '\n') == [""] && !IsTestAttribute("")
  {
  }

  /** The output is the input's lines in order, some left out. */
  lemma OutputIsSubsequence(src: string)
    ensures exists kept: seq<nat> ::
              IsSelection(SplitOn(src, '\n'), kept) && Production(src) == Join(Pick(SplitOn(src, '\n'), kept), "\n")
  {
    hide IsTestAttribute, SplitOn, KeptFrom, Join;
    KeptInOrder(SplitOn(src, '\n'), 0);
    var kept := KeptFrom(SplitOn(src, '\n'), 0);
    assert Production(src) == Join(Pick(SplitOn(src, '\n'), kept), "\n");
  }

  /** The filter changes exactly the sources that have a test attribute at the start of a line. */
  lemma UnchangedWithoutAttribute(src: string)
    ensures Production(src) == src <==> !HasTestAttribute(SplitOn(src, '\n'))
  {
    hide SplitOn, HasTestAttribute, KeptFrom, Join;
    OutputLines(src);
    var lines := SplitOn(src, '\n');
    if !HasTestAttribute(lines) {
      NothingToDrop(lines, 0);
      assert KeptLines(src) == lines;
      JoinSplit(src, '\n');
    }
  }

  /** Filtering twice is filtering once. */
  lemma FilterIsIdempotent(src: string)
    ensures Production(Production(src)) == Production(src)
  {
    hide *;
    OutputLines(src);
    UnchangedWithoutAttribute(Production(src));
  }

  /** A line is left out only as part of what a test attribute at or above it guards. */
  lemma {:induction false} DroppedIsGuarded(lines: seq<string>, i: nat, n: nat)
    requires i <= n < |lines|
    ensures n in KeptFrom(lines, i)
            || exists a: nat :: i <= a <= n && IsTestAttribute(lines[a]) && n < AfterAttribute(lines, a)
    decreases |lines| - i
  {
    hide IsTestAttribute, AfterAttribute, KeptFrom;
    if !IsTestAttribute(lines[i]) {
      KeptHere(lines, i);
      if n == i {
        return;
      }
      DroppedIsGuarded(lines, i + 1, n);
    } else if AfterAttribute(lines, i) <= n {
      SkippedHere(lines, i);
      DroppedIsGuarded(lines, AfterAttribute(lines, i), n);
    }
  }

  /** Nothing after a guarded module is lost: past the line the scan resumes at, every line is kept or belongs to a
      later attribute. */
  lemma {:induction false} LinesBetweenAttributesAreKept(lines: seq<string>, i: nat, n: nat)
    requires i <= n < |lines| && forall k :: i <= k <= n ==> !IsTestAttribute(lines[k])
    ensures n in KeptFrom(lines, i)
    decreases n - i
  {
    hide KeptFrom, IsTestAttribute;
    KeptHere(lines, i);
    if i < n {
      LinesBetweenAttributesAreKept(lines, i + 1, n);
    }
  }

  lemma SkippedHere(lines: seq<string>, i: nat)
    requires i < |lines| && IsTestAttribute(lines[i])
    ensures KeptFrom(lines, i) == KeptFrom(lines, AfterAttribute(lines, i))
  {
    hide IsTestAttribute, AfterAttribute;
  }

  lemma KeptHere(lines: seq<string>, i: nat)
    requires i < |lines| && !IsTestAttribute(lines[i])
    ensures KeptFrom(lines, i) == [i] + KeptFrom(lines, i + 1)
  {
    hide IsTestAttribute, AfterAttribute;
  }

  // ---------- tracked_paths ----------

  function Parent(path: string): Option<string> {
    match LastIndexOf(path, '/', |path|)
    case None => None
    case Some(at) => Some(path[..at])
  }

  predicate IsWithin(file: string, path: string) {
    path == file || StartsWith(file, path + "/")
  }

  /** A path a link may point at: the root, a tracked file, or a directory that holds one. */
  ghost predicate IsTracked(files: seq<string>, path: string) {
    path == "" || exists i :: 0 <= i < |files| && IsWithin(files[i], path)
  }

  ghost predicate IsClosedBut(paths: set<string>, missing: Option<string>) {
    forall p :: p in paths && Parent(p).Some? ==> Parent(p).value in paths || missing == Parent(p)
  }

  lemma ParentIsWithin(file: string, path: string)
    requires IsWithin(file, path) && Parent(path).Some?
    ensures IsWithin(file, Parent(path).value)
  {
    var at := LastIndexOf(path, '/', |path|).value;
    assert path[..at + 1] == path[..at] + "/";
    assert file[..at + 1] == path[..at + 1];
  }

  /** A closed set that holds a path holds every directory above it. */
  lemma {:induction false} ClosedHoldsAncestors(paths: set<string>, path: string, above: string)
    requires IsClosedBut(paths, None) && path in paths && StartsWith(path, above + "/")
    ensures above in paths
    decreases |path|
  {
    var n := |above|;
    assert path[n] == (above + "/")[n] == '/' && path[..n] == (above + "/")[..n] == above;
    var at := LastSlash(path, n);
    var parent := path[..at];
    assert Parent(path) == Some(parent);
    if n < at {
      assert parent[..n + 1] == path[..n + 1] == above + "/";
      ClosedHoldsAncestors(paths, parent, above);
    }
  }

  lemma LastSlash(path: string, n: nat) returns (at: nat)
    requires n < |path| && path[n] == '/'
    ensures LastIndexOf(path, '/', |path|) == Some(at) && n <= at < |path|
  {
    var last := LastIndexOf(path, '/', |path|);
    assert path[..|path|][n] == '/';
    at := last.value;
  }

  /** `tracked_paths`: every ancestor of every file, stopping at the first one already there. */
  method TrackedPaths(files: seq<string>) returns (out: set<string>)
    ensures forall p :: p in out <==> IsTracked(files, p)
  {
    hide Parent, IsWithin;
    out := {""};
    RootHasNoParent();
    for n := 0 to |files|
      invariant "" in out && IsClosedBut(out, None)
      invariant forall p :: p in out ==> IsTracked(files, p)
      invariant forall i :: 0 <= i < n ==> files[i] in out
    {
      WithinItself(files[n]);
      out := AddAncestors(files, n, out);
    }
    forall p | IsTracked(files, p)
      ensures p in out
    {
      if p != "" {
        var i :| 0 <= i < |files| && IsWithin(files[i], p);
        WithinClosed(out, files[i], p);
      }
    }
  }

  lemma RootHasNoParent()
    ensures Parent("").None?
  {
  }

  lemma WithinItself(file: string)
    ensures IsWithin(file, file)
  {
  }

  lemma WithinClosed(paths: set<string>, file: string, path: string)
    requires IsClosedBut(paths, None) && file in paths && IsWithin(file, path)
    ensures path in paths
  {
    hide Parent;
    if path != file {
      ClosedHoldsAncestors(paths, file, path);
    }
  }

  /** The inner loop for one file. */
  method AddAncestors(files: seq<string>, n: nat, before: set<string>) returns (out: set<string>)
    requires n < |files| && IsClosedBut(before, None)
    requires forall p :: p in before ==> IsTracked(files, p)
    ensures before <= out && files[n] in out && IsClosedBut(out, None)
    ensures forall p :: p in out ==> IsTracked(files, p)
  {
    hide LastIndexOf, IsWithin;
    out := before;
    var path := files[n];
    WithinItself(files[n]);
    while true
      invariant before <= out && IsWithin(files[n], path)
      invariant forall p :: p in out ==> IsTracked(files, p)
      invariant IsClosedBut(out, Some(path))
      invariant path == files[n] || files[n] in out
      decreases |path|
    {
      if path in out {
        break;
      }
      out := out + {path};
      var slash := LastIndexOf(path, '/', |path|);
      if slash.None? {
        break;
      }
      ParentIsWithin(files[n], path);
      path := path[..slash.value];
    }
  }
}
