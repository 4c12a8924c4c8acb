/** Reading the bottom of a pane (`src/agent/detect_rules.rs`). */
module DetectRules {
  import opened Text

  // ---------- normalize ----------

  function WordEnd(text: string): (n: nat)
    ensures n <= |text|
    ensures text != "" && !IsWhitespace(text[0]) ==> n > 0
  {
    if text == "" || IsWhitespace(text[0]) then 0 else 1 + WordEnd(text[1..])
  }

  /** `split_whitespace`. */
  function WordsOf(text: string): seq<string>
    decreases |text|
  {
    var rest := TrimStart(text);
    if rest == "" then []
    else
      var n := WordEnd(rest);
      [rest[..n]] + WordsOf(rest[n..])
  }

  function Normalize(text: string): string {
    Join(WordsOf(text), " ")
  }

  lemma NormalizeIsEmptyOnlyForBlank(text: string)
    ensures Normalize(text) == "" <==> IsBlank(text)
  {
    var rest := TrimStart(text);
    if rest != "" {
      var n := WordEnd(rest);
      assert WordsOf(text)[0] == rest[..n] && |rest[..n]| > 0;
    }
  }

  // ---------- The rows that are looked at ----------

  /** The non-blank rows, in order. */
  function NonBlank(rows: seq<string>): (kept: seq<string>)
    ensures forall i :: 0 <= i < |kept| ==> !IsBlank(kept[i]) && kept[i] in rows
  {
    if rows == [] then []
    else NonBlank(rows[..|rows| - 1]) + (if IsBlank(rows[|rows| - 1]) then [] else [rows[|rows| - 1]])
  }

  function Last<T>(s: seq<T>, n: nat): seq<T> {
    if n <= |s| then s[|s| - n..] else s
  }

  /** `region_text` for the bottom `n` non-empty lines. */
  function RegionText(rows: seq<string>, n: nat): string {
    Join(Last(NonBlank(rows), n), "\n")
  }

  method RegionTextOf(rows: seq<string>, n: nat) returns (text: string)
    ensures text == RegionText(rows, n)
  {
    hide IsBlank;
    var chunk: seq<string> := [];
    var i := |rows|;
    assert rows[..i] == rows && NonBlank(rows) + [] == NonBlank(rows);
    while i > 0 && |chunk| < n
      invariant 0 <= i <= |rows| && |chunk| <= n
      invariant Last(NonBlank(rows), n) == Last(NonBlank(rows[..i]) + Reversed(chunk), n)
    {
      i := i - 1;
      assert rows[..i + 1][..i] == rows[..i];
      if !IsBlank(rows[i]) {
        assert NonBlank(rows[..i]) + ([rows[i]] + Reversed(chunk)) == NonBlank(rows[..i]) + [rows[i]] + Reversed(chunk);
        ReversedAppend(chunk, rows[i]);
        chunk := chunk + [rows[i]];
      } else {
        assert NonBlank(rows[..i]) + [] == NonBlank(rows[..i]);
      }
    }
    if i == 0 {
      assert rows[..0] == [] && [] + Reversed(chunk) == Reversed(chunk);
    } else {
      var all := NonBlank(rows[..i]) + Reversed(chunk);
      assert all[|all| - n..] == Reversed(chunk);
    }
    text := Join(Reversed(chunk), "\n");
  }

  function Reversed<T>(s: seq<T>): (r: seq<T>)
    ensures |r| == |s|
  {
    if s == [] then [] else [s[|s| - 1]] + Reversed(s[..|s| - 1])
  }

  lemma ReversedAppend<T>(s: seq<T>, x: T)
    ensures Reversed(s + [x]) == [x] + Reversed(s)
  {
    assert (s + [x])[..|s|] == s;
  }

  // ---------- footer_matches ----------

  function NormalizedRows(rows: seq<string>): (r: seq<string>)
    ensures |r| == |rows| && forall i :: 0 <= i < |rows| ==> r[i] == Normalize(rows[i])
  {
    seq(|rows|, i requires 0 <= i < |rows| => Normalize(rows[i]))
  }

  /** The last `k` rows, each normalised, joined by single spaces. */
  function Suffix(rows: seq<string>, k: nat): string
    requires k <= |rows|
  {
    Join(NormalizedRows(rows[|rows| - k..]), " ")
  }

  /** The plain reading of the rule: the footer is some number of whole non-blank rows at the end of the text. */
  ghost predicate EndsWithFooter(text: string, footer: string) {
    var rows := NonBlank(Lines(text));
    exists k: nat :: 0 < k <= |rows| && Suffix(rows, k) == footer
  }

  predicate EndsWith(s: string, suffix: string) {
    |suffix| <= |s| && s[|s| - |suffix|..] == suffix
  }

  lemma SuffixGrows(rows: seq<string>, k: nat)
    requires 0 < k <= |rows|
    ensures k == 1 ==> Suffix(rows, k) == Normalize(rows[|rows| - k])
    ensures k > 1 ==> Suffix(rows, k) == Normalize(rows[|rows| - k]) + " " + Suffix(rows, k - 1)
  {
    hide Normalize;
    var tail := NormalizedRows(rows[|rows| - k..]);
    assert tail[0] == Normalize(rows[|rows| - k]);
    if k > 1 {
      assert tail[1..] == NormalizedRows(rows[|rows| - (k - 1)..]);
    }
  }

  /** A shorter suffix ends every longer one. */
  lemma {:induction false} SuffixesNest(rows: seq<string>, j: nat, k: nat)
    requires 0 < j <= k <= |rows|
    ensures EndsWith(Suffix(rows, k), Suffix(rows, j))
    decreases k
  {
    hide Suffix, Normalize;
    if j < k {
      SuffixesNest(rows, j, k - 1);
      SuffixGrows(rows, k);
    }
  }

  /** `footer_matches`: growing the suffix row by row and stopping at the first one the footer does not end with
      decides the plain reading. */
  method FooterMatches(text: string, footer: string) returns (b: bool)
    ensures b <==> EndsWithFooter(text, footer)
  {
    hide Suffix, Normalize, NonBlank, Lines, IsBlank;
    var rows := NonBlank(Lines(text));
    var suffix := "";
    var k := 0;
    while k < |rows|
      invariant k <= |rows|
      invariant suffix == "" <==> k == 0
      invariant k > 0 ==> suffix == Suffix(rows, k)
      invariant forall j :: 0 < j <= k ==> Suffix(rows, j) != footer
    {
      var row := Normalize(rows[|rows| - 1 - k]);
      NormalizeIsEmptyOnlyForBlank(rows[|rows| - 1 - k]);
      SuffixGrows(rows, k + 1);
      suffix := if suffix == "" then row else row + " " + suffix;
      k := k + 1;
      if suffix == footer {
        return true;
      }
      if !EndsWith(footer, suffix) {
        forall j | k <= j <= |rows|
          ensures Suffix(rows, j) != footer
        {
          SuffixesNest(rows, k, j);
        }
        return false;
      }
    }
    b := false;
  }

  // ---------- Reading the region back ----------

  lemma {:induction false} NonBlankIsItself(rows: seq<string>)
    requires forall i :: 0 <= i < |rows| ==> !IsBlank(rows[i])
    ensures NonBlank(rows) == rows
  {
    hide IsBlank;
    if rows != [] {
      NonBlankIsItself(rows[..|rows| - 1]);
      assert rows == rows[..|rows| - 1] + [rows[|rows| - 1]];
    }
  }

  /** The rows a region was made of, read back from its text. */
  lemma RegionReadsBack(rows: seq<string>, n: nat)
    requires AreLines(rows)
    ensures NonBlank(Lines(RegionText(rows, n))) == Last(NonBlank(rows), n)
  {
    hide IsBlank, IsLine;
    var kept := Last(NonBlank(rows), n);
    assert forall i :: 0 <= i < |kept| ==> kept[i] in NonBlank(rows);
    NonBlankIsItself(kept);
    NonBlankLines(kept);
    LinesOfClosed(kept, false);
    assert Closed(kept, false) == Join(kept, "\n");
  }

  lemma NonBlankLines(kept: seq<string>)
    requires forall i :: 0 <= i < |kept| ==> !IsBlank(kept[i])
    ensures kept == [] || kept[|kept| - 1] != ""
  {
  }
}
