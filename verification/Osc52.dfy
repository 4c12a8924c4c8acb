/** `osc52_sequence` (`src/clipboard.rs`): the escape that asks a terminal to set the clipboard. */
module Osc52 {
  import opened Text

  const ESC: char := '\U{1b}'
  const BEL: char := '\U{07}'
  const MAX_BASE64: nat := 74_994

  // ---------- Base64, section 4 of RFC 4648 ----------

  function EncodeChar(n: nat): (c: char)
    requires n < 64
  {
    if n < 26 then ('A' as int + n) as char
    else if n < 52 then ('a' as int + n - 26) as char
    else if n < 62 then ('0' as int + n - 52) as char
    else if n == 62 then '+'
    else '/'
  }

  function DecodeChar(c: char): (r: Option<nat>)
    ensures r.Some? ==> r.value < 64
  {
    if 'A' <= c <= 'Z' then Some(c as int - 'A' as int)
    else if 'a' <= c <= 'z' then Some(c as int - 'a' as int + 26)
    else if '0' <= c <= '9' then Some(c as int - '0' as int + 52)
    else if c == '+' then Some(62)
    else if c == '/' then Some(63)
    else None
  }

  lemma CharRoundTrip(n: nat)
    requires n < 64
    ensures DecodeChar(EncodeChar(n)) == Some(n)
    ensures EncodeChar(n) != '=' && EncodeChar(n) != ESC && EncodeChar(n) != BEL
  {
  }

  lemma CharRoundTripBack(c: char)
    requires DecodeChar(c).Some?
    ensures EncodeChar(DecodeChar(c).value) == c && c != '='
  {
  }

  function Encode(bytes: seq<Byte>): (s: string)
    ensures |s| == 4 * ((|bytes| + 2) / 3)
  {
    if bytes == [] then ""
    else if |bytes| == 1 then
      [EncodeChar(bytes[0] / 4), EncodeChar(bytes[0] % 4 * 16), '=', '=']
    else if |bytes| == 2 then
      [EncodeChar(bytes[0] / 4), EncodeChar(bytes[0] % 4 * 16 + bytes[1] / 16), EncodeChar(bytes[1] % 16 * 4), '=']
    else
      [EncodeChar(bytes[0] / 4), EncodeChar(bytes[0] % 4 * 16 + bytes[1] / 16),
       EncodeChar(bytes[1] % 16 * 4 + bytes[2] / 64), EncodeChar(bytes[2] % 64)] + Encode(bytes[3..])
  }

  /** The three bytes that four six-bit values make. */
  function Pack(a: nat, b: nat, c: nat, d: nat): seq<Byte>
    requires a < 64 && b < 64 && c < 64 && d < 64
  {
    [a * 4 + b / 16, b % 16 * 16 + c / 4, c % 4 * 64 + d]
  }

  /** A strict decoder: whole groups of four, padding only at the end, unused bits zero. */
  function Decode(s: string): Option<seq<Byte>> {
    if s == "" then Some([])
    else if |s| < 4 then None
    else
      var a, b, c, d := DecodeChar(s[0]), DecodeChar(s[1]), DecodeChar(s[2]), DecodeChar(s[3]);
      if a.None? || b.None? then None
      else if s[2] == '=' then
        if |s| == 4 && s[3] == '=' && b.value % 16 == 0 then Some([a.value * 4 + b.value / 16]) else None
      else if c.None? then None
      else if s[3] == '=' then
        if |s| == 4 && c.value % 4 == 0
        then Some([a.value * 4 + b.value / 16, b.value % 16 * 16 + c.value / 4]) else None
      else if d.None? then None
      else
        match Decode(s[4..])
        case None => None
        case Some(rest) =>
          Some(Pack(a.value, b.value, c.value, d.value) + rest)
  }

  /** Three bytes as four six-bit values, and back. */
  lemma PackUnpack(b0: Byte, b1: Byte, b2: Byte)
    ensures b0 / 4 * 4 + (b0 % 4 * 16 + b1 / 16) / 16 == b0
    ensures (b0 % 4 * 16 + b1 / 16) % 16 * 16 + (b1 % 16 * 4 + b2 / 64) / 4 == b1
    ensures (b1 % 16 * 4 + b2 / 64) % 4 * 64 + b2 % 64 == b2
    ensures b0 % 4 * 16 % 16 == 0 && b0 % 4 * 16 / 16 == b0 % 4
    ensures b1 % 16 * 4 % 4 == 0 && b1 % 16 * 4 / 4 == b1 % 16
  {
  }

  lemma UnpackPack(a: nat, b: nat, c: nat, d: nat)
    requires a < 64 && b < 64 && c < 64 && d < 64
    ensures (a * 4 + b / 16) / 4 == a
    ensures (a * 4 + b / 16) % 4 * 16 + (b % 16 * 16 + c / 4) / 16 == b
    ensures (b % 16 * 16 + c / 4) % 16 * 4 + (c % 4 * 64 + d) / 64 == c
    ensures (c % 4 * 64 + d) % 64 == d
    ensures b % 16 == 0 ==> (a * 4 + b / 16) % 4 * 16 == b
    ensures c % 4 == 0 ==> (b % 16 * 16 + c / 4) % 16 * 4 == c
  {
  }

  lemma DecodeShort(b0: Byte, b1: Byte)
    ensures Decode(Encode([b0])) == Some([b0])
    ensures Decode(Encode([b0, b1])) == Some([b0, b1])
  {
    hide EncodeChar, DecodeChar;
    PackUnpack(b0, b1, 0);
    CharRoundTrip(b0 / 4);
    CharRoundTrip(b0 % 4 * 16);
    CharRoundTrip(b0 % 4 * 16 + b1 / 16);
    CharRoundTrip(b1 % 16 * 4);
  }

  lemma DecodeGroup(b0: Byte, b1: Byte, b2: Byte, rest: string)
    requires Decode(rest).Some?
    ensures Decode([EncodeChar(b0 / 4), EncodeChar(b0 % 4 * 16 + b1 / 16),
                    EncodeChar(b1 % 16 * 4 + b2 / 64), EncodeChar(b2 % 64)] + rest)
         == Some([b0, b1, b2] + Decode(rest).value)
  {
    hide EncodeChar, DecodeChar;
    PackUnpack(b0, b1, b2);
    CharRoundTrip(b0 / 4);
    CharRoundTrip(b0 % 4 * 16 + b1 / 16);
    CharRoundTrip(b1 % 16 * 4 + b2 / 64);
    CharRoundTrip(b2 % 64);
  }

  lemma {:induction false} DecodeEncode(bytes: seq<Byte>)
    ensures Decode(Encode(bytes)) == Some(bytes)
  {
    hide EncodeChar, Decode;
    if bytes == [] {
      assert Decode("") == Some([]) by { DecodeNothing(); }
    } else if |bytes| == 1 {
      DecodeShort(bytes[0], 0);
      assert bytes == [bytes[0]];
    } else if |bytes| == 2 {
      DecodeShort(bytes[0], bytes[1]);
      assert bytes == [bytes[0], bytes[1]];
    } else {
      DecodeEncode(bytes[3..]);
      DecodeGroup(bytes[0], bytes[1], bytes[2], Encode(bytes[3..]));
      assert bytes == [bytes[0], bytes[1], bytes[2]] + bytes[3..];
    }
  }

  lemma DecodeNothing()
    ensures Decode("") == Some([])
  {
  }

  lemma EncodeLastGroup(s: string)
    requires |s| == 4 && s[3] == '=' && Decode(s).Some?
    ensures Encode(Decode(s).value) == s
  {
    hide EncodeChar, DecodeChar;
    var a, b := DecodeChar(s[0]).value, DecodeChar(s[1]).value;
    var c := if s[2] == '=' then 0 else DecodeChar(s[2]).value;
    UnpackPack(a, b, c, 0);
    CharRoundTripBack(s[0]);
    CharRoundTripBack(s[1]);
    if s[2] != '=' {
      CharRoundTripBack(s[2]);
    }
    assert s == [s[0], s[1], s[2], s[3]];
  }

  function Value(c: char): (n: nat)
    ensures n < 64
  {
    if DecodeChar(c).Some? then DecodeChar(c).value else 0
  }

  lemma DecodeFullGroup(s: string)
    requires |s| >= 4 && Decode(s).Some? && s[3] != '='
    ensures DecodeChar(s[0]).Some? && DecodeChar(s[1]).Some? && DecodeChar(s[2]).Some? && DecodeChar(s[3]).Some?
    ensures Decode(s[4..]).Some?
    ensures Decode(s).value == Pack(Value(s[0]), Value(s[1]), Value(s[2]), Value(s[3])) + Decode(s[4..]).value
  {
    hide DecodeChar, Pack;
  }

  lemma EncodePacked(a: nat, b: nat, c: nat, d: nat, rest: seq<Byte>)
    requires a < 64 && b < 64 && c < 64 && d < 64
    ensures Encode(Pack(a, b, c, d) + rest)
         == [EncodeChar(a), EncodeChar(b), EncodeChar(c), EncodeChar(d)] + Encode(rest)
  {
    hide EncodeChar;
    UnpackPack(a, b, c, d);
    assert (Pack(a, b, c, d) + rest)[3..] == rest;
  }

  lemma EncodeValue(c: char)
    requires DecodeChar(c).Some?
    ensures EncodeChar(Value(c)) == c
  {
    CharRoundTripBack(c);
  }

  /** The encoding is the only text the strict decoder turns into these bytes. */
  lemma {:induction false} EncodeDecode(s: string)
    requires Decode(s).Some?
    ensures Encode(Decode(s).value) == s
    decreases |s|
  {
    hide EncodeChar, DecodeChar, Pack, Value, Encode;
    if s == "" {
      EncodeNothing();
    } else if s[3] == '=' {
      EncodeLastGroup(s);
    } else {
      EncodeDecodeGroup(s);
      EncodeDecode(s[4..]);
      assert s == [s[0], s[1], s[2], s[3]] + s[4..];
    }
  }

  lemma EncodeDecodeGroup(s: string)
    requires |s| >= 4 && Decode(s).Some? && s[3] != '='
    ensures Decode(s[4..]).Some?
    ensures Encode(Decode(s).value) == [s[0], s[1], s[2], s[3]] + Encode(Decode(s[4..]).value)
  {
    hide EncodeChar, DecodeChar, Pack, Value, Encode, Decode;
    DecodeFullGroup(s);
    EncodePacked(Value(s[0]), Value(s[1]), Value(s[2]), Value(s[3]), Decode(s[4..]).value);
    EncodeValue(s[0]);
    EncodeValue(s[1]);
    EncodeValue(s[2]);
    EncodeValue(s[3]);
  }

  lemma EncodeNothing()
    ensures Encode([]) == ""
  {
  }

  predicate IsClean(s: string) {
    ESC !in s && BEL !in s
  }

  lemma {:induction false} EncodingIsClean(bytes: seq<Byte>)
    ensures IsClean(Encode(bytes))
  {
    if bytes != [] {
      CharRoundTrip(bytes[0] / 4);
      if |bytes| == 1 {
        CharRoundTrip(bytes[0] % 4 * 16);
      } else {
        CharRoundTrip(bytes[0] % 4 * 16 + bytes[1] / 16);
        if |bytes| == 2 {
          CharRoundTrip(bytes[1] % 16 * 4);
        } else {
          CharRoundTrip(bytes[1] % 16 * 4 + bytes[2] / 64);
          CharRoundTrip(bytes[2] % 64);
          EncodingIsClean(bytes[3..]);
        }
      }
    }
  }

  // ---------- The sequence ----------

  function DoubleEscapes(s: string): string {
    if s == "" then "" else (if s[0] == ESC then [ESC, ESC] else [s[0]]) + DoubleEscapes(s[1..])
  }

  const OPEN: string := [ESC] + "]52;c;"
  const TMUX_OPEN: string := [ESC] + "Ptmux;"
  const TMUX_CLOSE: string := [ESC, '\\']

  /** The refusal carries the encoded length, as the message does. */
  function Sequence(text: seq<Byte>, inTmux: bool): Result<string, nat> {
    var encoded := Encode(text);
    if |encoded| > MAX_BASE64 then Err(|encoded|)
    else
      var inner := OPEN + encoded + [BEL];
      Ok(if inTmux then TMUX_OPEN + DoubleEscapes(inner) + TMUX_CLOSE else inner)
  }

  // ---------- What receives it ----------

  /** A terminal reading an OSC 52: the payload up to the first BEL, and what follows. */
  function ReadOsc52(s: string): Option<(string, string)> {
    if !StartsWith(s, OPEN) then None
    else
      match IndexOf(s, BEL, |OPEN|)
      case None => None
      case Some(end) => Some((s[|OPEN|..end], s[end + 1..]))
  }

  /** tmux inside its passthrough: a doubled escape is one escape, an escape and a backslash end it. */
  function ReadPassthrough(s: string): Option<(string, string)> {
    if s == "" then None
    else if s[0] != ESC then Consed(s[0], ReadPassthrough(s[1..]))
    else if |s| == 1 then None
    else if s[1] == '\\' then Some(("", s[2..]))
    else if s[1] == ESC then Consed(ESC, ReadPassthrough(s[2..]))
    else None
  }

  function Consed(c: char, r: Option<(string, string)>): Option<(string, string)> {
    if r.None? then None else Some(([c] + r.value.0, r.value.1))
  }

  function ReadTmux(s: string): Option<(string, string)> {
    if StartsWith(s, TMUX_OPEN) then ReadPassthrough(s[|TMUX_OPEN|..]) else None
  }

  lemma {:induction false} PassthroughRoundTrip(inner: string, after: string)
    ensures ReadPassthrough(DoubleEscapes(inner) + TMUX_CLOSE + after) == Some((inner, after))
    decreases |inner|
  {
    var s := DoubleEscapes(inner) + TMUX_CLOSE + after;
    if inner == "" {
      assert s == TMUX_CLOSE + after;
      assert s[2..] == after;
    } else {
      var rest := DoubleEscapes(inner[1..]) + TMUX_CLOSE + after;
      PassthroughRoundTrip(inner[1..], after);
      assert inner == [inner[0]] + inner[1..];
      if inner[0] == ESC {
        assert s == [ESC, ESC] + rest;
        assert s[2..] == rest;
      } else {
        assert s == [inner[0]] + rest;
        assert s[1..] == rest;
      }
    }
  }

  /** Refused exactly when four characters for every three bytes, rounded up, exceed the limit. */
  lemma RefusedExactlyWhenTooLong(text: seq<Byte>, inTmux: bool)
    ensures Sequence(text, inTmux).Err? <==> 4 * ((|text| + 2) / 3) > MAX_BASE64
    ensures Sequence(text, inTmux).Err? <==> |text| > 56_244
  {
  }

  /** A terminal reads the plain sequence, whatever bytes follow it, as a payload that decodes to the text. */
  lemma PlainRoundTrip(text: seq<Byte>, after: string)
    requires Sequence(text, false).Ok?
    ensures ReadOsc52(Sequence(text, false).value + after) == Some((Encode(text), after))
    ensures Decode(Encode(text)) == Some(text)
  {
    hide Decode, Encode;
    DecodeEncode(text);
    EncodingIsClean(text);
    var payload := Encode(text);
    var s := Sequence(text, false).value + after;
    assert s == OPEN + payload + [BEL] + after;
    var n := |OPEN| + |payload|;
    assert s[|OPEN|..n] == payload && s[n + 1..] == after;
    IndexOfIs(s, BEL, |OPEN|, n);
  }

  /** tmux, whatever follows, takes the wrapped sequence as a passthrough of exactly the plain one. */
  lemma TmuxRoundTrip(text: seq<Byte>, after: string)
    requires Sequence(text, true).Ok?
    ensures Sequence(text, false).Ok?
    ensures ReadTmux(Sequence(text, true).value + after) == Some((Sequence(text, false).value, after))
  {
    var inner := Sequence(text, false).value;
    var s := Sequence(text, true).value + after;
    assert s == TMUX_OPEN + (DoubleEscapes(inner) + TMUX_CLOSE + after);
    assert s[|TMUX_OPEN|..] == DoubleEscapes(inner) + TMUX_CLOSE + after;
    PassthroughRoundTrip(inner, after);
  }
}
