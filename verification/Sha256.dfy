/** The SHA-256 of `crates/spyc-vt-sys/build.rs`, which checks every vendored archive before linking it. */
module Sha256 {
  import opened Text
  import opened Fips180

  // ---------- Bytes, bits and numbers ----------

  function BitsOf(bytes: seq<Byte>): (s: Bits)
    ensures |s| == 8 * |bytes|
  {
    if bytes == [] then [] else BitsOf(bytes[..|bytes| - 1]) + Binary(bytes[|bytes| - 1], 8)
  }

  /** `to_be_bytes`: the `k` low bytes of `n`, most significant first. */
  function BigEndian(n: nat, k: nat): (s: seq<Byte>)
    ensures |s| == k
  {
    if k == 0 then [] else BigEndian(n / 256, k - 1) + [n % 256]
  }

  function FromBigEndian(s: seq<Byte>): nat {
    if s == [] then 0 else 256 * FromBigEndian(s[..|s| - 1]) + s[|s| - 1]
  }

  function WordValue(b0: int, b1: int, b2: int, b3: int): int {
    0x100_0000 * b0 + 0x1_0000 * b1 + 0x100 * b2 + b3
  }

  /** `u32::from_be_bytes`. */
  function WordOf(b0: Byte, b1: Byte, b2: Byte, b3: Byte): Word {
    WordValue(b0, b1, b2, b3) as Word
  }

  lemma {:induction false} BitsOfConcat(a: seq<Byte>, b: seq<Byte>)
    ensures BitsOf(a + b) == BitsOf(a) + BitsOf(b)
  {
    hide Binary;
    if b == [] {
      assert a + b == a;
    } else {
      assert (a + b)[..|a + b| - 1] == a + b[..|b| - 1];
      BitsOfConcat(a, b[..|b| - 1]);
    }
  }

  lemma {:induction false} BitsOfSlice(s: seq<Byte>, lo: nat, hi: nat)
    requires lo <= hi <= |s|
    ensures BitsOf(s[lo..hi]) == BitsOf(s)[8 * lo..8 * hi]
  {
    assert s == s[..lo] + s[lo..hi] + s[hi..];
    BitsOfConcat(s[..lo] + s[lo..hi], s[hi..]);
    BitsOfConcat(s[..lo], s[lo..hi]);
  }

  function Shift(n: nat, k: nat): nat {
    if k == 0 then n else Shift(n / 2, k - 1)
  }

  lemma Shift4(n: nat)
    ensures Shift(n, 4) == n / 16
    ensures Shift(n, 8) == Shift(n / 16, 4)
  {
    var n1, n2, n3 := n / 2, n / 2 / 2, n / 2 / 2 / 2;
    assert n3 / 2 == n / 16;
    assert Shift(n, 4) == Shift(n1, 3) == Shift(n2, 2) == Shift(n3, 1) == Shift(n / 16, 0);
    assert Shift(n, 8) == Shift(n1, 7) == Shift(n2, 6) == Shift(n3, 5) == Shift(n / 16, 4);
  }

  lemma {:induction false} BinarySplit(n: nat, high: nat, low: nat)
    ensures Binary(n, high + low) == Binary(Shift(n, low), high) + Binary(n, low)
  {
    if low > 0 {
      BinarySplit(n / 2, high, low - 1);
      assert Binary(n, high + low) == Binary(n / 2, high + low - 1) + [n % 2 == 1];
    }
  }

  lemma {:induction false} BinaryWraps(n: nat, width: nat)
    ensures Binary(n + Pow2(width), width) == Binary(n, width)
  {
    if width > 0 {
      BinaryWraps(n / 2, width - 1);
      assert (n + Pow2(width)) / 2 == n / 2 + Pow2(width - 1);
    }
  }

  lemma {:induction false} BinaryWrapsOften(q: nat, r: nat)
    ensures Binary(256 * q + r, 8) == Binary(r, 8)
  {
    if q > 0 {
      BinaryWrapsOften(q - 1, r);
      Pow2Of32();
      BinaryWraps(256 * (q - 1) + r, 8);
      assert 256 * (q - 1) + r + 256 == 256 * q + r;
    }
  }

  /** Eight bits keep `n` modulo 256 and nothing else. */
  lemma BinaryByte(n: nat)
    ensures Binary(n % 256, 8) == Binary(n, 8)
  {
    BinaryWrapsOften(n / 256, n % 256);
    assert 256 * (n / 256) + n % 256 == n;
  }

  lemma {:induction false} ValueBinary(n: nat, width: nat)
    requires n < Pow2(width)
    ensures Value(Binary(n, width)) == n
  {
    if width > 0 {
      ValueBinary(n / 2, width - 1);
      assert Binary(n, width)[..width - 1] == Binary(n / 2, width - 1);
    }
  }

  lemma {:induction false} ValueConcat(a: Bits, b: Bits)
    ensures Value(a + b) == Pow2(|b|) * Value(a) + Value(b)
  {
    if b == [] {
      assert a + b == a;
    } else {
      assert (a + b)[..|a + b| - 1] == a + b[..|b| - 1];
      var front := b[..|b| - 1];
      ValueConcat(a, front);
      var bit := if b[|b| - 1] then 1 else 0;
      assert Value(a + b) == 2 * Value(a + front) + bit;
      assert Pow2(|b|) * Value(a) == 2 * (Pow2(|front|) * Value(a)) by {
        MulTwo(Pow2(|front|), Value(a));
      }
    }
  }

  lemma MulTwo(x: int, y: int)
    ensures 2 * x * y == 2 * (x * y)
  {
  }

  lemma BitsOfByte(b: Byte)
    ensures BitsOf([b]) == Binary(b, 8)
  {
    assert [b][..0] == [];
  }

  lemma ValueOfByte(b: Byte)
    ensures Value(BitsOf([b])) == b
  {
    BitsOfByte(b);
    Pow2Of32();
    ValueBinary(b, 8);
  }

  lemma ValueOfBytes(a: seq<Byte>, b: Byte)
    ensures Value(BitsOf(a + [b])) == 256 * Value(BitsOf(a)) + b
  {
    BitsOfConcat(a, [b]);
    ValueConcat(BitsOf(a), BitsOf([b]));
    ValueOfByte(b);
    Pow2Of32();
  }

  /** Four bytes read big-endian are the word their 32 bits denote. */
  lemma WordOfBits(b0: Byte, b1: Byte, b2: Byte, b3: Byte)
    ensures Value(BitsOf([b0, b1, b2, b3])) == WordValue(b0, b1, b2, b3)
  {
    ValueOfByte(b0);
    ValueOfBytes([b0], b1);
    ValueOfBytes([b0, b1], b2);
    ValueOfBytes([b0, b1, b2], b3);
    assert [b0] + [b1] == [b0, b1] && [b0, b1] + [b2] == [b0, b1, b2] && [b0, b1, b2] + [b3] == [b0, b1, b2, b3];
  }

  lemma BinarySplitByte(n: nat, high: nat)
    ensures Binary(n, high + 8) == Binary(n / 256, high) + Binary(n % 256, 8)
  {
    hide *;
    Shift4(n);
    Shift4(n / 16);
    assert n / 16 / 16 == n / 256;
    BinarySplit(n, high, 8);
    BinaryByte(n);
  }

  lemma {:induction false} BigEndianBits(n: nat, k: nat)
    ensures BitsOf(BigEndian(n, k)) == Binary(n, 8 * k)
  {
    if k > 0 {
      hide Binary;
      BigEndianBits(n / 256, k - 1);
      BinarySplitByte(n, 8 * (k - 1));
    }
  }

  lemma {:induction false} BigEndianRoundTrip(n: nat, k: nat)
    requires n < Pow2(8 * k)
    ensures FromBigEndian(BigEndian(n, k)) == n
  {
    if k > 0 {
      Pow2Of32();
      Pow2Times256(8 * (k - 1));
      BigEndianRoundTrip(n / 256, k - 1);
    }
  }

  lemma Pow2Times256(k: nat)
    ensures Pow2(k + 8) == 256 * Pow2(k)
  {
    assert Pow2(k + 2) == 4 * Pow2(k);
    assert Pow2(k + 4) == 4 * Pow2(k + 2);
    assert Pow2(k + 6) == 4 * Pow2(k + 4);
    assert Pow2(k + 8) == 4 * Pow2(k + 6);
  }

  // ---------- Padding ----------

  function ZeroBytes(z: nat): (s: seq<Byte>)
    ensures |s| == z
  {
    seq(z, _ => 0)
  }

  function PadZeros(n: nat): nat {
    (55 - n) % 64
  }

  lemma PadZerosFit(n: nat)
    ensures (n + 1 + PadZeros(n) + 8) % 64 == 0
  {
    assert n + 1 + PadZeros(n) + 8 == 64 * (1 - (55 - n) / 64);
  }

  /** The message the program hashes: one 0x80 byte, zero bytes, and the bit length. */
  function Padded(m: seq<Byte>): (p: seq<Byte>)
    ensures |p| == |m| + 1 + PadZeros(|m|) + 8
    ensures |p| % 64 == 0
  {
    PadZerosFit(|m|);
    m + [0x80] + ZeroBytes(PadZeros(|m|)) + BigEndian(8 * |m|, 8)
  }

  lemma {:induction false} BitsOfZeroBytes(z: nat)
    ensures BitsOf(ZeroBytes(z)) == Zeros(8 * z)
  {
    if z > 0 {
      assert ZeroBytes(z)[..z - 1] == ZeroBytes(z - 1);
      BitsOfZeroBytes(z - 1);
      BinaryOfZero(8);
    }
  }

  lemma {:induction false} BinaryOfZero(width: nat)
    ensures Binary(0, width) == Zeros(width)
  {
    if width > 0 {
      BinaryOfZero(width - 1);
    }
  }

  lemma BitsOf0x80()
    ensures BitsOf([0x80]) == [true] + Zeros(7)
  {
    BitsOfByte(0x80);
    assert Binary(0x80, 8) == [true] + Zeros(7);
  }

  lemma PadZerosAreFips(n: nat)
    ensures ZeroCount(8 * n) == 7 + 8 * PadZeros(n)
  {
    var blocks, zeros := (55 - n) / 64, (55 - n) % 64;
    assert 447 - 8 * n == 512 * blocks + (8 * zeros + 7);
  }

  lemma JoinZeros(head: Bits, y: nat, z: nat, tail: Bits)
    ensures head + ([true] + Zeros(y)) + Zeros(z) + tail == head + [true] + Zeros(y + z) + tail
  {
    assert Zeros(y) + Zeros(z) == Zeros(y + z);
    assert head + ([true] + Zeros(y)) + Zeros(z) == head + [true] + (Zeros(y) + Zeros(z));
  }

  /** The program's byte padding is the bit padding of section 5.1.1. */
  lemma PaddingIsFips(m: seq<Byte>)
    ensures BitsOf(Padded(m)) == Pad(BitsOf(m))
  {
    hide BitsOf, Binary, BigEndian, Zeros, ZeroBytes;
    var z := PadZeros(|m|);
    BitsOfConcat(m + [0x80] + ZeroBytes(z), BigEndian(8 * |m|, 8));
    BitsOfConcat(m + [0x80], ZeroBytes(z));
    BitsOfConcat(m, [0x80]);
    BitsOf0x80();
    BitsOfZeroBytes(z);
    BigEndianBits(8 * |m|, 8);
    PadZerosAreFips(|m|);
    JoinZeros(BitsOf(m), 7, 8 * z, Binary(8 * |m|, 64));
  }

  /** No shorter whole number of 64-byte blocks holds the message, the 0x80 byte and the length. */
  lemma PaddingIsLeast(m: seq<Byte>, blocks: nat)
    requires 64 * blocks >= |m| + 1 + 8
    ensures |Padded(m)| <= 64 * blocks
  {
  }

  /** The message a padded form came from. */
  function Unpadded(p: seq<Byte>): (m: seq<Byte>)
    requires |p| >= 8
  {
    var n := FromBigEndian(p[|p| - 8..]) / 8;
    if n <= |p| then p[..n] else []
  }

  lemma UnpadPad(m: seq<Byte>)
    requires |m| < 0x2000_0000_0000_0000
    ensures Unpadded(Padded(m)) == m
  {
    var p := Padded(m);
    assert p[|p| - 8..] == BigEndian(8 * |m|, 8);
    Pow2Of32();
    Pow2Times256(32);
    Pow2Times256(40);
    Pow2Times256(48);
    Pow2Times256(56);
    BigEndianRoundTrip(8 * |m|, 8);
  }

  // ---------- The computation ----------

  /** The words `t` of a 64-byte chunk, as the program reads them. */
  function ChunkWord(chunk: seq<Byte>, t: nat): Word
    requires |chunk| == 64 && t < 16
  {
    WordOf(chunk[4 * t], chunk[4 * t + 1], chunk[4 * t + 2], chunk[4 * t + 3])
  }

  lemma ChunkWordBits(chunk: seq<Byte>, t: nat)
    requires |chunk| == 64 && t < 16
    ensures Value(BitsOf(chunk)[32 * t..32 * t + 32])
         == WordValue(chunk[4 * t], chunk[4 * t + 1], chunk[4 * t + 2], chunk[4 * t + 3])
  {
    hide Value, BitsOf, Pow2;
    BitsOfSlice(chunk, 4 * t, 4 * t + 4);
    var b0, b1, b2, b3 := chunk[4 * t], chunk[4 * t + 1], chunk[4 * t + 2], chunk[4 * t + 3];
    assert chunk[4 * t..4 * t + 4] == [b0, b1, b2, b3];
    WordOfBits(b0, b1, b2, b3);
  }

  lemma ChunkWordIsFips(chunk: seq<Byte>, t: nat)
    requires |chunk| == 64 && t < 16
    ensures ChunkWord(chunk, t) == BlockWord(BitsOf(chunk), t)
  {
    hide Value, BitsOf, Pow2;
    ChunkWordBits(chunk, t);
  }

  // The rotations as the program writes them; `SigmasAreFips` ties each to section 4.1.2.

  function UpperSigma0(x: Word): Word {
    Xor3(x.RotateRight(2), x.RotateRight(13), x.RotateRight(22))
  }

  function UpperSigma1(x: Word): Word {
    Xor3(x.RotateRight(6), x.RotateRight(11), x.RotateRight(25))
  }

  function LowerSigma0(x: Word): Word {
    Xor3(x.RotateRight(7), x.RotateRight(18), x >> 3)
  }

  function LowerSigma1(x: Word): Word {
    Xor3(x.RotateRight(17), x.RotateRight(19), x >> 10)
  }

  lemma RotateIsRotr(x: Word)
    ensures x.RotateRight(2) == Rotr(2, x) && x.RotateRight(13) == Rotr(13, x) && x.RotateRight(22) == Rotr(22, x)
    ensures x.RotateRight(6) == Rotr(6, x) && x.RotateRight(11) == Rotr(11, x) && x.RotateRight(25) == Rotr(25, x)
    ensures x.RotateRight(7) == Rotr(7, x) && x.RotateRight(18) == Rotr(18, x)
    ensures x.RotateRight(17) == Rotr(17, x) && x.RotateRight(19) == Rotr(19, x)
  {
  }

  lemma SigmasAreFips(x: Word)
    ensures UpperSigma0(x) == BigSigma0(x) && UpperSigma1(x) == BigSigma1(x)
    ensures LowerSigma0(x) == SmallSigma0(x) && LowerSigma1(x) == SmallSigma1(x)
  {
    hide Rotr, Xor3;
    RotateIsRotr(x);
  }

  lemma ReorderSum(a: Word, b: Word, c: Word, d: Word)
    ensures Sum4(a, b, c, d) == Sum4(d, c, b, a)
  {
  }

  lemma SumCommutes(a: Word, b: Word)
    ensures Add(a, b) == Add(b, a)
  {
  }

  /** The recurrence of step 1 in the program's order and with the program's rotations. */
  lemma ScheduleStep(m: seq<Word>, t: nat)
    requires |m| == 16 && t >= 16
    ensures Schedule(m, t) == Sum4(Schedule(m, t - 16), LowerSigma0(Schedule(m, t - 15)), Schedule(m, t - 7),
                                   LowerSigma1(Schedule(m, t - 2)))
  {
    hide Sum4, LowerSigma0, LowerSigma1, SmallSigma0, SmallSigma1;
    SigmasAreFips(Schedule(m, t - 15));
    SigmasAreFips(Schedule(m, t - 2));
    ReorderSum(SmallSigma1(Schedule(m, t - 2)), Schedule(m, t - 7), SmallSigma0(Schedule(m, t - 15)),
               Schedule(m, t - 16));
  }

  /** Fills the message schedule in place: sixteen words read from the chunk, the rest from those before. */
  method ExpandSchedule(chunk: seq<Byte>) returns (w: array<Word>)
    requires |chunk| == 64
    ensures fresh(w) && w.Length == 64
    ensures forall t :: 0 <= t < 64 ==> w[t] == Schedule(BlockWords(BitsOf(chunk)), t)
  {
    hide Sum4, WordOf, BlockWord, LowerSigma0, LowerSigma1, BitsOf;
    ghost var m := BlockWords(BitsOf(chunk));
    w := new Word[64](_ => 0);
    for i := 0 to 16
      invariant forall t :: 0 <= t < i ==> w[t] == Schedule(m, t)
    {
      ChunkWordIsFips(chunk, i);
      assert Schedule(m, i) == m[i];
      w[i] := WordOf(chunk[4 * i], chunk[4 * i + 1], chunk[4 * i + 2], chunk[4 * i + 3]);
    }
    ExtendSchedule(w, m);
  }

  method ExtendSchedule(w: array<Word>, ghost m: seq<Word>)
    requires w.Length == 64 && |m| == 16
    requires forall t :: 0 <= t < 16 ==> w[t] == Schedule(m, t)
    modifies w
    ensures forall t :: 0 <= t < 64 ==> w[t] == Schedule(m, t)
  {
    hide *;
    for i := 16 to 64
      invariant forall t :: 0 <= t < i ==> w[t] == Schedule(m, t)
    {
      ScheduleStep(m, i);
      var s0 := LowerSigma0(w[i - 15]);
      var s1 := LowerSigma1(w[i - 2]);
      w[i] := Sum4(w[i - 16], s0, w[i - 7], s1);
    }
  }

  /** One round on the eight working variables, as the program writes it. */
  method RunRound(v: seq<Word>, k: Word, w: Word, ghost s: Hash) returns (next: seq<Word>)
    requires |v| == 8 && v == s.Words()
    ensures |next| == 8 && next == Round(s, k, w).Words()
  {
    hide Add, Sum5, Ch, Maj, BigSigma0, BigSigma1, SmallSigma0, SmallSigma1;
    hide UpperSigma0, UpperSigma1, LowerSigma0, LowerSigma1;
    SigmasAreFips(v[4]);
    SigmasAreFips(v[0]);
    var s1 := UpperSigma1(v[4]);
    var ch := Ch(v[4], v[5], v[6]);
    var t1 := Sum5(v[7], s1, ch, k, w);
    var s0 := UpperSigma0(v[0]);
    var maj := Maj(v[0], v[1], v[2]);
    var t2 := Add(s0, maj);
    next := [Add(t1, t2), v[0], v[1], v[2], Add(v[3], t1), v[4], v[5], v[6]];
  }

  /** The sixty-four rounds over one chunk, from a copy of the running hash. */
  method RunRounds(h: array<Word>, chunk: seq<Byte>, ghost start: Hash) returns (v: seq<Word>)
    requires h.Length == 8 && |chunk| == 64
    requires h[..] == start.Words()
    ensures |v| == 8 && v == Rounds(start, BlockWords(BitsOf(chunk)), 64).Words()
  {
    hide Round, BlockWord, Schedule, BitsOf, K;
    ghost var m := BlockWords(BitsOf(chunk));
    var w := ExpandSchedule(chunk);
    v := h[..];
    for i := 0 to 64
      modifies {}
      invariant |v| == 8 && v == Rounds(start, m, i).Words()
    {
      v := RunRound(v, K(i), w[i], Rounds(start, m, i));
    }
  }

  /** One chunk: the rounds, then the running hash is updated in place. */
  method CompressChunk(h: array<Word>, chunk: seq<Byte>, ghost start: Hash)
    requires h.Length == 8 && |chunk| == 64
    requires h[..] == start.Words()
    modifies h
    ensures h[..] == Compress(start, BlockWords(BitsOf(chunk))).Words()
  {
    hide Add, Rounds, BlockWords, BitsOf, Combine;
    var v := RunRounds(h, chunk, start);
    ghost var end := Rounds(start, BlockWords(BitsOf(chunk)), 64);
    AddInPlace(h, v);
    CombineAdds(end, start);
  }

  /** The loop that adds the working variables to the running hash. */
  method AddInPlace(h: array<Word>, v: seq<Word>)
    requires h.Length == |v| == 8
    modifies h
    ensures forall t :: 0 <= t < 8 ==> h[t] == Add(v[t], old(h[t]))
  {
    hide Add;
    for j := 0 to 8
      invariant forall t :: 0 <= t < j ==> h[t] == Add(v[t], old(h[t]))
      invariant forall t :: j <= t < 8 ==> h[t] == old(h[t])
    {
      SumCommutes(h[j], v[j]);
      h[j] := Add(h[j], v[j]);
    }
  }

  lemma CombineAdds(s: Hash, prev: Hash)
    ensures forall t :: 0 <= t < 8 ==> Combine(s, prev).Words()[t] == Add(s.Words()[t], prev.Words()[t])
  {
    hide Add;
    WordsAre(s);
    WordsAre(prev);
    WordsAre(Combine(s, prev));
    hide Hash.Words;
  }

  lemma WordsAre(s: Hash)
    ensures var ws := s.Words();
            && ws[0] == s.a && ws[1] == s.b && ws[2] == s.c && ws[3] == s.d
            && ws[4] == s.e && ws[5] == s.f && ws[6] == s.g && ws[7] == s.h
  {
  }

  lemma BlockOfPadded(p: seq<Byte>, n: nat)
    requires 64 * n + 64 <= |p|
    ensures BitsOf(p[64 * n..64 * n + 64]) == BitsOf(p)[512 * n..512 * (n + 1)]
  {
    hide *;
    BitsOfSlice(p, 64 * n, 64 * n + 64);
    assert 8 * (64 * n) == 512 * n && 8 * (64 * n + 64) == 512 * (n + 1);
  }

  method PrintHex(h: array<Word>) returns (hex: string)
    ensures hex == HexOf(h[..])
  {
    hide HexWord;
    hex := "";
    for i := 0 to h.Length
      modifies {}
      invariant hex == HexOf(h[..i])
    {
      assert h[..i + 1][..i] == h[..i];
      hex := hex + HexWord(h[i]);
    }
    assert h[..h.Length] == h[..];
  }

  /** The program computes the SHA-256 of FIPS 180-4, printed as 64 hexadecimal digits. */
  method Sha256Hex(bytes: seq<Byte>) returns (hex: string)
    requires |bytes| < 0x2000_0000_0000_0000
    ensures hex == HexOf(Sha256(BitsOf(bytes)).Words())
  {
    hide Compress, HexOf, BlockWords, BitsOf, BigEndian;
    var h := new Word[8] [0x6a09e667, 0xbb67ae85, 0x3c6ef372, 0xa54ff53a, 0x510e527f, 0x9b05688c, 0x1f83d9ab,
                          0x5be0cd19];
    var msg := bytes;
    var bitlen := 8 * |bytes|;
    msg := msg + [0x80];
    ghost var z := 0;
    while |msg| % 64 != 56
      invariant z <= PadZeros(|bytes|)
      invariant msg == bytes + [0x80] + ZeroBytes(z)
      decreases PadZeros(|bytes|) - z
    {
      msg := msg + [0];
      z := z + 1;
    }
    msg := msg + BigEndian(bitlen, 8);
    PaddingIsFips(bytes);
    ghost var bits := BitsOf(msg);
    assert msg == Padded(bytes);
    assert h[..] == H0().Words();
    for n := 0 to |msg| / 64
      invariant h[..] == HashBlocks(bits, n).Words()
    {
      BlockOfPadded(msg, n);
      CompressChunk(h, msg[64 * n..64 * n + 64], HashBlocks(bits, n));
    }
    hex := PrintHex(h);
  }

  // ---------- Hexadecimal output ----------

  function HexDigit(n: bv4): char {
    if n == 0 then '0' else if n == 1 then '1' else if n == 2 then '2' else if n == 3 then '3'
    else if n == 4 then '4' else if n == 5 then '5' else if n == 6 then '6' else if n == 7 then '7'
    else if n == 8 then '8' else if n == 9 then '9' else if n == 10 then 'a' else if n == 11 then 'b'
    else if n == 12 then 'c' else if n == 13 then 'd' else if n == 14 then 'e' else 'f'
  }

  function HexValue(c: char): bv4 {
    if c == '0' then 0 else if c == '1' then 1 else if c == '2' then 2 else if c == '3' then 3
    else if c == '4' then 4 else if c == '5' then 5 else if c == '6' then 6 else if c == '7' then 7
    else if c == '8' then 8 else if c == '9' then 9 else if c == 'a' then 10 else if c == 'b' then 11
    else if c == 'c' then 12 else if c == 'd' then 13 else if c == 'e' then 14 else 15
  }

  lemma HexDigitRoundTrip(n: bv4)
    ensures HexValue(HexDigit(n)) == n
  {
  }

  /** The four bits of `x` from bit `shift` up. */
  function Nibble(x: Word, shift: bv6): bv4
    requires shift <= 28
  {
    ((x >> shift) & 0xf) as bv4
  }

  /** `{x:08x}`. */
  function HexWord(x: Word): (s: string)
    ensures |s| == 8
  {
    [HexDigit(Nibble(x, 28)), HexDigit(Nibble(x, 24)), HexDigit(Nibble(x, 20)), HexDigit(Nibble(x, 16)),
     HexDigit(Nibble(x, 12)), HexDigit(Nibble(x, 8)), HexDigit(Nibble(x, 4)), HexDigit(Nibble(x, 0))]
  }

  function HexOf(ws: seq<Word>): (s: string)
    ensures |s| == 8 * |ws|
  {
    if ws == [] then "" else HexOf(ws[..|ws| - 1]) + HexWord(ws[|ws| - 1])
  }

  lemma NibblesDetermine(x: Word, y: Word)
    requires Nibble(x, 28) == Nibble(y, 28) && Nibble(x, 24) == Nibble(y, 24)
    requires Nibble(x, 20) == Nibble(y, 20) && Nibble(x, 16) == Nibble(y, 16)
    requires Nibble(x, 12) == Nibble(y, 12) && Nibble(x, 8) == Nibble(y, 8)
    requires Nibble(x, 4) == Nibble(y, 4) && Nibble(x, 0) == Nibble(y, 0)
    ensures x == y
  {
  }

  lemma HexWordInjective(x: Word, y: Word)
    requires HexWord(x) == HexWord(y)
    ensures x == y
  {
    hide HexDigit, HexValue, Nibble;
    var s, t := HexWord(x), HexWord(y);
    assert forall i :: 0 <= i < 8 ==> s[i] == t[i];
    HexDigitRoundTrip(Nibble(x, 28));
    HexDigitRoundTrip(Nibble(y, 28));
    HexDigitRoundTrip(Nibble(x, 24));
    HexDigitRoundTrip(Nibble(y, 24));
    HexDigitRoundTrip(Nibble(x, 20));
    HexDigitRoundTrip(Nibble(y, 20));
    HexDigitRoundTrip(Nibble(x, 16));
    HexDigitRoundTrip(Nibble(y, 16));
    HexDigitRoundTrip(Nibble(x, 12));
    HexDigitRoundTrip(Nibble(y, 12));
    HexDigitRoundTrip(Nibble(x, 8));
    HexDigitRoundTrip(Nibble(y, 8));
    HexDigitRoundTrip(Nibble(x, 4));
    HexDigitRoundTrip(Nibble(y, 4));
    HexDigitRoundTrip(Nibble(x, 0));
    HexDigitRoundTrip(Nibble(y, 0));
    NibblesDetermine(x, y);
  }

  /** Comparing printed checksums, as the build does, compares digests. */
  lemma {:induction false} HexOfInjective(a: seq<Word>, b: seq<Word>)
    requires HexOf(a) == HexOf(b)
    ensures a == b
  {
    hide HexWord;
    if a != [] && b != [] {
      var n, m := |a| - 1, |b| - 1;
      assert |HexOf(a)| == 8 * n + 8 && |HexOf(b)| == 8 * m + 8;
      assert HexOf(a)[..8 * n] == HexOf(a[..n]) && HexOf(b)[..8 * m] == HexOf(b[..m]);
      assert HexOf(a)[8 * n..] == HexWord(a[n]) && HexOf(b)[8 * m..] == HexWord(b[m]);
      HexWordInjective(a[n], b[m]);
      HexOfInjective(a[..n], b[..m]);
      assert a == a[..n] + [a[n]] && b == b[..m] + [b[m]];
    }
  }
}
