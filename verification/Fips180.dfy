/** SHA-256 as section 6.2 of FIPS 180-4 specifies it: a function from bit strings to eight words.
    Nothing here follows the shape of the program; `Sha256` proves the program against it. */
module Fips180 {
  type Word = bv32
  type Bits = seq<bool>

  // ---------- 3.2: operations on words; 4.1.2: the six logical functions ----------

  // Addition modulo 2^32, of two words or of several, as chained `u32::wrapping_add` calls compute it.

  function Add(x: Word, y: Word): Word {
    x + y
  }

  function Sum4(a: Word, b: Word, c: Word, d: Word): Word {
    a + b + c + d
  }

  function Sum5(a: Word, b: Word, c: Word, d: Word, e: Word): Word {
    a + b + c + d + e
  }

  function Rotr(n: bv32, x: Word): Word
    requires 0 < n < 32
  {
    (x >> n) | (x << (32 - n))
  }

  function Xor3(x: Word, y: Word, z: Word): Word {
    x ^ y ^ z
  }

  function Ch(x: Word, y: Word, z: Word): Word {
    (x & y) ^ ((!x) & z)
  }

  function Maj(x: Word, y: Word, z: Word): Word {
    (x & y) ^ (x & z) ^ (y & z)
  }

  function BigSigma0(x: Word): Word {
    Xor3(Rotr(2, x), Rotr(13, x), Rotr(22, x))
  }

  function BigSigma1(x: Word): Word {
    Xor3(Rotr(6, x), Rotr(11, x), Rotr(25, x))
  }

  function SmallSigma0(x: Word): Word {
    Xor3(Rotr(7, x), Rotr(18, x), x >> 3)
  }

  function SmallSigma1(x: Word): Word {
    Xor3(Rotr(17, x), Rotr(19, x), x >> 10)
  }

  // ---------- 4.2.2 and 5.3.3: the constants ----------

  /** The sixty-four round constants. `Sha256Constants` proves what they are. */
  function K(t: nat): Word
    requires t < 64
  {
    if t < 8 then
      [ 0x428a2f98, 0x71374491, 0xb5c0fbcf, 0xe9b5dba5, 0x3956c25b, 0x59f111f1, 0x923f82a4, 0xab1c5ed5 ][t]
    else if t < 16 then
      [ 0xd807aa98, 0x12835b01, 0x243185be, 0x550c7dc3, 0x72be5d74, 0x80deb1fe, 0x9bdc06a7, 0xc19bf174 ][t - 8]
    else if t < 24 then
      [ 0xe49b69c1, 0xefbe4786, 0x0fc19dc6, 0x240ca1cc, 0x2de92c6f, 0x4a7484aa, 0x5cb0a9dc, 0x76f988da ][t - 16]
    else if t < 32 then
      [ 0x983e5152, 0xa831c66d, 0xb00327c8, 0xbf597fc7, 0xc6e00bf3, 0xd5a79147, 0x06ca6351, 0x14292967 ][t - 24]
    else if t < 40 then
      [ 0x27b70a85, 0x2e1b2138, 0x4d2c6dfc, 0x53380d13, 0x650a7354, 0x766a0abb, 0x81c2c92e, 0x92722c85 ][t - 32]
    else if t < 48 then
      [ 0xa2bfe8a1, 0xa81a664b, 0xc24b8b70, 0xc76c51a3, 0xd192e819, 0xd6990624, 0xf40e3585, 0x106aa070 ][t - 40]
    else if t < 56 then
      [ 0x19a4c116, 0x1e376c08, 0x2748774c, 0x34b0bcb5, 0x391c0cb3, 0x4ed8aa4a, 0x5b9cca4f, 0x682e6ff3 ][t - 48]
    else
      [ 0x748f82ee, 0x78a5636f, 0x84c87814, 0x8cc70208, 0x90befffa, 0xa4506ceb, 0xbef9a3f7, 0xc67178f2 ][t - 56]
  }

  /** A hash value, and the eight working variables while a block is processed. */
  datatype Hash = Hash(a: Word, b: Word, c: Word, d: Word, e: Word, f: Word, g: Word, h: Word) {
    function Words(): (ws: seq<Word>)
      ensures |ws| == 8
    {
      [a, b, c, d, e, f, g, h]
    }
  }

  function H0(): Hash {
    Hash(0x6a09e667, 0xbb67ae85, 0x3c6ef372, 0xa54ff53a, 0x510e527f, 0x9b05688c, 0x1f83d9ab, 0x5be0cd19)
  }

  // ---------- 5.1.1: padding ----------

  /** The `width` low bits of `n`, most significant first. */
  function Binary(n: nat, width: nat): (s: Bits)
    ensures |s| == width
  {
    if width == 0 then [] else Binary(n / 2, width - 1) + [n % 2 == 1]
  }

  function Zeros(k: nat): (s: Bits)
    ensures |s| == k
  {
    seq(k, _ => false)
  }

  predicate Solves(l: nat, k: nat) {
    (l + 1 + k) % 512 == 448
  }

  /** The smallest non-negative solution `k` of l + 1 + k = 448 mod 512. */
  function ZeroCount(l: nat): (k: nat)
    ensures Solves(l, k)
    ensures forall j: nat :: Solves(l, j) ==> k <= j
  {
    (447 - l) % 512
  }

  function Pad(m: Bits): (p: Bits)
    ensures |p| % 512 == 0
  {
    m + [true] + Zeros(ZeroCount(|m|)) + Binary(|m|, 64)
  }

  // ---------- 5.2.1: parsing; 6.2.2: the computation ----------

  function Pow2(k: nat): (p: nat)
    ensures p >= 1
  {
    if k == 0 then 1 else 2 * Pow2(k - 1)
  }

  /** The number a bit string denotes, most significant bit first. */
  function Value(s: Bits): (n: nat)
    ensures n < Pow2(|s|)
  {
    if s == [] then 0 else 2 * Value(s[..|s| - 1]) + (if s[|s| - 1] then 1 else 0)
  }

  lemma Pow2Of32()
    ensures Pow2(8) == 0x100 && Pow2(16) == 0x1_0000 && Pow2(24) == 0x100_0000 && Pow2(32) == 0x1_0000_0000
  {
    assert Pow2(4) == 16;
    assert Pow2(8) == 0x100;
    assert Pow2(12) == 0x1000;
    assert Pow2(16) == 0x1_0000;
    assert Pow2(20) == 0x10_0000;
    assert Pow2(24) == 0x100_0000;
    assert Pow2(28) == 0x1000_0000;
  }

  /** Word `t` of a 512-bit block. */
  function BlockWord(block: Bits, t: nat): Word
    requires |block| == 512 && t < 16
  {
    Pow2Of32();
    Value(block[32 * t..32 * t + 32]) as Word
  }

  function BlockWords(block: Bits): (m: seq<Word>)
    requires |block| == 512
    ensures |m| == 16
  {
    seq(16, t requires 0 <= t < 16 => BlockWord(block, t))
  }

  /** Step 1: the message schedule. */
  function Schedule(m: seq<Word>, t: nat): Word
    requires |m| == 16
  {
    if t < 16 then m[t]
    else
      Sum4(SmallSigma1(Schedule(m, t - 2)), Schedule(m, t - 7), SmallSigma0(Schedule(m, t - 15)), Schedule(m, t - 16))
  }

  /** One iteration of step 3. */
  function Round(s: Hash, k: Word, w: Word): Hash {
    var t1 := Sum5(s.h, BigSigma1(s.e), Ch(s.e, s.f, s.g), k, w);
    var t2 := Add(BigSigma0(s.a), Maj(s.a, s.b, s.c));
    Hash(Add(t1, t2), s.a, s.b, s.c, Add(s.d, t1), s.e, s.f, s.g)
  }

  /** The working variables after the first `t` iterations of step 3. */
  function Rounds(start: Hash, m: seq<Word>, t: nat): Hash
    requires |m| == 16 && t <= 64
  {
    if t == 0 then start else Round(Rounds(start, m, t - 1), K(t - 1), Schedule(m, t - 1))
  }

  /** Step 4. */
  function Combine(s: Hash, prev: Hash): Hash {
    Hash(Add(s.a, prev.a), Add(s.b, prev.b), Add(s.c, prev.c), Add(s.d, prev.d),
         Add(s.e, prev.e), Add(s.f, prev.f), Add(s.g, prev.g), Add(s.h, prev.h))
  }

  function Compress(prev: Hash, m: seq<Word>): Hash
    requires |m| == 16
  {
    Combine(Rounds(prev, m, 64), prev)
  }

  /** The hash value after the first `n` blocks. */
  function HashBlocks(padded: Bits, n: nat): Hash
    requires 512 * n <= |padded|
  {
    if n == 0 then H0()
    else Compress(HashBlocks(padded, n - 1), BlockWords(padded[512 * (n - 1)..512 * n]))
  }

  function Sha256(m: Bits): Hash {
    HashBlocks(Pad(m), |Pad(m)| / 512)
  }
}
