/** Where the constants of SHA-256 come from: section 4.2.2 (cube roots of the first sixty-four primes) and
    section 5.3.3 (square roots of the first eight) of FIPS 180-4. */
module Sha256Constants {
  import opened Fips180

  /** The first sixty-four primes. */
  function Prime(t: nat): nat
    requires t < 64
  {
    if t < 8 then
      [2, 3, 5, 7, 11, 13, 17, 19][t]
    else if t < 16 then
      [23, 29, 31, 37, 41, 43, 47, 53][t - 8]
    else if t < 24 then
      [59, 61, 67, 71, 73, 79, 83, 89][t - 16]
    else if t < 32 then
      [97, 101, 103, 107, 109, 113, 127, 131][t - 24]
    else if t < 40 then
      [137, 139, 149, 151, 157, 163, 167, 173][t - 32]
    else if t < 48 then
      [179, 181, 191, 193, 197, 199, 211, 223][t - 40]
    else if t < 56 then
      [227, 229, 233, 239, 241, 251, 257, 263][t - 48]
    else
      [269, 271, 277, 281, 283, 293, 307, 311][t - 56]
  }

  // ---------- The table holds the first sixty-four primes ----------

  ghost predicate IsPrime(n: nat) {
    n >= 2 && forall d :: 2 <= d < n ==> n % d != 0
  }

  ghost function PrimesBelow(n: nat): nat {
    if n == 0 then 0 else PrimesBelow(n - 1) + if IsPrime(n - 1) then 1 else 0
  }

  /** No smaller number up to 17 divides `n`. */
  predicate PassesTrial(n: nat) {
    && n >= 2
    && (n % 2 != 0 || n == 2) && (n % 3 != 0 || n == 3) && (n % 5 != 0 || n == 5) && (n % 7 != 0 || n == 7)
    && (n % 11 != 0 || n == 11) && (n % 13 != 0 || n == 13) && (n % 17 != 0 || n == 17)
  }

  /** Below the square of 18, trial division by the primes up to 17 decides. */
  lemma TrialDecides(n: nat)
    requires n < 324
    ensures IsPrime(n) <==> PassesTrial(n)
  {
    if PassesTrial(n) {
      forall d | 2 <= d < n
        ensures n % d != 0
      {
        if n % d == 0 {
          var e := n / d;
          assert n == d * e;
          if d < 18 {
            SmallDivisor(n, d, e);
          } else {
            assert e < 18 && e >= 2 by { CofactorIsSmall(n, d, e); }
            SmallDivisor(n, e, d);
          }
        }
      }
    }
  }

  lemma CofactorIsSmall(n: nat, d: nat, e: nat)
    requires n == d * e && 18 <= d < n < 324
    ensures 2 <= e < 18
  {
    assert e >= 18 ==> d * e >= 18 * 18;
  }

  lemma SmallDivisor(n: nat, d: nat, e: nat)
    requires n == d * e && 2 <= d < 18 && d < n
    ensures !PassesTrial(n)
  {
    hide PassesTrial;
    assert e >= 2;
    match d {
      case 2 => Multiple(n, 2, e);
      case 3 => Multiple(n, 3, e);
      case 4 => Multiple(n, 2, 2 * e);
      case 5 => Multiple(n, 5, e);
      case 6 => Multiple(n, 2, 3 * e);
      case 7 => Multiple(n, 7, e);
      case 8 => Multiple(n, 2, 4 * e);
      case 9 => Multiple(n, 3, 3 * e);
      case 10 => Multiple(n, 2, 5 * e);
      case 11 => Multiple(n, 11, e);
      case 12 => Multiple(n, 2, 6 * e);
      case 13 => Multiple(n, 13, e);
      case 14 => Multiple(n, 2, 7 * e);
      case 15 => Multiple(n, 3, 5 * e);
      case 16 => Multiple(n, 2, 8 * e);
      case 17 => Multiple(n, 17, e);
      case _ => assert false;
    }
  }

  lemma Multiple(n: nat, q: nat, k: nat)
    requires q in {2, 3, 5, 7, 11, 13, 17} && n == q * k && k > 1
    ensures !PassesTrial(n)
  {
    hide PassesTrial;
    Divides(n, q, k);
    FailsTrial(n, q);
  }

  lemma Divides(n: int, q: int, k: int)
    requires q > 1 && n == q * k && k > 1
    ensures n % q == 0 && n > q
  {
    var j := k - n / q;
    assert n % q == q * j;
    assert j >= 1 ==> q * j >= q;
    assert j <= -1 ==> q * j <= -q;
  }

  lemma FailsTrial(n: nat, q: nat)
    requires q in {2, 3, 5, 7, 11, 13, 17} && n % q == 0 && n > q
    ensures !PassesTrial(n)
  {
  }

  /** Nothing between two rows of the table passes, and the second does. */
  predicate AllFail(lo: nat, hi: nat)
    decreases hi - lo
  {
    lo >= hi || (!PassesTrial(lo) && AllFail(lo + 1, hi))
  }

  predicate IsGap(p: nat, q: nat) {
    p < q < 324 && AllFail(p + 1, q) && PassesTrial(q)
  }

  predicate IsNext(t: nat)
    requires t < 63
  {
    IsGap(Prime(t), Prime(t + 1))
  }

  lemma Gaps0()
    ensures IsGap(2, 3) && IsGap(3, 5) && IsGap(5, 7) && IsGap(7, 11)
    ensures IsGap(11, 13) && IsGap(13, 17) && IsGap(17, 19) && IsGap(19, 23)
  {
  }

  lemma Next0(t: nat)
    requires 0 <= t < 8
    ensures IsNext(t)
  {
    hide IsGap;
    Gaps0();
  }

  lemma Gaps8()
    ensures IsGap(23, 29) && IsGap(29, 31) && IsGap(31, 37) && IsGap(37, 41)
    ensures IsGap(41, 43) && IsGap(43, 47) && IsGap(47, 53) && IsGap(53, 59)
  {
  }

  lemma Next8(t: nat)
    requires 8 <= t < 16
    ensures IsNext(t)
  {
    hide IsGap;
    Gaps8();
  }

  lemma Gaps16()
    ensures IsGap(59, 61) && IsGap(61, 67) && IsGap(67, 71) && IsGap(71, 73)
    ensures IsGap(73, 79) && IsGap(79, 83) && IsGap(83, 89) && IsGap(89, 97)
  {
  }

  lemma Next16(t: nat)
    requires 16 <= t < 24
    ensures IsNext(t)
  {
    hide IsGap;
    Gaps16();
  }

  lemma Gaps24()
    ensures IsGap(97, 101) && IsGap(101, 103) && IsGap(103, 107) && IsGap(107, 109)
    ensures IsGap(109, 113) && IsGap(113, 127) && IsGap(127, 131) && IsGap(131, 137)
  {
  }

  lemma Next24(t: nat)
    requires 24 <= t < 32
    ensures IsNext(t)
  {
    hide IsGap;
    Gaps24();
  }

  lemma Gaps32()
    ensures IsGap(137, 139) && IsGap(139, 149) && IsGap(149, 151) && IsGap(151, 157)
    ensures IsGap(157, 163) && IsGap(163, 167) && IsGap(167, 173) && IsGap(173, 179)
  {
  }

  lemma Next32(t: nat)
    requires 32 <= t < 40
    ensures IsNext(t)
  {
    hide IsGap;
    Gaps32();
  }

  lemma Gaps40()
    ensures IsGap(179, 181) && IsGap(181, 191) && IsGap(191, 193) && IsGap(193, 197)
    ensures IsGap(197, 199) && IsGap(199, 211) && IsGap(211, 223) && IsGap(223, 227)
  {
  }

  lemma Next40(t: nat)
    requires 40 <= t < 48
    ensures IsNext(t)
  {
    hide IsGap;
    Gaps40();
  }

  lemma Gaps48()
    ensures IsGap(227, 229) && IsGap(229, 233) && IsGap(233, 239) && IsGap(239, 241)
    ensures IsGap(241, 251) && IsGap(251, 257) && IsGap(257, 263) && IsGap(263, 269)
  {
  }

  lemma Next48(t: nat)
    requires 48 <= t < 56
    ensures IsNext(t)
  {
    hide IsGap;
    Gaps48();
  }

  lemma Gaps56()
    ensures IsGap(269, 271) && IsGap(271, 277) && IsGap(277, 281)
    ensures IsGap(281, 283) && IsGap(283, 293) && IsGap(293, 307) && IsGap(307, 311)
  {
  }

  lemma Next56(t: nat)
    requires 56 <= t < 63
    ensures IsNext(t)
  {
    hide IsGap;
    Gaps56();
  }

  lemma {:induction false} NonePrime(lo: nat, hi: nat)
    requires lo <= hi < 324 && AllFail(lo, hi)
    ensures PrimesBelow(hi) == PrimesBelow(lo)
    decreases hi - lo
  {
    hide PassesTrial, IsPrime;
    if lo < hi {
      TrialDecides(lo);
      NonePrime(lo + 1, hi);
    }
  }

  /** Row `t` is a prime with exactly `t` primes below it. */
  lemma {:induction false} TableHoldsPrimes(t: nat)
    requires t < 64
    ensures IsPrime(Prime(t)) && PrimesBelow(Prime(t)) == t
  {
    hide PassesTrial, IsPrime, AllFail, Prime, IsNext;
    if t == 0 {
      FirstPrime();
    } else {
      TableHoldsPrimes(t - 1);
      EveryNext(t - 1);
      NextRow(t - 1);
    }
  }

  lemma FirstPrime()
    ensures IsPrime(Prime(0)) && PrimesBelow(Prime(0)) == 0
  {
    assert Prime(0) == 2;
    assert PrimesBelow(2) == PrimesBelow(1) == PrimesBelow(0);
  }

  lemma NextRow(t: nat)
    requires t < 63 && IsNext(t) && IsPrime(Prime(t))
    ensures IsPrime(Prime(t + 1)) && PrimesBelow(Prime(t + 1)) == PrimesBelow(Prime(t)) + 1
  {
    hide PassesTrial, IsPrime, AllFail, Prime;
    NonePrime(Prime(t) + 1, Prime(t + 1));
    TrialDecides(Prime(t + 1));
  }

  lemma EveryNext(t: nat)
    requires t < 63
    ensures IsNext(t)
  {
    hide IsNext;
    if t < 8 { Next0(t); } else if t < 16 { Next8(t); } else if t < 24 { Next16(t); } else if t < 32 { Next24(t); }
    else if t < 40 { Next32(t); } else if t < 48 { Next40(t); } else if t < 56 { Next48(t); } else { Next56(t); }
  }

  function Cube(x: nat): nat {
    x * x * x
  }

  /** `k` is the first 32 bits of the fractional part of the cube root of `p`, whose integral part is `whole`. */
  predicate IsCubeRoot(k: Word, p: nat, whole: nat) {
    var scaled := whole * 0x1_0000_0000 + k as nat;
    Cube(scaled) <= p * 0x1_0000_0000_0000_0000_0000_0000 < Cube(scaled + 1)
  }

  predicate IsSquareRoot(k: Word, p: nat, whole: nat) {
    var scaled := whole * 0x1_0000_0000 + k as nat;
    scaled * scaled <= p * 0x1_0000_0000_0000_0000 < (scaled + 1) * (scaled + 1)
  }

  ghost predicate RoundConstantIsRoot(t: nat)
    requires t < 64
  {
    exists whole: nat :: IsCubeRoot(K(t), Prime(t), whole)
  }

  ghost predicate InitialWordIsRoot(t: nat)
    requires t < 8
  {
    exists whole: nat :: IsSquareRoot(H0().Words()[t], Prime(t), whole)
  }

  lemma RoundRoot(t: nat, whole: nat)
    requires t < 64
    ensures IsCubeRoot(K(t), Prime(t), whole) ==> RoundConstantIsRoot(t)
  {
    hide IsCubeRoot, K, Prime;
  }

  lemma InitialRoot(t: nat, whole: nat)
    requires t < 8 && IsSquareRoot(H0().Words()[t], Prime(t), whole)
    ensures InitialWordIsRoot(t)
  {
    hide IsSquareRoot, Prime;
  }

  lemma Rows0()
    ensures forall t :: 0 <= t < 8 ==> RoundConstantIsRoot(t)
  {
    hide RoundConstantIsRoot;
    RoundRoot(0, 1); RoundRoot(1, 1); RoundRoot(2, 1); RoundRoot(3, 1);
    RoundRoot(4, 2); RoundRoot(5, 2); RoundRoot(6, 2); RoundRoot(7, 2);
  }

  lemma Rows8()
    ensures forall t :: 8 <= t < 16 ==> RoundConstantIsRoot(t)
  {
    hide RoundConstantIsRoot;
    RoundRoot(8, 2); RoundRoot(9, 3); RoundRoot(10, 3); RoundRoot(11, 3);
    RoundRoot(12, 3); RoundRoot(13, 3); RoundRoot(14, 3); RoundRoot(15, 3);
  }

  lemma Rows16()
    ensures forall t :: 16 <= t < 24 ==> RoundConstantIsRoot(t)
  {
    hide RoundConstantIsRoot;
    RoundRoot(16, 3); RoundRoot(17, 3); RoundRoot(18, 4); RoundRoot(19, 4);
    RoundRoot(20, 4); RoundRoot(21, 4); RoundRoot(22, 4); RoundRoot(23, 4);
  }

  lemma Rows24()
    ensures forall t :: 24 <= t < 32 ==> RoundConstantIsRoot(t)
  {
    hide RoundConstantIsRoot;
    RoundRoot(24, 4); RoundRoot(25, 4); RoundRoot(26, 4); RoundRoot(27, 4);
    RoundRoot(28, 4); RoundRoot(29, 4); RoundRoot(30, 5); RoundRoot(31, 5);
  }

  lemma Rows32()
    ensures forall t :: 32 <= t < 40 ==> RoundConstantIsRoot(t)
  {
    hide RoundConstantIsRoot;
    RoundRoot(32, 5); RoundRoot(33, 5); RoundRoot(34, 5); RoundRoot(35, 5);
    RoundRoot(36, 5); RoundRoot(37, 5); RoundRoot(38, 5); RoundRoot(39, 5);
  }

  lemma Rows40()
    ensures forall t :: 40 <= t < 48 ==> RoundConstantIsRoot(t)
  {
    hide RoundConstantIsRoot;
    RoundRoot(40, 5); RoundRoot(41, 5); RoundRoot(42, 5); RoundRoot(43, 5);
    RoundRoot(44, 5); RoundRoot(45, 5); RoundRoot(46, 5); RoundRoot(47, 6);
  }

  lemma Rows48()
    ensures forall t :: 48 <= t < 56 ==> RoundConstantIsRoot(t)
  {
    hide RoundConstantIsRoot;
    RoundRoot(48, 6); RoundRoot(49, 6); RoundRoot(50, 6); RoundRoot(51, 6);
    RoundRoot(52, 6); RoundRoot(53, 6); RoundRoot(54, 6); RoundRoot(55, 6);
  }

  lemma Rows56()
    ensures forall t :: 56 <= t < 64 ==> RoundConstantIsRoot(t)
  {
    hide RoundConstantIsRoot;
    RoundRoot(56, 6); RoundRoot(57, 6); RoundRoot(58, 6); RoundRoot(59, 6);
    RoundRoot(60, 6); RoundRoot(61, 6); RoundRoot(62, 6); RoundRoot(63, 6);
  }

  /** Section 4.2.2: round constant `t` is the fractional part of the cube root of prime `t`. */
  lemma RoundConstantsAreCubeRoots(t: nat)
    requires t < 64
    ensures RoundConstantIsRoot(t)
  {
    hide RoundConstantIsRoot;
    Rows0(); Rows8(); Rows16(); Rows24(); Rows32(); Rows40(); Rows48(); Rows56();
  }

  /** Section 5.3.3: initial word `t` is the fractional part of the square root of prime `t`. */
  lemma InitialHashIsSquareRoots(t: nat)
    requires t < 8
    ensures InitialWordIsRoot(t)
  {
    hide InitialWordIsRoot;
    InitialRoot(0, 1); InitialRoot(1, 1); InitialRoot(2, 2); InitialRoot(3, 2);
    InitialRoot(4, 3); InitialRoot(5, 3); InitialRoot(6, 4); InitialRoot(7, 4);
  }
}
