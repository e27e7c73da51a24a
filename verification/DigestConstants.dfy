/**
 Where the constants of the hash come from (FIPS 180-4, sections 4.2.2 and 5.3.3): the first 32 bits of the fractional
 parts of the cube and square roots of the first primes.
 */
module DigestConstants {
  import opened Common
  import opened Digest

  const TWO32: nat := 0x1_0000_0000

  // ---- The first sixty-four primes ----

  const PRIMES: seq<seq<nat>> := [
    [2, 3, 5, 7, 11, 13, 17, 19],
    [23, 29, 31, 37, 41, 43, 47, 53],
    [59, 61, 67, 71, 73, 79, 83, 89],
    [97, 101, 103, 107, 109, 113, 127, 131],
    [137, 139, 149, 151, 157, 163, 167, 173],
    [179, 181, 191, 193, 197, 199, 211, 223],
    [227, 229, 233, 239, 241, 251, 257, 263],
    [269, 271, 277, 281, 283, 293, 307, 311]]

  function PrimeAt(i: nat): nat
    requires i < 64
  {
    PRIMES[i / 8][i % 8]
  }

  ghost predicate IsPrime(n: nat) {
    n >= 2 && forall d :: 2 <= d < n ==> n % d != 0
  }

  /** One of the primes up to seventeen divides `n`, and is not `n` itself. */
  predicate SmallFactor(n: nat) {
    || (n > 2 && n % 2 == 0) || (n > 3 && n % 3 == 0) || (n > 5 && n % 5 == 0) || (n > 7 && n % 7 == 0)
    || (n > 11 && n % 11 == 0) || (n > 13 && n % 13 == 0) || (n > 17 && n % 17 == 0)
  }

  lemma FactorOf2(n: nat, e: nat)
    requires e >= 2 && n == 2 * e
    ensures SmallFactor(n)
  {
    assert n % 2 == 0;
  }

  lemma FactorOf3(n: nat, e: nat)
    requires e >= 2 && n == 3 * e
    ensures SmallFactor(n)
  {
    assert n % 3 == 0;
  }

  lemma FactorOf5(n: nat, e: nat)
    requires e >= 2 && n == 5 * e
    ensures SmallFactor(n)
  {
    assert n % 5 == 0;
  }

  lemma FactorOf7(n: nat, e: nat)
    requires e >= 2 && n == 7 * e
    ensures SmallFactor(n)
  {
    assert n % 7 == 0;
  }

  lemma FactorOf11(n: nat, e: nat)
    requires e >= 2 && n == 11 * e
    ensures SmallFactor(n)
  {
    assert n % 11 == 0;
  }

  lemma FactorOf13(n: nat, e: nat)
    requires e >= 2 && n == 13 * e
    ensures SmallFactor(n)
  {
    assert n % 13 == 0;
  }

  lemma FactorOf17(n: nat, e: nat)
    requires e >= 2 && n == 17 * e
    ensures SmallFactor(n)
  {
    assert n % 17 == 0;
  }

  lemma SmallDivisor(n: nat, d: nat, e: nat)
    requires 2 <= d <= 18 && e >= 2 && n == d * e
    ensures SmallFactor(n)
  {
    hide SmallFactor;
    match d
    case 2 => FactorOf2(n, e);
    case 3 => FactorOf3(n, e);
    case 4 => FactorOf2(n, 2 * e);
    case 5 => FactorOf5(n, e);
    case 6 => FactorOf2(n, 3 * e);
    case 7 => FactorOf7(n, e);
    case 8 => FactorOf2(n, 4 * e);
    case 9 => FactorOf3(n, 3 * e);
    case 10 => FactorOf2(n, 5 * e);
    case 11 => FactorOf11(n, e);
    case 12 => FactorOf2(n, 6 * e);
    case 13 => FactorOf13(n, e);
    case 14 => FactorOf2(n, 7 * e);
    case 15 => FactorOf3(n, 5 * e);
    case 16 => FactorOf2(n, 8 * e);
    case 17 => FactorOf17(n, e);
    case 18 => FactorOf2(n, 9 * e);
  }

  /** Below the square of nineteen, having no small factor is being prime. */
  lemma NoSmallFactorIsPrime(n: nat)
    requires 2 <= n < 361 && !SmallFactor(n)
    ensures IsPrime(n)
  {
    hide SmallFactor;
    forall d: nat | 2 <= d < n ensures n % d != 0 {
      if n % d == 0 { DivisorMeansFactor(n, d, n / d); }
    }
  }

  lemma DivisorMeansFactor(n: nat, d: nat, e: nat)
    requires 2 <= d < n < 361 && n == d * e
    ensures SmallFactor(n)
  {
    hide SmallFactor;
    NotTrivial(n, d, e);
    if d <= 18 { SmallDivisor(n, d, e); } else { SmallDivisor(n, e, d); }
  }

  lemma NotTrivial(n: nat, d: nat, e: nat)
    requires 2 <= d < n < 361 && n == d * e
    ensures e >= 2 && (d <= 18 || e <= 18)
  {
    if d >= 19 && e >= 19 { Product(d, e); }
  }

  lemma Product(d: nat, e: nat)
    requires d >= 19 && e >= 19
    ensures d * e >= 361
  {
    assert d * e >= 19 * e;
  }

  lemma PrimeRow0()
    ensures forall i :: 0 <= i < 8 ==> PrimeAt(i) < PrimeAt(i + 1)
    ensures forall i :: 0 <= i < 8 ==> 2 <= PrimeAt(i) < 361 && !SmallFactor(PrimeAt(i))
  {
    assert !SmallFactor(2) && !SmallFactor(3) && !SmallFactor(5) && !SmallFactor(7);
    assert !SmallFactor(11) && !SmallFactor(13) && !SmallFactor(17) && !SmallFactor(19);
    hide SmallFactor;
    assert PrimeAt(0) == 2;
    assert PrimeAt(1) == 3;
    assert PrimeAt(2) == 5;
    assert PrimeAt(3) == 7;
    assert PrimeAt(4) == 11;
    assert PrimeAt(5) == 13;
    assert PrimeAt(6) == 17;
    assert PrimeAt(7) == 19;
    assert PrimeAt(8) == 23;
  }

  lemma PrimeRow1()
    ensures forall i :: 8 <= i < 16 ==> PrimeAt(i) < PrimeAt(i + 1)
    ensures forall i :: 8 <= i < 16 ==> 2 <= PrimeAt(i) < 361 && !SmallFactor(PrimeAt(i))
  {
    assert !SmallFactor(23) && !SmallFactor(29) && !SmallFactor(31) && !SmallFactor(37);
    assert !SmallFactor(41) && !SmallFactor(43) && !SmallFactor(47) && !SmallFactor(53);
    hide SmallFactor;
    assert PrimeAt(8) == 23;
    assert PrimeAt(9) == 29;
    assert PrimeAt(10) == 31;
    assert PrimeAt(11) == 37;
    assert PrimeAt(12) == 41;
    assert PrimeAt(13) == 43;
    assert PrimeAt(14) == 47;
    assert PrimeAt(15) == 53;
    assert PrimeAt(16) == 59;
  }

  lemma PrimeRow2()
    ensures forall i :: 16 <= i < 24 ==> PrimeAt(i) < PrimeAt(i + 1)
    ensures forall i :: 16 <= i < 24 ==> 2 <= PrimeAt(i) < 361 && !SmallFactor(PrimeAt(i))
  {
    assert !SmallFactor(59) && !SmallFactor(61) && !SmallFactor(67) && !SmallFactor(71);
    assert !SmallFactor(73) && !SmallFactor(79) && !SmallFactor(83) && !SmallFactor(89);
    hide SmallFactor;
    assert PrimeAt(16) == 59;
    assert PrimeAt(17) == 61;
    assert PrimeAt(18) == 67;
    assert PrimeAt(19) == 71;
    assert PrimeAt(20) == 73;
    assert PrimeAt(21) == 79;
    assert PrimeAt(22) == 83;
    assert PrimeAt(23) == 89;
    assert PrimeAt(24) == 97;
  }

  lemma PrimeRow3()
    ensures forall i :: 24 <= i < 32 ==> PrimeAt(i) < PrimeAt(i + 1)
    ensures forall i :: 24 <= i < 32 ==> 2 <= PrimeAt(i) < 361 && !SmallFactor(PrimeAt(i))
  {
    assert !SmallFactor(97) && !SmallFactor(101) && !SmallFactor(103) && !SmallFactor(107);
    assert !SmallFactor(109) && !SmallFactor(113) && !SmallFactor(127) && !SmallFactor(131);
    hide SmallFactor;
    assert PrimeAt(24) == 97;
    assert PrimeAt(25) == 101;
    assert PrimeAt(26) == 103;
    assert PrimeAt(27) == 107;
    assert PrimeAt(28) == 109;
    assert PrimeAt(29) == 113;
    assert PrimeAt(30) == 127;
    assert PrimeAt(31) == 131;
    assert PrimeAt(32) == 137;
  }

  lemma PrimeRow4()
    ensures forall i :: 32 <= i < 40 ==> PrimeAt(i) < PrimeAt(i + 1)
    ensures forall i :: 32 <= i < 40 ==> 2 <= PrimeAt(i) < 361 && !SmallFactor(PrimeAt(i))
  {
    assert !SmallFactor(137) && !SmallFactor(139) && !SmallFactor(149) && !SmallFactor(151);
    assert !SmallFactor(157) && !SmallFactor(163) && !SmallFactor(167) && !SmallFactor(173);
    hide SmallFactor;
    assert PrimeAt(32) == 137;
    assert PrimeAt(33) == 139;
    assert PrimeAt(34) == 149;
    assert PrimeAt(35) == 151;
    assert PrimeAt(36) == 157;
    assert PrimeAt(37) == 163;
    assert PrimeAt(38) == 167;
    assert PrimeAt(39) == 173;
    assert PrimeAt(40) == 179;
  }

  lemma PrimeRow5()
    ensures forall i :: 40 <= i < 48 ==> PrimeAt(i) < PrimeAt(i + 1)
    ensures forall i :: 40 <= i < 48 ==> 2 <= PrimeAt(i) < 361 && !SmallFactor(PrimeAt(i))
  {
    assert !SmallFactor(179) && !SmallFactor(181) && !SmallFactor(191) && !SmallFactor(193);
    assert !SmallFactor(197) && !SmallFactor(199) && !SmallFactor(211) && !SmallFactor(223);
    hide SmallFactor;
    assert PrimeAt(40) == 179;
    assert PrimeAt(41) == 181;
    assert PrimeAt(42) == 191;
    assert PrimeAt(43) == 193;
    assert PrimeAt(44) == 197;
    assert PrimeAt(45) == 199;
    assert PrimeAt(46) == 211;
    assert PrimeAt(47) == 223;
    assert PrimeAt(48) == 227;
  }

  lemma PrimeRow6()
    ensures forall i :: 48 <= i < 56 ==> PrimeAt(i) < PrimeAt(i + 1)
    ensures forall i :: 48 <= i < 56 ==> 2 <= PrimeAt(i) < 361 && !SmallFactor(PrimeAt(i))
  {
    assert !SmallFactor(227) && !SmallFactor(229) && !SmallFactor(233) && !SmallFactor(239);
    assert !SmallFactor(241) && !SmallFactor(251) && !SmallFactor(257) && !SmallFactor(263);
    hide SmallFactor;
    assert PrimeAt(48) == 227;
    assert PrimeAt(49) == 229;
    assert PrimeAt(50) == 233;
    assert PrimeAt(51) == 239;
    assert PrimeAt(52) == 241;
    assert PrimeAt(53) == 251;
    assert PrimeAt(54) == 257;
    assert PrimeAt(55) == 263;
    assert PrimeAt(56) == 269;
  }

  lemma PrimeRow7()
    ensures forall i :: 56 <= i < 63 ==> PrimeAt(i) < PrimeAt(i + 1)
    ensures forall i :: 56 <= i < 64 ==> 2 <= PrimeAt(i) < 361 && !SmallFactor(PrimeAt(i))
  {
    assert !SmallFactor(269) && !SmallFactor(271) && !SmallFactor(277) && !SmallFactor(281);
    assert !SmallFactor(283) && !SmallFactor(293) && !SmallFactor(307) && !SmallFactor(311);
    hide SmallFactor;
    assert PrimeAt(56) == 269;
    assert PrimeAt(57) == 271;
    assert PrimeAt(58) == 277;
    assert PrimeAt(59) == 281;
    assert PrimeAt(60) == 283;
    assert PrimeAt(61) == 293;
    assert PrimeAt(62) == 307;
    assert PrimeAt(63) == 311;
  }

  lemma PrimeRows()
    ensures forall i :: 0 <= i < 63 ==> PrimeAt(i) < PrimeAt(i + 1)
    ensures forall i :: 0 <= i < 64 ==> 2 <= PrimeAt(i) < 361 && !SmallFactor(PrimeAt(i))
  {
    hide PrimeAt;
    PrimeRow0();
    PrimeRow1();
    PrimeRow2();
    PrimeRow3();
    PrimeRow4();
    PrimeRow5();
    PrimeRow6();
    PrimeRow7();
  }

  /** The table holds primes, in ascending order. */
  lemma TableOfPrimes()
    ensures forall i :: 0 <= i < 64 ==> IsPrime(PrimeAt(i))
    ensures forall i :: 0 <= i < 63 ==> PrimeAt(i) < PrimeAt(i + 1)
  {
    hide SmallFactor;
    PrimeRows();
    hide PrimeAt;
    forall i | 0 <= i < 64 ensures IsPrime(PrimeAt(i)) { NoSmallFactorIsPrime(PrimeAt(i)); }
  }

  // ---- Roots ----

  function Cube(n: nat): nat { n * n * n }

  function Square(n: nat): nat { n * n }

  /** Whole parts of roots, for the primes of the table. */
  function CubeFloor(p: nat): nat {
    if p < 8 then 1 else if p < 27 then 2 else if p < 64 then 3 else if p < 125 then 4 else if p < 216 then 5 else 6
  }

  function SquareFloor(p: nat): nat {
    if p < 4 then 1 else if p < 9 then 2 else if p < 16 then 3 else 4
  }

  /** `k` is the first 32 bits after the point of the cube root of `p`. */
  predicate CubeBits(p: nat, k: nat) {
    var root := CubeFloor(p) * TWO32 + k;
    k < TWO32 && Cube(root) <= p * Cube(TWO32) < Cube(root + 1)
  }

  predicate SquareBits(p: nat, k: nat) {
    var root := SquareFloor(p) * TWO32 + k;
    k < TWO32 && Square(root) <= p * Square(TWO32) < Square(root + 1)
  }

  lemma CubeRoots0()
    ensures forall t :: 0 <= t < 4 ==> CubeBits(PrimeAt(t), RoundConstant(t) as nat)
  {
    assert CubeBits(2, 0x428a2f98);
    assert CubeBits(3, 0x71374491);
    assert CubeBits(5, 0xb5c0fbcf);
    assert CubeBits(7, 0xe9b5dba5);
    hide CubeBits;
    assert PrimeAt(0) == 2 && RoundConstant(0) as nat == 0x428a2f98;
    assert PrimeAt(1) == 3 && RoundConstant(1) as nat == 0x71374491;
    assert PrimeAt(2) == 5 && RoundConstant(2) as nat == 0xb5c0fbcf;
    assert PrimeAt(3) == 7 && RoundConstant(3) as nat == 0xe9b5dba5;
  }

  lemma CubeRoots4()
    ensures forall t :: 4 <= t < 8 ==> CubeBits(PrimeAt(t), RoundConstant(t) as nat)
  {
    assert CubeBits(11, 0x3956c25b);
    assert CubeBits(13, 0x59f111f1);
    assert CubeBits(17, 0x923f82a4);
    assert CubeBits(19, 0xab1c5ed5);
    hide CubeBits;
    assert PrimeAt(4) == 11 && RoundConstant(4) as nat == 0x3956c25b;
    assert PrimeAt(5) == 13 && RoundConstant(5) as nat == 0x59f111f1;
    assert PrimeAt(6) == 17 && RoundConstant(6) as nat == 0x923f82a4;
    assert PrimeAt(7) == 19 && RoundConstant(7) as nat == 0xab1c5ed5;
  }

  lemma CubeRoots8()
    ensures forall t :: 8 <= t < 12 ==> CubeBits(PrimeAt(t), RoundConstant(t) as nat)
  {
    assert CubeBits(23, 0xd807aa98);
    assert CubeBits(29, 0x12835b01);
    assert CubeBits(31, 0x243185be);
    assert CubeBits(37, 0x550c7dc3);
    hide CubeBits;
    assert PrimeAt(8) == 23 && RoundConstant(8) as nat == 0xd807aa98;
    assert PrimeAt(9) == 29 && RoundConstant(9) as nat == 0x12835b01;
    assert PrimeAt(10) == 31 && RoundConstant(10) as nat == 0x243185be;
    assert PrimeAt(11) == 37 && RoundConstant(11) as nat == 0x550c7dc3;
  }

  lemma CubeRoots12()
    ensures forall t :: 12 <= t < 16 ==> CubeBits(PrimeAt(t), RoundConstant(t) as nat)
  {
    assert CubeBits(41, 0x72be5d74);
    assert CubeBits(43, 0x80deb1fe);
    assert CubeBits(47, 0x9bdc06a7);
    assert CubeBits(53, 0xc19bf174);
    hide CubeBits;
    assert PrimeAt(12) == 41 && RoundConstant(12) as nat == 0x72be5d74;
    assert PrimeAt(13) == 43 && RoundConstant(13) as nat == 0x80deb1fe;
    assert PrimeAt(14) == 47 && RoundConstant(14) as nat == 0x9bdc06a7;
    assert PrimeAt(15) == 53 && RoundConstant(15) as nat == 0xc19bf174;
  }

  lemma CubeRoots16()
    ensures forall t :: 16 <= t < 20 ==> CubeBits(PrimeAt(t), RoundConstant(t) as nat)
  {
    assert CubeBits(59, 0xe49b69c1);
    assert CubeBits(61, 0xefbe4786);
    assert CubeBits(67, 0x0fc19dc6);
    assert CubeBits(71, 0x240ca1cc);
    hide CubeBits;
    assert PrimeAt(16) == 59 && RoundConstant(16) as nat == 0xe49b69c1;
    assert PrimeAt(17) == 61 && RoundConstant(17) as nat == 0xefbe4786;
    assert PrimeAt(18) == 67 && RoundConstant(18) as nat == 0x0fc19dc6;
    assert PrimeAt(19) == 71 && RoundConstant(19) as nat == 0x240ca1cc;
  }

  lemma CubeRoots20()
    ensures forall t :: 20 <= t < 24 ==> CubeBits(PrimeAt(t), RoundConstant(t) as nat)
  {
    assert CubeBits(73, 0x2de92c6f);
    assert CubeBits(79, 0x4a7484aa);
    assert CubeBits(83, 0x5cb0a9dc);
    assert CubeBits(89, 0x76f988da);
    hide CubeBits;
    assert PrimeAt(20) == 73 && RoundConstant(20) as nat == 0x2de92c6f;
    assert PrimeAt(21) == 79 && RoundConstant(21) as nat == 0x4a7484aa;
    assert PrimeAt(22) == 83 && RoundConstant(22) as nat == 0x5cb0a9dc;
    assert PrimeAt(23) == 89 && RoundConstant(23) as nat == 0x76f988da;
  }

  lemma CubeRoots24()
    ensures forall t :: 24 <= t < 28 ==> CubeBits(PrimeAt(t), RoundConstant(t) as nat)
  {
    assert CubeBits(97, 0x983e5152);
    assert CubeBits(101, 0xa831c66d);
    assert CubeBits(103, 0xb00327c8);
    assert CubeBits(107, 0xbf597fc7);
    hide CubeBits;
    assert PrimeAt(24) == 97 && RoundConstant(24) as nat == 0x983e5152;
    assert PrimeAt(25) == 101 && RoundConstant(25) as nat == 0xa831c66d;
    assert PrimeAt(26) == 103 && RoundConstant(26) as nat == 0xb00327c8;
    assert PrimeAt(27) == 107 && RoundConstant(27) as nat == 0xbf597fc7;
  }

  lemma CubeRoots28()
    ensures forall t :: 28 <= t < 32 ==> CubeBits(PrimeAt(t), RoundConstant(t) as nat)
  {
    assert CubeBits(109, 0xc6e00bf3);
    assert CubeBits(113, 0xd5a79147);
    assert CubeBits(127, 0x06ca6351);
    assert CubeBits(131, 0x14292967);
    hide CubeBits;
    assert PrimeAt(28) == 109 && RoundConstant(28) as nat == 0xc6e00bf3;
    assert PrimeAt(29) == 113 && RoundConstant(29) as nat == 0xd5a79147;
    assert PrimeAt(30) == 127 && RoundConstant(30) as nat == 0x06ca6351;
    assert PrimeAt(31) == 131 && RoundConstant(31) as nat == 0x14292967;
  }

  lemma CubeRoots32()
    ensures forall t :: 32 <= t < 36 ==> CubeBits(PrimeAt(t), RoundConstant(t) as nat)
  {
    assert CubeBits(137, 0x27b70a85);
    assert CubeBits(139, 0x2e1b2138);
    assert CubeBits(149, 0x4d2c6dfc);
    assert CubeBits(151, 0x53380d13);
    hide CubeBits;
    assert PrimeAt(32) == 137 && RoundConstant(32) as nat == 0x27b70a85;
    assert PrimeAt(33) == 139 && RoundConstant(33) as nat == 0x2e1b2138;
    assert PrimeAt(34) == 149 && RoundConstant(34) as nat == 0x4d2c6dfc;
    assert PrimeAt(35) == 151 && RoundConstant(35) as nat == 0x53380d13;
  }

  lemma CubeRoots36()
    ensures forall t :: 36 <= t < 40 ==> CubeBits(PrimeAt(t), RoundConstant(t) as nat)
  {
    assert CubeBits(157, 0x650a7354);
    assert CubeBits(163, 0x766a0abb);
    assert CubeBits(167, 0x81c2c92e);
    assert CubeBits(173, 0x92722c85);
    hide CubeBits;
    assert PrimeAt(36) == 157 && RoundConstant(36) as nat == 0x650a7354;
    assert PrimeAt(37) == 163 && RoundConstant(37) as nat == 0x766a0abb;
    assert PrimeAt(38) == 167 && RoundConstant(38) as nat == 0x81c2c92e;
    assert PrimeAt(39) == 173 && RoundConstant(39) as nat == 0x92722c85;
  }

  lemma CubeRoots40()
    ensures forall t :: 40 <= t < 44 ==> CubeBits(PrimeAt(t), RoundConstant(t) as nat)
  {
    assert CubeBits(179, 0xa2bfe8a1);
    assert CubeBits(181, 0xa81a664b);
    assert CubeBits(191, 0xc24b8b70);
    assert CubeBits(193, 0xc76c51a3);
    hide CubeBits;
    assert PrimeAt(40) == 179 && RoundConstant(40) as nat == 0xa2bfe8a1;
    assert PrimeAt(41) == 181 && RoundConstant(41) as nat == 0xa81a664b;
    assert PrimeAt(42) == 191 && RoundConstant(42) as nat == 0xc24b8b70;
    assert PrimeAt(43) == 193 && RoundConstant(43) as nat == 0xc76c51a3;
  }

  lemma CubeRoots44()
    ensures forall t :: 44 <= t < 48 ==> CubeBits(PrimeAt(t), RoundConstant(t) as nat)
  {
    assert CubeBits(197, 0xd192e819);
    assert CubeBits(199, 0xd6990624);
    assert CubeBits(211, 0xf40e3585);
    assert CubeBits(223, 0x106aa070);
    hide CubeBits;
    assert PrimeAt(44) == 197 && RoundConstant(44) as nat == 0xd192e819;
    assert PrimeAt(45) == 199 && RoundConstant(45) as nat == 0xd6990624;
    assert PrimeAt(46) == 211 && RoundConstant(46) as nat == 0xf40e3585;
    assert PrimeAt(47) == 223 && RoundConstant(47) as nat == 0x106aa070;
  }

  lemma CubeRoots48()
    ensures forall t :: 48 <= t < 52 ==> CubeBits(PrimeAt(t), RoundConstant(t) as nat)
  {
    assert CubeBits(227, 0x19a4c116);
    assert CubeBits(229, 0x1e376c08);
    assert CubeBits(233, 0x2748774c);
    assert CubeBits(239, 0x34b0bcb5);
    hide CubeBits;
    assert PrimeAt(48) == 227 && RoundConstant(48) as nat == 0x19a4c116;
    assert PrimeAt(49) == 229 && RoundConstant(49) as nat == 0x1e376c08;
    assert PrimeAt(50) == 233 && RoundConstant(50) as nat == 0x2748774c;
    assert PrimeAt(51) == 239 && RoundConstant(51) as nat == 0x34b0bcb5;
  }

  lemma CubeRoots52()
    ensures forall t :: 52 <= t < 56 ==> CubeBits(PrimeAt(t), RoundConstant(t) as nat)
  {
    assert CubeBits(241, 0x391c0cb3);
    assert CubeBits(251, 0x4ed8aa4a);
    assert CubeBits(257, 0x5b9cca4f);
    assert CubeBits(263, 0x682e6ff3);
    hide CubeBits;
    assert PrimeAt(52) == 241 && RoundConstant(52) as nat == 0x391c0cb3;
    assert PrimeAt(53) == 251 && RoundConstant(53) as nat == 0x4ed8aa4a;
    assert PrimeAt(54) == 257 && RoundConstant(54) as nat == 0x5b9cca4f;
    assert PrimeAt(55) == 263 && RoundConstant(55) as nat == 0x682e6ff3;
  }

  lemma CubeRoots56()
    ensures forall t :: 56 <= t < 60 ==> CubeBits(PrimeAt(t), RoundConstant(t) as nat)
  {
    assert CubeBits(269, 0x748f82ee);
    assert CubeBits(271, 0x78a5636f);
    assert CubeBits(277, 0x84c87814);
    assert CubeBits(281, 0x8cc70208);
    hide CubeBits;
    assert PrimeAt(56) == 269 && RoundConstant(56) as nat == 0x748f82ee;
    assert PrimeAt(57) == 271 && RoundConstant(57) as nat == 0x78a5636f;
    assert PrimeAt(58) == 277 && RoundConstant(58) as nat == 0x84c87814;
    assert PrimeAt(59) == 281 && RoundConstant(59) as nat == 0x8cc70208;
  }

  lemma CubeRoots60()
    ensures forall t :: 60 <= t < 64 ==> CubeBits(PrimeAt(t), RoundConstant(t) as nat)
  {
    assert CubeBits(283, 0x90befffa);
    assert CubeBits(293, 0xa4506ceb);
    assert CubeBits(307, 0xbef9a3f7);
    assert CubeBits(311, 0xc67178f2);
    hide CubeBits;
    assert PrimeAt(60) == 283 && RoundConstant(60) as nat == 0x90befffa;
    assert PrimeAt(61) == 293 && RoundConstant(61) as nat == 0xa4506ceb;
    assert PrimeAt(62) == 307 && RoundConstant(62) as nat == 0xbef9a3f7;
    assert PrimeAt(63) == 311 && RoundConstant(63) as nat == 0xc67178f2;
  }

  /** Every round constant is the fraction of the cube root of its prime. */
  lemma RoundConstantsAreCubeRoots()
    ensures forall t :: 0 <= t < 64 ==> CubeBits(PrimeAt(t), RoundConstant(t) as nat)
  {
    hide CubeBits;
    hide PrimeAt;
    hide RoundConstant;
    CubeRoots0();
    CubeRoots4();
    CubeRoots8();
    CubeRoots12();
    CubeRoots16();
    CubeRoots20();
    CubeRoots24();
    CubeRoots28();
    CubeRoots32();
    CubeRoots36();
    CubeRoots40();
    CubeRoots44();
    CubeRoots48();
    CubeRoots52();
    CubeRoots56();
    CubeRoots60();
  }

  /** Every initial word is the fraction of the square root of its prime. */
  lemma InitialIsSquareRoots()
    ensures forall i :: 0 <= i < 8 ==> SquareBits(PrimeAt(i), INITIAL[i] as nat)
  {
    assert SquareBits(2, 0x6a09e667);
    assert SquareBits(3, 0xbb67ae85);
    assert SquareBits(5, 0x3c6ef372);
    assert SquareBits(7, 0xa54ff53a);
    assert SquareBits(11, 0x510e527f);
    assert SquareBits(13, 0x9b05688c);
    assert SquareBits(17, 0x1f83d9ab);
    assert SquareBits(19, 0x5be0cd19);
    hide SquareBits;
    assert PrimeAt(0) == 2 && INITIAL[0] as nat == 0x6a09e667;
    assert PrimeAt(1) == 3 && INITIAL[1] as nat == 0xbb67ae85;
    assert PrimeAt(2) == 5 && INITIAL[2] as nat == 0x3c6ef372;
    assert PrimeAt(3) == 7 && INITIAL[3] as nat == 0xa54ff53a;
    assert PrimeAt(4) == 11 && INITIAL[4] as nat == 0x510e527f;
    assert PrimeAt(5) == 13 && INITIAL[5] as nat == 0x9b05688c;
    assert PrimeAt(6) == 17 && INITIAL[6] as nat == 0x1f83d9ab;
    assert PrimeAt(7) == 19 && INITIAL[7] as nat == 0x5be0cd19;
  }
}
