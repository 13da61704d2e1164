/**
 The pieces of SHA-256 (src/verify/sha256.cpp) against what FIPS 180-4 says of
 them in other words: the logical functions bit by bit, the constants as roots of
 primes, the byte order as positional notation.
 */
module Sha256Standard {
  import opened Basics
  import opened Sha256

  // ------------------------------------------------------------- Bit by bit

  predicate Bit(x: Word, i: Place) {
    (x >> i) & 1 == 1
  }

  /** Exclusive or of three bits: an odd number of them is set. */
  predicate Odd(a: bool, b: bool, c: bool) {
    var count := (if a then 1 else 0) + (if b then 1 else 0) + (if c then 1 else 0);
    count % 2 == 1
  }

  lemma AndBit(x: Word, y: Word, i: Place)
    ensures Bit(x & y, i) <==> Bit(x, i) && Bit(y, i)
  {
  }

  lemma NotBit(x: Word, i: Place)
    ensures Bit(!x, i) <==> !Bit(x, i)
  {
  }

  lemma OperatorBit(x: Word, y: Word, i: Place)
    ensures Bit(x ^ y, i) <==> Bit(x, i) != Bit(y, i)
  {
  }

  lemma XorBit(x: Word, y: Word, i: Place)
    ensures Bit(Xor(x, y), i) <==> Bit(x, i) != Bit(y, i)
  {
    hide Bit;
    OperatorBit(x, y, i);
  }

  lemma ThreeBits(x: Word, y: Word, z: Word, i: Place)
    ensures Bit(Xor(Xor(x, y), z), i) <==> Odd(Bit(x, i), Bit(y, i), Bit(z, i))
  {
    hide Bit, Xor;
    XorBit(x, y, i);
    XorBit(Xor(x, y), z, i);
  }

  /** Section 4.1.2: each bit of x chooses between the same bits of y and z. */
  lemma ChooseBits(x: Word, y: Word, z: Word, i: Place)
    ensures Bit(Choose(x, y, z), i) <==> if Bit(x, i) then Bit(y, i) else Bit(z, i)
  {
    hide Bit, Xor;
    NotBit(x, i);
    AndBit(x, y, i);
    AndBit(!x, z, i);
    XorBit(x & y, !x & z, i);
  }

  /** A bit is set where at least two of the three are. */
  lemma MajorityBits(x: Word, y: Word, z: Word, i: Place)
    ensures Bit(Majority(x, y, z), i) <==>
            (Bit(x, i) && Bit(y, i)) || (Bit(x, i) && Bit(z, i)) || (Bit(y, i) && Bit(z, i))
  {
    hide Bit, Xor;
    AndBit(x, y, i);
    AndBit(x, z, i);
    AndBit(y, z, i);
    XorBit(x & y, x & z, i);
    XorBit(Xor(x & y, x & z), y & z, i);
  }

  lemma OrBit(x: Word, y: Word, i: Place)
    ensures Bit(x | y, i) <==> Bit(x, i) || Bit(y, i)
  {
  }

  lemma ShiftRightBit(x: Word, n: Place, i: Place)
    requires n != 0
    ensures Bit(ShiftRight(x, n), i) <==> i <= 31 - n && Bit(x, i + n)
  {
  }

  lemma ShiftLeftBit(x: Word, n: Place, i: Place)
    requires n != 0
    ensures Bit(ShiftLeft(x, 0 - n), i) <==> i > 31 - n && Bit(x, i + n)
  {
  }

  /** Section 3.2: a rotation moves every bit n places down, round the end of the word. */
  lemma RotateRightBits(x: Word, n: Place, i: Place)
    requires n != 0
    ensures Bit(RotateRight(x, n), i) <==> Bit(x, i + n)
  {
    hide Bit, ShiftRight, ShiftLeft;
    ShiftRightBit(x, n, i);
    ShiftLeftBit(x, n, i);
    OrBit(ShiftRight(x, n), ShiftLeft(x, 0 - n), i);
  }

  // Section 4.1.2: the bits that meet in each bit of the four sigmas.

  lemma BigSigma0Bits(x: Word, i: Place)
    ensures Bit(BigSigma0(x), i) <==> Odd(Bit(x, i + 2), Bit(x, i + 13), Bit(x, i + 22))
  {
    hide Bit, Xor, Odd, RotateRight, ShiftRight;
    RotateRightBits(x, 2, i);
    RotateRightBits(x, 13, i);
    RotateRightBits(x, 22, i);
    ThreeBits(RotateRight(x, 2), RotateRight(x, 13), RotateRight(x, 22), i);
  }

  lemma BigSigma1Bits(x: Word, i: Place)
    ensures Bit(BigSigma1(x), i) <==> Odd(Bit(x, i + 6), Bit(x, i + 11), Bit(x, i + 25))
  {
    hide Bit, Xor, Odd, RotateRight, ShiftRight;
    RotateRightBits(x, 6, i);
    RotateRightBits(x, 11, i);
    RotateRightBits(x, 25, i);
    ThreeBits(RotateRight(x, 6), RotateRight(x, 11), RotateRight(x, 25), i);
  }

  lemma SmallSigma0Bits(x: Word, i: Place)
    ensures Bit(SmallSigma0(x), i) <==> Odd(Bit(x, i + 7), Bit(x, i + 18), i <= 28 && Bit(x, i + 3))
  {
    hide Bit, Xor, Odd, RotateRight, ShiftRight;
    RotateRightBits(x, 7, i);
    RotateRightBits(x, 18, i);
    ShiftRightBit(x, 3, i);
    ThreeBits(RotateRight(x, 7), RotateRight(x, 18), ShiftRight(x, 3), i);
  }

  lemma SmallSigma1Bits(x: Word, i: Place)
    ensures Bit(SmallSigma1(x), i) <==> Odd(Bit(x, i + 17), Bit(x, i + 19), i <= 21 && Bit(x, i + 10))
  {
    hide Bit, Xor, Odd, RotateRight, ShiftRight;
    RotateRightBits(x, 17, i);
    RotateRightBits(x, 19, i);
    ShiftRightBit(x, 10, i);
    ThreeBits(RotateRight(x, 17), RotateRight(x, 19), ShiftRight(x, 10), i);
  }

  // ---------------------------------------------------- The first 64 primes

  const PRIMES: seq<nat> :=
      [2, 3, 5, 7, 11, 13, 17, 19, 23, 29, 31, 37, 41, 43, 47, 53]
    + [59, 61, 67, 71, 73, 79, 83, 89, 97, 101, 103, 107, 109, 113, 127, 131]
    + [137, 139, 149, 151, 157, 163, 167, 173, 179, 181, 191, 193, 197, 199, 211, 223]
    + [227, 229, 233, 239, 241, 251, 257, 263, 269, 271, 277, 281, 283, 293, 307, 311]

  lemma SixtyFourPrimes()
    ensures |PRIMES| == |ROUND_CONSTANTS| == 64
  {
  }

  predicate Divides(d: Positive, n: nat) {
    n % d == 0
  }

  ghost predicate IsPrime(n: nat) {
    n >= 2 && forall d :: 2 <= d < n ==> !Divides(d, n)
  }

  predicate Splits(n: nat) {
    Divides(2, n) || Divides(3, n) || Divides(5, n) || Divides(7, n) || Divides(11, n) || Divides(13, n)
    || Divides(17, n)
  }

  lemma MultipleDivides(q: nat, d: Positive)
    ensures Divides(d, q * d)
  {
    var k := q - q * d / d;
    assert q * d % d == k * d;
    if k >= 1 {
      ProductGrows(1, d, k, d);
    } else if k <= -1 {
      ProductGrows(1, d, -k, d);
    }
  }

  lemma ProductGrows(a: nat, b: nat, c: nat, d: nat)
    requires a <= c && b <= d
    ensures a * b <= c * d
  {
    assert a * b <= c * b <= c * d;
  }

  lemma FactorDivides(n: nat, a: Positive, b: Positive)
    requires Divides(a * b, n)
    ensures Divides(a, n)
  {
    var q := n / (a * b);
    assert n == a * b * q == b * q * a;
    MultipleDivides(b * q, a);
  }

  /** A divisor up to 17 brings one of the primes with it. */
  lemma SmallDivisor(n: nat, d: nat)
    requires 2 <= d <= 17 && Divides(d, n)
    ensures Splits(n)
  {
    hide Divides;
    if d in {4, 6, 8, 10, 12, 14, 16} {
      assert d / 2 * 2 == d;
      FactorDivides(n, 2, d / 2);
    } else if d in {9, 15} {
      FactorDivides(n, 3, d / 3);
    }
  }

  /** Up to 18^2 - 1 the divisors to try end at 17. */
  lemma PrimeIff(n: nat)
    requires 17 < n < 324
    ensures IsPrime(n) <==> !Splits(n)
  {
    if !Splits(n) {
      forall d | 2 <= d < n
        ensures !Divides(d, n)
      {
        if Divides(d, n) {
          var q := Quotient(n, d);
          hide Divides;
          if d <= 17 {
            SmallDivisor(n, d);
          } else if q <= 17 {
            SmallDivisor(n, q);
          } else {
            ProductGrows(18, 18, q, d);
          }
        }
      }
    }
  }

  lemma Quotient(n: nat, d: nat) returns (q: nat)
    requires 2 <= d < n && Divides(d, n)
    ensures n == q * d && 2 <= q && Divides(q, n)
  {
    q := n / d;
    assert n == q * d;
    assert q != 0 && q != 1;
    MultipleDivides(d, q);
  }

  predicate AllSplit(low: nat, high: nat)
    decreases high - low
  {
    low >= high || (Splits(low) && AllSplit(low + 1, high))
  }

  lemma {:induction false} SplitsBetween(low: nat, high: nat, n: nat)
    requires AllSplit(low, high) && low <= n < high
    ensures Splits(n)
    decreases high - low
  {
    hide Splits;
    if low < n {
      SplitsBetween(low + 1, high, n);
    }
  }

  /** q is the next prime after p, as far as trial division up to 17 goes. */
  predicate Follows(p: nat, q: nat) {
    17 <= p < q < 324 && !Splits(q) && AllSplit(p + 1, q)
  }

  /** From place t on, `count` primes that follow one another. */
  predicate Consecutive(t: nat, count: nat)
    requires 1 <= t && t + count <= 64
    decreases count
  {
    SixtyFourPrimes();
    count == 0 || (Follows(PRIMES[t - 1], PRIMES[t]) && Consecutive(t + 1, count - 1))
  }

  lemma Primes19To31()
    ensures Follows(17, 19) && Follows(19, 23) && Follows(23, 29) && Follows(29, 31)
  {
  }

  lemma Primes37To47()
    ensures Follows(31, 37) && Follows(37, 41) && Follows(41, 43) && Follows(43, 47)
  {
  }

  lemma Primes53To67()
    ensures Follows(47, 53) && Follows(53, 59) && Follows(59, 61) && Follows(61, 67)
  {
  }

  lemma Primes71To83()
    ensures Follows(67, 71) && Follows(71, 73) && Follows(73, 79) && Follows(79, 83)
  {
  }

  lemma Primes89To103()
    ensures Follows(83, 89) && Follows(89, 97) && Follows(97, 101) && Follows(101, 103)
  {
  }

  lemma Primes107To127()
    ensures Follows(103, 107) && Follows(107, 109) && Follows(109, 113) && Follows(113, 127)
  {
  }

  lemma Primes131To149()
    ensures Follows(127, 131) && Follows(131, 137) && Follows(137, 139) && Follows(139, 149)
  {
  }

  lemma Primes151To167()
    ensures Follows(149, 151) && Follows(151, 157) && Follows(157, 163) && Follows(163, 167)
  {
  }

  lemma Primes173To191()
    ensures Follows(167, 173) && Follows(173, 179) && Follows(179, 181) && Follows(181, 191)
  {
  }

  lemma Primes193To211()
    ensures Follows(191, 193) && Follows(193, 197) && Follows(197, 199) && Follows(199, 211)
  {
  }

  lemma Primes223To233()
    ensures Follows(211, 223) && Follows(223, 227) && Follows(227, 229) && Follows(229, 233)
  {
  }

  lemma Primes239To257()
    ensures Follows(233, 239) && Follows(239, 241) && Follows(241, 251) && Follows(251, 257)
  {
  }

  lemma Primes263To277()
    ensures Follows(257, 263) && Follows(263, 269) && Follows(269, 271) && Follows(271, 277)
  {
  }

  lemma Primes281To311()
    ensures Follows(277, 281) && Follows(281, 283) && Follows(283, 293) && Follows(293, 307) && Follows(307, 311)
  {
  }

  lemma PlacesFrom7()
    ensures Consecutive(7, 8)
  {
    hide Follows;
    Primes19To31();
    Primes37To47();
  }

  lemma PlacesFrom15()
    ensures Consecutive(15, 8)
  {
    hide Follows;
    Primes53To67();
    Primes71To83();
  }

  lemma PlacesFrom23()
    ensures Consecutive(23, 8)
  {
    hide Follows;
    Primes89To103();
    Primes107To127();
  }

  lemma PlacesFrom31()
    ensures Consecutive(31, 8)
  {
    hide Follows;
    Primes131To149();
    Primes151To167();
  }

  lemma PlacesFrom39()
    ensures Consecutive(39, 8)
  {
    hide Follows;
    Primes173To191();
    Primes193To211();
  }

  lemma PlacesFrom47()
    ensures Consecutive(47, 8)
  {
    hide Follows;
    Primes223To233();
    Primes239To257();
  }

  lemma PlacesFrom55()
    ensures Consecutive(55, 9)
  {
    hide Follows;
    Primes263To277();
    Primes281To311();
  }

  lemma {:induction false} ConsecutiveAt(t: nat, count: nat, k: nat)
    requires 1 <= t <= k < t + count <= 64 && Consecutive(t, count)
    ensures |PRIMES| == 64 && Follows(PRIMES[k - 1], PRIMES[k])
    decreases count
  {
    SixtyFourPrimes();
    hide Follows;
    if t < k {
      ConsecutiveAt(t + 1, count - 1, k);
    }
  }

  lemma EachFollows(k: nat)
    requires 7 <= k < 64
    ensures |PRIMES| == 64 && Follows(PRIMES[k - 1], PRIMES[k])
  {
    hide *;
    if k < 15 {
      PlacesFrom7();
      ConsecutiveAt(7, 8, k);
    } else if k < 23 {
      PlacesFrom15();
      ConsecutiveAt(15, 8, k);
    } else if k < 31 {
      PlacesFrom23();
      ConsecutiveAt(23, 8, k);
    } else if k < 39 {
      PlacesFrom31();
      ConsecutiveAt(31, 8, k);
    } else if k < 47 {
      PlacesFrom39();
      ConsecutiveAt(39, 8, k);
    } else if k < 55 {
      PlacesFrom47();
      ConsecutiveAt(47, 8, k);
    } else {
      PlacesFrom55();
      ConsecutiveAt(55, 9, k);
    }
  }

  lemma FollowingPrimes(p: nat, q: nat, n: nat)
    requires Follows(p, q)
    ensures IsPrime(q)
    ensures p < n < q ==> !IsPrime(n)
  {
    hide Splits, IsPrime;
    PrimeIff(q);
    if p < n < q {
      SplitsBetween(p + 1, q, n);
      PrimeIff(n);
    }
  }

  lemma FirstSeven(t: nat)
    requires t < 7
    ensures |PRIMES| == 64 && PRIMES[0] == 2 && IsPrime(PRIMES[t])
    ensures t > 0 ==> PRIMES[t - 1] < PRIMES[t]
    ensures t > 0 ==> forall n :: PRIMES[t - 1] < n < PRIMES[t] ==> !IsPrime(n)
  {
    SixtyFourPrimes();
    assert PRIMES[0] == 2 && PRIMES[1] == 3 && PRIMES[2] == 5 && PRIMES[3] == 7;
    assert PRIMES[4] == 11 && PRIMES[5] == 13 && PRIMES[6] == 17;
    assert Divides(2, 4) && Divides(2, 6) && Divides(2, 8) && Divides(3, 9) && Divides(2, 10);
    assert Divides(2, 12) && Divides(2, 14) && Divides(3, 15) && Divides(2, 16);
  }

  /** The list holds the first 64 primes: it begins with 2, and each entry is the next prime after the one before. */
  lemma FirstPrimes(t: nat)
    requires t < 64
    ensures |PRIMES| == 64 && PRIMES[0] == 2 && IsPrime(PRIMES[t])
    ensures t > 0 ==> PRIMES[t - 1] < PRIMES[t] && forall n :: PRIMES[t - 1] < n < PRIMES[t] ==> !IsPrime(n)
  {
    hide IsPrime;
    FirstSeven(0);
    if t < 7 {
      FirstSeven(t);
    } else {
      EachFollows(t);
      forall n
        ensures IsPrime(PRIMES[t]) && (PRIMES[t - 1] < n < PRIMES[t] ==> !IsPrime(n))
      {
        FollowingPrimes(PRIMES[t - 1], PRIMES[t], n);
      }
    }
  }

  // ------------------------------------------------------- Roots of primes

  const WORD_VALUES := 0x1_0000_0000

  function Square(n: nat): nat { n * n }
  function Cube(n: nat): nat { n * n * n }

  /** The first 32 bits behind the point of the square root of p, whose whole part is w. */
  predicate IsSquareRootFraction(k: Word, p: nat, w: nat) {
    Square(w * WORD_VALUES + k as int) <= p * Square(WORD_VALUES) < Square(w * WORD_VALUES + k as int + 1)
  }

  predicate IsCubeRootFraction(k: Word, p: nat, w: nat) {
    Cube(w * WORD_VALUES + k as int) <= p * Cube(WORD_VALUES) < Cube(w * WORD_VALUES + k as int + 1)
  }

  predicate CubeRoot(t: nat, w: nat)
    requires t < 64
  {
    SixtyFourPrimes();
    IsCubeRootFraction(ROUND_CONSTANTS[t], PRIMES[t], w)
  }

  predicate CubeRoots(t: nat, count: nat, w: nat)
    requires t + count <= 64
    decreases count
  {
    count == 0 || (CubeRoot(t, w) && CubeRoots(t + 1, count - 1, w))
  }

  lemma CubeRootsFrom0()
    ensures CubeRoots(0, 4, 1)
  {
  }

  lemma CubeRootsFrom4()
    ensures CubeRoots(4, 5, 2)
  {
  }

  lemma CubeRootsFrom9()
    ensures CubeRoots(9, 6, 3)
  {
  }

  lemma CubeRootsFrom15()
    ensures CubeRoots(15, 3, 3)
  {
  }

  lemma CubeRootsFrom18()
    ensures CubeRoots(18, 6, 4)
  {
  }

  lemma CubeRootsFrom24()
    ensures CubeRoots(24, 6, 4)
  {
  }

  lemma CubeRootsFrom30()
    ensures CubeRoots(30, 6, 5)
  {
  }

  lemma CubeRootsFrom36()
    ensures CubeRoots(36, 6, 5)
  {
  }

  lemma CubeRootsFrom42()
    ensures CubeRoots(42, 5, 5)
  {
  }

  lemma CubeRootsFrom47()
    ensures CubeRoots(47, 6, 6)
  {
  }

  lemma CubeRootsFrom53()
    ensures CubeRoots(53, 6, 6)
  {
  }

  lemma CubeRootsFrom59()
    ensures CubeRoots(59, 5, 6)
  {
  }

  lemma {:induction false} CubeRootAt(t: nat, count: nat, w: nat, k: nat)
    requires t <= k < t + count <= 64 && CubeRoots(t, count, w)
    ensures CubeRoot(k, w)
    decreases count
  {
    hide CubeRoot;
    if t < k {
      CubeRootAt(t + 1, count - 1, w, k);
    }
  }

  lemma FractionOfRoot(t: nat, w: nat)
    requires t < 64 && CubeRoot(t, w)
    ensures |PRIMES| == |ROUND_CONSTANTS| == 64 && IsCubeRootFraction(ROUND_CONSTANTS[t], PRIMES[t], w)
  {
    hide IsCubeRootFraction;
    SixtyFourPrimes();
  }

  /**
   Section 4.2.2: the t-th round constant is the first 32 bits behind the point of
   the cube root of the t-th prime.
   */
  lemma RoundConstantsAreCubeRoots(t: nat) returns (w: nat)
    requires t < 64
    ensures |PRIMES| == |ROUND_CONSTANTS| == 64 && IsCubeRootFraction(ROUND_CONSTANTS[t], PRIMES[t], w)
  {
    hide *;
    if t < 4 {
      w := 1;
      CubeRootsFrom0();
      CubeRootAt(0, 4, 1, t);
    } else if t < 9 {
      w := 2;
      CubeRootsFrom4();
      CubeRootAt(4, 5, 2, t);
    } else if t < 15 {
      w := 3;
      CubeRootsFrom9();
      CubeRootAt(9, 6, 3, t);
    } else if t < 18 {
      w := 3;
      CubeRootsFrom15();
      CubeRootAt(15, 3, 3, t);
    } else if t < 24 {
      w := 4;
      CubeRootsFrom18();
      CubeRootAt(18, 6, 4, t);
    } else if t < 30 {
      w := 4;
      CubeRootsFrom24();
      CubeRootAt(24, 6, 4, t);
    } else if t < 36 {
      w := 5;
      CubeRootsFrom30();
      CubeRootAt(30, 6, 5, t);
    } else if t < 42 {
      w := 5;
      CubeRootsFrom36();
      CubeRootAt(36, 6, 5, t);
    } else if t < 47 {
      w := 5;
      CubeRootsFrom42();
      CubeRootAt(42, 5, 5, t);
    } else if t < 53 {
      w := 6;
      CubeRootsFrom47();
      CubeRootAt(47, 6, 6, t);
    } else if t < 59 {
      w := 6;
      CubeRootsFrom53();
      CubeRootAt(53, 6, 6, t);
    } else {
      w := 6;
      CubeRootsFrom59();
      CubeRootAt(59, 5, 6, t);
    }
    FractionOfRoot(t, w);
  }

  /** Section 5.3.3: the initial words are the same of the square roots of the first eight primes. */
  lemma InitialIsSquareRoots()
    ensures IsSquareRootFraction(INITIAL.a, 2, 1) && IsSquareRootFraction(INITIAL.b, 3, 1)
    ensures IsSquareRootFraction(INITIAL.c, 5, 2) && IsSquareRootFraction(INITIAL.d, 7, 2)
    ensures IsSquareRootFraction(INITIAL.e, 11, 3) && IsSquareRootFraction(INITIAL.f, 13, 3)
    ensures IsSquareRootFraction(INITIAL.g, 17, 4) && IsSquareRootFraction(INITIAL.h, 19, 4)
  {
  }

  // ------------------------------------------------------------- Byte order

  lemma BytesOfWord(w: Word)
    ensures (((w >> 24) & 0xFF) as bv8 as bv32 << 24) | (((w >> 16) & 0xFF) as bv8 as bv32 << 16)
            | (((w >> 8) & 0xFF) as bv8 as bv32 << 8) | ((w & 0xFF) as bv8 as bv32) == w
  {
  }

  lemma ByteReadsBack(w: Word)
    ensures ByteOf(w) as bv8 == (w & 0xFF) as bv8
  {
  }

  /** A word written as four bytes reads back. */
  lemma WordReadsBack(w: Word)
    ensures BigEndianWord(WordBytes(w), 0) == w
  {
    ByteReadsBack(w >> 24);
    ByteReadsBack(w >> 16);
    ByteReadsBack(w >> 8);
    ByteReadsBack(w);
    hide ByteOf;
    BytesOfWord(w);
  }

  lemma FourBytes(a: bv8, b: bv8, c: bv8, d: bv8)
    ensures var w := (a as bv32 << 24) | (b as bv32 << 16) | (c as bv32 << 8) | (d as bv32);
      && ((w >> 24) & 0xFF) as bv8 == a && ((w >> 16) & 0xFF) as bv8 == b
      && ((w >> 8) & 0xFF) as bv8 == c && (w & 0xFF) as bv8 == d
  {
  }

  /** And any four bytes read as a word are written back. */
  lemma BytesReadBack(a: bv8, b: bv8, c: bv8, d: bv8)
    ensures var bytes: Bytes := [a as int, b as int, c as int, d as int];
      WordBytes(BigEndianWord(bytes, 0)) == bytes
  {
    FourBytes(a, b, c, d);
  }

  /** The number that bytes spell, the first the most significant. */
  function PlaceValue(b: Bytes): nat {
    if b == [] then 0 else 256 * PlaceValue(b[..|b| - 1]) + b[|b| - 1]
  }

  /** Section 5.1.1: the length is written in positional notation, in base 256. */
  lemma {:induction false} BigEndianIsPositional(n: nat, width: nat)
    requires n < Power256(width)
    ensures PlaceValue(BigEndian(n, width)) == n
  {
    if width > 0 {
      BigEndianIsPositional(n / 256, width - 1);
      assert BigEndian(n, width)[..width - 1] == BigEndian(n / 256, width - 1);
    }
  }
}
