/**
 SHA-256 (src/verify/sha256.cpp): the one-shot definition of FIPS 180-4, and
 the streaming hasher that must agree with it however its input is cut up.
 */
module Sha256 {
  import opened Basics

  type Word = bv32
  type Place = bv5  // a bit's place, counted from the lowest, modulo 32

  const BLOCK := 64

  // ------------------------------------------- FIPS 180-4 section 4.1.2, 4.2.2

  function ShiftRight(x: Word, n: Place): Word { x >> n }
  function ShiftLeft(x: Word, n: Place): Word { x << n }

  function RotateRight(x: Word, n: Place): Word
    requires n != 0
  {
    ShiftRight(x, n) | ShiftLeft(x, 0 - n)  // 32 - n
  }

  /** Addition modulo 2^32. */
  function Sum(x: Word, y: Word): Word { x + y }

  function Xor(x: Word, y: Word): Word { x ^ y }

  function Choose(x: Word, y: Word, z: Word): Word { Xor(x & y, !x & z) }
  function Majority(x: Word, y: Word, z: Word): Word { Xor(Xor(x & y, x & z), y & z) }
  function BigSigma0(x: Word): Word { Xor(Xor(RotateRight(x, 2), RotateRight(x, 13)), RotateRight(x, 22)) }
  function BigSigma1(x: Word): Word { Xor(Xor(RotateRight(x, 6), RotateRight(x, 11)), RotateRight(x, 25)) }
  function SmallSigma0(x: Word): Word { Xor(Xor(RotateRight(x, 7), RotateRight(x, 18)), ShiftRight(x, 3)) }
  function SmallSigma1(x: Word): Word { Xor(Xor(RotateRight(x, 17), RotateRight(x, 19)), ShiftRight(x, 10)) }

  const ROUND_CONSTANTS: seq<Word> :=
      [0x428a2f98, 0x71374491, 0xb5c0fbcf, 0xe9b5dba5, 0x3956c25b, 0x59f111f1, 0x923f82a4, 0xab1c5ed5,
       0xd807aa98, 0x12835b01, 0x243185be, 0x550c7dc3, 0x72be5d74, 0x80deb1fe, 0x9bdc06a7, 0xc19bf174]
    + [0xe49b69c1, 0xefbe4786, 0x0fc19dc6, 0x240ca1cc, 0x2de92c6f, 0x4a7484aa, 0x5cb0a9dc, 0x76f988da,
       0x983e5152, 0xa831c66d, 0xb00327c8, 0xbf597fc7, 0xc6e00bf3, 0xd5a79147, 0x06ca6351, 0x14292967]
    + [0x27b70a85, 0x2e1b2138, 0x4d2c6dfc, 0x53380d13, 0x650a7354, 0x766a0abb, 0x81c2c92e, 0x92722c85,
       0xa2bfe8a1, 0xa81a664b, 0xc24b8b70, 0xc76c51a3, 0xd192e819, 0xd6990624, 0xf40e3585, 0x106aa070]
    + [0x19a4c116, 0x1e376c08, 0x2748774c, 0x34b0bcb5, 0x391c0cb3, 0x4ed8aa4a, 0x5b9cca4f, 0x682e6ff3,
       0x748f82ee, 0x78a5636f, 0x84c87814, 0x8cc70208, 0x90befffa, 0xa4506ceb, 0xbef9a3f7, 0xc67178f2]

  lemma SixtyFourConstants()
    ensures |ROUND_CONSTANTS| == 64
  {
  }

  function RoundConstant(t: nat): Word
    requires t < 64
  {
    SixtyFourConstants();
    ROUND_CONSTANTS[t]
  }

  // ------------------------------------------------ FIPS 180-4 section 6.2.2

  /** The eight working variables, and also the eight words of a hash value. */
  datatype Chain = Chain(a: Word, b: Word, c: Word, d: Word, e: Word, f: Word, g: Word, h: Word)

  const INITIAL := Chain(0x6a09e667, 0xbb67ae85, 0x3c6ef372, 0xa54ff53a,
                         0x510e527f, 0x9b05688c, 0x1f83d9ab, 0x5be0cd19)

  function BigEndianWord(block: Bytes, i: nat): Word
    requires 4 * i + 4 <= |block|
  {
    (block[4 * i] as bv8 as bv32 << 24) | (block[4 * i + 1] as bv8 as bv32 << 16)
    | (block[4 * i + 2] as bv8 as bv32 << 8) | (block[4 * i + 3] as bv8 as bv32)
  }

  /** The message schedule W. */
  function Schedule(block: Bytes, t: nat): Word
    requires |block| == BLOCK && t < 64
  {
    if t < 16 then BigEndianWord(block, t)
    else ScheduleWord(Schedule(block, t - 16), Schedule(block, t - 15), Schedule(block, t - 7), Schedule(block, t - 2))
  }

  function ScheduleWord(w16: Word, w15: Word, w7: Word, w2: Word): Word {
    w16 + SmallSigma0(w15) + w7 + SmallSigma1(w2)
  }

  function Temporary1(e: Word, f: Word, g: Word, h: Word, k: Word, w: Word): Word {
    h + BigSigma1(e) + Choose(e, f, g) + k + w
  }

  function Temporary2(a: Word, b: Word, c: Word): Word {
    BigSigma0(a) + Majority(a, b, c)
  }

  function Round(v: Chain, k: Word, w: Word): Chain {
    var t1 := Temporary1(v.e, v.f, v.g, v.h, k, w);
    var t2 := Temporary2(v.a, v.b, v.c);
    Chain(Sum(t1, t2), v.a, v.b, v.c, Sum(v.d, t1), v.e, v.f, v.g)
  }

  function Rounds(v: Chain, block: Bytes, t: nat): Chain
    requires |block| == BLOCK && t <= 64
  {
    if t == 0 then v
    else Round(Rounds(v, block, t - 1), RoundConstant(t - 1), Schedule(block, t - 1))
  }

  function Plus(x: Chain, y: Chain): Chain {
    Chain(Sum(x.a, y.a), Sum(x.b, y.b), Sum(x.c, y.c), Sum(x.d, y.d),
          Sum(x.e, y.e), Sum(x.f, y.f), Sum(x.g, y.g), Sum(x.h, y.h))
  }

  function Compress(h: Chain, block: Bytes): Chain
    requires |block| == BLOCK
  {
    Plus(h, Rounds(h, block, 64))
  }

  /** The hash value after whole blocks. */
  function HashBlocks(data: Bytes): Chain
    requires |data| % BLOCK == 0
  {
    if data == [] then INITIAL
    else
      assert |data| >= BLOCK;
      Compress(HashBlocks(data[..|data| - BLOCK]), data[|data| - BLOCK..])
  }

  // ------------------------------------------------ FIPS 180-4 section 5.1.1

  function BigEndian(n: nat, width: nat): (b: Bytes)
    ensures |b| == width
  {
    if width == 0 then [] else BigEndian(n / 256, width - 1) + [n % 256]
  }

  /** n shifted right by 8 * places bits. */
  function ShiftBytes(n: nat, places: nat): nat {
    if places == 0 then n else ShiftBytes(n / 256, places - 1)
  }

  function Zeros(n: nat): (b: Bytes)
    ensures |b| == n
  {
    seq(n, _ => 0)
  }

  /** The fewest zero bytes that leave room for the length at a block's end. */
  function ZeroCount(length: nat): (z: nat)
    ensures z < BLOCK && (length + 1 + z) % BLOCK == 56
  {
    (55 - length) % BLOCK
  }

  lemma PaddedLength(n: nat)
    requires n % BLOCK == 56
    ensures (n + 8) % BLOCK == 0
  {
  }

  function BitLength(message: Bytes): nat {
    |message| * 8 % WORDS
  }

  function Pad(message: Bytes): (p: Bytes)
    ensures |p| % BLOCK == 0
  {
    PaddedLength(|message| + 1 + ZeroCount(|message|));
    message + [0x80] + Zeros(ZeroCount(|message|)) + BigEndian(BitLength(message), 8)
  }

  function WordBytes(w: Word): (b: Bytes)
    ensures |b| == 4
  {
    [ByteOf(w >> 24), ByteOf(w >> 16), ByteOf(w >> 8), ByteOf(w)]
  }

  function ByteOf(w: Word): Byte {
    (w & 0xFF) as bv8 as int
  }

  function ChainBytes(h: Chain): (b: Bytes)
    ensures |b| == 32
  {
    WordBytes(h.a) + WordBytes(h.b) + WordBytes(h.c) + WordBytes(h.d)
    + WordBytes(h.e) + WordBytes(h.f) + WordBytes(h.g) + WordBytes(h.h)
  }

  /** The digest of the whole message at once. */
  function Digest(message: Bytes): (d: Bytes)
    ensures |d| == 32
  {
    ChainBytes(HashBlocks(Pad(message)))
  }

  // --------------------------------------------------- Properties of padding

  function Power256(k: nat): Positive {
    if k == 0 then 1 else 256 * Power256(k - 1)
  }

  lemma {:induction false} BigEndianInjective(m: nat, n: nat, width: nat)
    requires m < Power256(width) && n < Power256(width)
    requires BigEndian(m, width) == BigEndian(n, width)
    ensures m == n
  {
    if width > 0 {
      var x, y := BigEndian(m, width), BigEndian(n, width);
      assert x[..width - 1] == BigEndian(m / 256, width - 1);
      assert y[..width - 1] == BigEndian(n / 256, width - 1);
      assert x[width - 1] == m % 256 && y[width - 1] == n % 256;
      BigEndianInjective(m / 256, n / 256, width - 1);
    }
  }

  const LENGTH_LIMIT := 0x2000_0000_0000_0000

  lemma PowerEight()
    ensures Power256(8) == WORDS
  {
    assert Power256(2) == 0x1_0000;
    assert Power256(4) == 0x1_0000_0000;
    assert Power256(6) == 0x1_0000_0000_0000;
  }

  lemma PadEnds(m: Bytes)
    ensures |Pad(m)| >= |m| + 8
    ensures Pad(m)[..|m|] == m
    ensures Pad(m)[|Pad(m)| - 8..] == BigEndian(BitLength(m), 8)
  {
    hide BigEndian, BitLength, Zeros;
  }

  /** Below 2^61 bytes no two messages pad to the same blocks. */
  lemma PaddingIsInjective(m: Bytes, n: Bytes)
    requires |m| < LENGTH_LIMIT && |n| < LENGTH_LIMIT
    requires Pad(m) == Pad(n)
    ensures m == n
  {
    hide Pad, BigEndian, Power256;
    PadEnds(m);
    PadEnds(n);
    PowerEight();
    BigEndianInjective(BitLength(m), BitLength(n), 8);
  }
}
