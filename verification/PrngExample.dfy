/**
 The first number the generator draws from seed 0 (src/net/deterministic_prng.hpp),
 worked through: the one SplitMix64 is known by.
 */
module PrngExample {
  import opened Basics
  import opened Prng

  // ------------------------------------------------------- Shifts by halves

  lemma {:induction false} ShiftTwice(x: nat, j: nat, k: nat)
    ensures ShiftRight(ShiftRight(x, j), k) == ShiftRight(x, j + k)
  {
    if j > 0 {
      ShiftTwice(x / 2, j - 1, k);
    }
  }

  lemma ShiftByOne(x: nat)
    ensures ShiftRight(x, 1) == x / 2
  {
    assert ShiftRight(x / 2, 0) == x / 2;
  }

  lemma ShiftByTwo(x: nat)
    ensures ShiftRight(x, 2) == x / 4
  {
    hide ShiftRight;
    ShiftTwice(x, 1, 1);
    ShiftByOne(x);
    ShiftByOne(x / 2);
  }

  lemma ShiftByFour(x: nat)
    ensures ShiftRight(x, 4) == x / 16
  {
    hide ShiftRight;
    ShiftTwice(x, 2, 2);
    ShiftByTwo(x);
    ShiftByTwo(x / 4);
  }

  lemma ShiftByEight(x: nat)
    ensures ShiftRight(x, 8) == x / 0x100
  {
    hide ShiftRight;
    ShiftTwice(x, 4, 4);
    ShiftByFour(x);
    ShiftByFour(x / 16);
  }

  lemma ShiftBySixteen(x: nat)
    ensures ShiftRight(x, 16) == x / 0x1_0000
  {
    hide ShiftRight;
    ShiftTwice(x, 8, 8);
    ShiftByEight(x);
    ShiftByEight(x / 0x100);
  }

  lemma ShiftBy26(x: nat)
    ensures ShiftRight(x, 26) == x / 0x400_0000
  {
    hide ShiftRight;
    ShiftTwice(x, 16, 8);
    ShiftBySixteen(x);
    ShiftByEight(x / 0x1_0000);
    ShiftTwice(x, 24, 2);
    ShiftByTwo(x / 0x100_0000);
  }

  // The three shifts of the output function.

  lemma ShiftBy27(x: nat)
    ensures ShiftRight(x, 27) == x / 0x800_0000
  {
    hide ShiftRight;
    ShiftBy26(x);
    ShiftTwice(x, 26, 1);
    ShiftByOne(x / 0x400_0000);
  }

  lemma ShiftBy30(x: nat)
    ensures ShiftRight(x, 30) == x / 0x4000_0000
  {
    hide ShiftRight;
    ShiftBy26(x);
    ShiftTwice(x, 26, 4);
    ShiftByFour(x / 0x400_0000);
  }

  lemma ShiftBy31(x: nat)
    ensures ShiftRight(x, 31) == x / 0x8000_0000
  {
    hide ShiftRight;
    ShiftBy30(x);
    ShiftTwice(x, 30, 1);
    ShiftByOne(x / 0x4000_0000);
  }

  // -------------------------------------------------- Exclusive or by bytes

  lemma {:induction false} XorZero(x: nat)
    ensures Xor(x, 0) == x
  {
    if x > 0 {
      XorZero(x / 2);
    }
  }

  /** Given Xor of the higher bits, z is that of x and y as far as its low `bits` bits go. */
  predicate Extends(x: nat, y: nat, z: nat, bits: nat) {
    if bits == 0 then Xor(x, y) == z
    else (z % 2 == 1 <==> x % 2 != y % 2) && Extends(x / 2, y / 2, z / 2, bits - 1)
  }

  lemma {:induction false} Extended(x: nat, y: nat, z: nat, bits: nat)
    requires Extends(x, y, z, bits)
    ensures Xor(x, y) == z
    decreases bits
  {
    if bits > 0 {
      Extended(x / 2, y / 2, z / 2, bits - 1);
      assert Xor(0, 0) == 0;
    }
  }

  lemma FirstHigh()
    ensures Xor(0x9E3779B97F4A, 0x278DD) == 0x9E3779BB0797
  {
    hide Xor;
    XorZero(0x9E3779);
    Extended(0x9E3779B9, 0x2, 0x9E3779BB, 8);
    Extended(0x9E3779B97F, 0x278, 0x9E3779BB07, 8);
    Extended(0x9E3779B97F4A, 0x278DD, 0x9E3779BB0797, 8);
  }

  lemma FirstLow()
    ensures Xor(0x9E3779B97F4A7C15, 0x278DDE6E5) == 0x9E3779BB07979AF0
  {
    hide Xor;
    FirstHigh();
    Extended(0x9E3779B97F4A7C, 0x278DDE6, 0x9E3779BB07979A, 8);
    Extended(0x9E3779B97F4A7C15, 0x278DDE6E5, 0x9E3779BB07979AF0, 8);
  }

  lemma FirstShift()
    ensures XorShift(0x9E3779B97F4A7C15, 30) == 0x9E3779BB07979AF0
  {
    hide Xor, ShiftRight;
    ShiftBy30(0x9E3779B97F4A7C15);
    FirstLow();
  }

  lemma SecondHigh()
    ensures Xor(0x6F68261B57E7, 0xDED04) == 0x6F682616BAE3
  {
    hide Xor;
    XorZero(0x6F6826);
    Extended(0x6F68261B, 0xD, 0x6F682616, 8);
    Extended(0x6F68261B57, 0xDED, 0x6F682616BA, 8);
    Extended(0x6F68261B57E7, 0xDED04, 0x6F682616BAE3, 8);
  }

  lemma SecondLow()
    ensures Xor(0x6F68261B57E7A770, 0xDED04C36A) == 0x6F682616BAE3641A
  {
    hide Xor;
    SecondHigh();
    Extended(0x6F68261B57E7A7, 0xDED04C3, 0x6F682616BAE364, 8);
    Extended(0x6F68261B57E7A770, 0xDED04C36A, 0x6F682616BAE3641A, 8);
  }

  lemma SecondShift()
    ensures XorShift(0x6F68261B57E7A770, 27) == 0x6F682616BAE3641A
  {
    hide Xor, ShiftRight;
    ShiftBy27(0x6F68261B57E7A770);
    SecondLow();
  }

  lemma ThirdHigh()
    ensures Xor(0xE220A838BF5C, 0x1C441) == 0xE220A8397B1D
  {
    hide Xor;
    XorZero(0xE220A8);
    Extended(0xE220A838, 0x1, 0xE220A839, 8);
    Extended(0xE220A838BF, 0x1C4, 0xE220A8397B, 8);
    Extended(0xE220A838BF5C, 0x1C441, 0xE220A8397B1D, 8);
  }

  lemma ThirdLow()
    ensures Xor(0xE220A838BF5C9DDE, 0x1C4415071) == 0xE220A8397B1DCDAF
  {
    hide Xor;
    ThirdHigh();
    Extended(0xE220A838BF5C9D, 0x1C44150, 0xE220A8397B1DCD, 8);
    Extended(0xE220A838BF5C9DDE, 0x1C4415071, 0xE220A8397B1DCDAF, 8);
  }

  lemma ThirdShift()
    ensures XorShift(0xE220A838BF5C9DDE, 31) == 0xE220A8397B1DCDAF
  {
    hide Xor, ShiftRight;
    ShiftBy31(0xE220A838BF5C9DDE);
    ThirdLow();
  }

  lemma FirstNumber()
    ensures Output(0, 1) == 0xE220A8397B1DCDAF
  {
    hide XorShift;
    FirstShift();
    SecondShift();
    ThirdShift();
    assert StateAfter(0, 1) == Next(0);
  }
}
