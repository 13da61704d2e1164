/**
 SHA-256 of "abc", worked through as in the example of FIPS 180-2 appendix B.1:
 one block, its message schedule and its 64 rounds, eight at a time.
 */
module Sha256Example {
  import opened Basics
  import opened Sha256

  const ABC: Bytes := [0x61, 0x62, 0x63]

  // ---------------------------------------------------- The message schedule

  const W0: seq<Word> := [0x61626380, 0x00000000, 0x00000000, 0x00000000, 0x00000000, 0x00000000, 0x00000000, 0x00000000]
  const W8: seq<Word> := [0x00000000, 0x00000000, 0x00000000, 0x00000000, 0x00000000, 0x00000000, 0x00000000, 0x00000018]
  const W16: seq<Word> := [0x61626380, 0x000f0000, 0x7da86405, 0x600003c6, 0x3e9d7b78, 0x0183fc00, 0x12dcbfdb, 0xe2e2c38e]
  const W24: seq<Word> := [0xc8215c1a, 0xb73679a2, 0xe5bc3909, 0x32663c5b, 0x9d209d67, 0xec8726cb, 0x702138a4, 0xd3b7973b]
  const W32: seq<Word> := [0x93f5997f, 0x3b68ba73, 0xaff4ffc1, 0xf10a5c62, 0x0a8b3996, 0x72af830a, 0x9409e33e, 0x24641522]
  const W40: seq<Word> := [0x9f47bf94, 0xf0a64f5a, 0x3e246a79, 0x27333ba3, 0x0c4763f2, 0x840abf27, 0x7a290d5d, 0x065c43da]
  const W48: seq<Word> := [0xfb3e89cb, 0xcc7617db, 0xb9e66c34, 0xa9993667, 0x84badedd, 0xc21462bc, 0x1487472c, 0xb20f7a99]
  const W56: seq<Word> := [0xef57b9cd, 0xebe6b238, 0x9fe3095e, 0x78bc8d4b, 0xa43fcf15, 0x668b2ff8, 0xeeaba2cc, 0x12b1edeb]

  /** The schedule from word t on. */
  predicate Holds(block: Bytes, t: nat, w: seq<Word>)
    requires |block| == BLOCK && |w| == 8 && t + 8 <= 64
  {
    forall i :: 0 <= i < 8 ==> Schedule(block, t + i) == w[i]
  }

  /** Each of the next eight words is what the 16 before it give. */
  predicate Continue(before: seq<Word>, recent: seq<Word>, next: seq<Word>)
    requires |before| == |recent| == |next| == 8
  {
    && next[0] == ScheduleWord(before[0], before[1], recent[1], recent[6])
    && next[1] == ScheduleWord(before[1], before[2], recent[2], recent[7])
    && next[2] == ScheduleWord(before[2], before[3], recent[3], next[0])
    && next[3] == ScheduleWord(before[3], before[4], recent[4], next[1])
    && next[4] == ScheduleWord(before[4], before[5], recent[5], next[2])
    && next[5] == ScheduleWord(before[5], before[6], recent[6], next[3])
    && next[6] == ScheduleWord(before[6], before[7], recent[7], next[4])
    && next[7] == ScheduleWord(before[7], recent[0], next[0], next[5])
  }

  lemma Continued(block: Bytes, t: nat, before: seq<Word>, recent: seq<Word>, next: seq<Word>)
    requires |block| == BLOCK && |before| == |recent| == |next| == 8 && t + 24 <= 64
    requires Holds(block, t, before) && Holds(block, t + 8, recent) && Continue(before, recent, next)
    ensures Holds(block, t + 16, next)
  {
    hide ScheduleWord, BigEndianWord;
    assert Schedule(block, t + 16) == next[0];
    assert Schedule(block, t + 17) == next[1];
    assert Schedule(block, t + 18) == next[2];
    assert Schedule(block, t + 19) == next[3];
    assert Schedule(block, t + 20) == next[4];
    assert Schedule(block, t + 21) == next[5];
    assert Schedule(block, t + 22) == next[6];
    assert Schedule(block, t + 23) == next[7];
  }

  lemma Words16()
    ensures Continue(W0, W8, W16)
  {
    assert ScheduleWord(0x61626380, 0x00000000, 0x00000000, 0x00000000) == 0x61626380;
    assert ScheduleWord(0x00000000, 0x00000000, 0x00000000, 0x00000018) == 0x000f0000;
    assert ScheduleWord(0x00000000, 0x00000000, 0x00000000, 0x61626380) == 0x7da86405;
    assert ScheduleWord(0x00000000, 0x00000000, 0x00000000, 0x000f0000) == 0x600003c6;
    assert ScheduleWord(0x00000000, 0x00000000, 0x00000000, 0x7da86405) == 0x3e9d7b78;
    assert ScheduleWord(0x00000000, 0x00000000, 0x00000000, 0x600003c6) == 0x0183fc00;
    assert ScheduleWord(0x00000000, 0x00000000, 0x00000018, 0x3e9d7b78) == 0x12dcbfdb;
    assert ScheduleWord(0x00000000, 0x00000000, 0x61626380, 0x0183fc00) == 0xe2e2c38e;
    hide ScheduleWord;
  }

  lemma Words24()
    ensures Continue(W8, W16, W24)
  {
    assert ScheduleWord(0x00000000, 0x00000000, 0x000f0000, 0x12dcbfdb) == 0xc8215c1a;
    assert ScheduleWord(0x00000000, 0x00000000, 0x7da86405, 0xe2e2c38e) == 0xb73679a2;
    assert ScheduleWord(0x00000000, 0x00000000, 0x600003c6, 0xc8215c1a) == 0xe5bc3909;
    assert ScheduleWord(0x00000000, 0x00000000, 0x3e9d7b78, 0xb73679a2) == 0x32663c5b;
    assert ScheduleWord(0x00000000, 0x00000000, 0x0183fc00, 0xe5bc3909) == 0x9d209d67;
    assert ScheduleWord(0x00000000, 0x00000000, 0x12dcbfdb, 0x32663c5b) == 0xec8726cb;
    assert ScheduleWord(0x00000000, 0x00000018, 0xe2e2c38e, 0x9d209d67) == 0x702138a4;
    assert ScheduleWord(0x00000018, 0x61626380, 0xc8215c1a, 0xec8726cb) == 0xd3b7973b;
    hide ScheduleWord;
  }

  lemma Words32()
    ensures Continue(W16, W24, W32)
  {
    assert ScheduleWord(0x61626380, 0x000f0000, 0xb73679a2, 0x702138a4) == 0x93f5997f;
    assert ScheduleWord(0x000f0000, 0x7da86405, 0xe5bc3909, 0xd3b7973b) == 0x3b68ba73;
    assert ScheduleWord(0x7da86405, 0x600003c6, 0x32663c5b, 0x93f5997f) == 0xaff4ffc1;
    assert ScheduleWord(0x600003c6, 0x3e9d7b78, 0x9d209d67, 0x3b68ba73) == 0xf10a5c62;
    assert ScheduleWord(0x3e9d7b78, 0x0183fc00, 0xec8726cb, 0xaff4ffc1) == 0x0a8b3996;
    assert ScheduleWord(0x0183fc00, 0x12dcbfdb, 0x702138a4, 0xf10a5c62) == 0x72af830a;
    assert ScheduleWord(0x12dcbfdb, 0xe2e2c38e, 0xd3b7973b, 0x0a8b3996) == 0x9409e33e;
    assert ScheduleWord(0xe2e2c38e, 0xc8215c1a, 0x93f5997f, 0x72af830a) == 0x24641522;
    hide ScheduleWord;
  }

  lemma Words40()
    ensures Continue(W24, W32, W40)
  {
    assert ScheduleWord(0xc8215c1a, 0xb73679a2, 0x3b68ba73, 0x9409e33e) == 0x9f47bf94;
    assert ScheduleWord(0xb73679a2, 0xe5bc3909, 0xaff4ffc1, 0x24641522) == 0xf0a64f5a;
    assert ScheduleWord(0xe5bc3909, 0x32663c5b, 0xf10a5c62, 0x9f47bf94) == 0x3e246a79;
    assert ScheduleWord(0x32663c5b, 0x9d209d67, 0x0a8b3996, 0xf0a64f5a) == 0x27333ba3;
    assert ScheduleWord(0x9d209d67, 0xec8726cb, 0x72af830a, 0x3e246a79) == 0x0c4763f2;
    assert ScheduleWord(0xec8726cb, 0x702138a4, 0x9409e33e, 0x27333ba3) == 0x840abf27;
    assert ScheduleWord(0x702138a4, 0xd3b7973b, 0x24641522, 0x0c4763f2) == 0x7a290d5d;
    assert ScheduleWord(0xd3b7973b, 0x93f5997f, 0x9f47bf94, 0x840abf27) == 0x065c43da;
    hide ScheduleWord;
  }

  lemma Words48()
    ensures Continue(W32, W40, W48)
  {
    assert ScheduleWord(0x93f5997f, 0x3b68ba73, 0xf0a64f5a, 0x7a290d5d) == 0xfb3e89cb;
    assert ScheduleWord(0x3b68ba73, 0xaff4ffc1, 0x3e246a79, 0x065c43da) == 0xcc7617db;
    assert ScheduleWord(0xaff4ffc1, 0xf10a5c62, 0x27333ba3, 0xfb3e89cb) == 0xb9e66c34;
    assert ScheduleWord(0xf10a5c62, 0x0a8b3996, 0x0c4763f2, 0xcc7617db) == 0xa9993667;
    assert ScheduleWord(0x0a8b3996, 0x72af830a, 0x840abf27, 0xb9e66c34) == 0x84badedd;
    assert ScheduleWord(0x72af830a, 0x9409e33e, 0x7a290d5d, 0xa9993667) == 0xc21462bc;
    assert ScheduleWord(0x9409e33e, 0x24641522, 0x065c43da, 0x84badedd) == 0x1487472c;
    assert ScheduleWord(0x24641522, 0x9f47bf94, 0xfb3e89cb, 0xc21462bc) == 0xb20f7a99;
    hide ScheduleWord;
  }

  lemma Words56()
    ensures Continue(W40, W48, W56)
  {
    assert ScheduleWord(0x9f47bf94, 0xf0a64f5a, 0xcc7617db, 0x1487472c) == 0xef57b9cd;
    assert ScheduleWord(0xf0a64f5a, 0x3e246a79, 0xb9e66c34, 0xb20f7a99) == 0xebe6b238;
    assert ScheduleWord(0x3e246a79, 0x27333ba3, 0xa9993667, 0xef57b9cd) == 0x9fe3095e;
    assert ScheduleWord(0x27333ba3, 0x0c4763f2, 0x84badedd, 0xebe6b238) == 0x78bc8d4b;
    assert ScheduleWord(0x0c4763f2, 0x840abf27, 0xc21462bc, 0x9fe3095e) == 0xa43fcf15;
    assert ScheduleWord(0x840abf27, 0x7a290d5d, 0x1487472c, 0x78bc8d4b) == 0x668b2ff8;
    assert ScheduleWord(0x7a290d5d, 0x065c43da, 0xb20f7a99, 0xa43fcf15) == 0xeeaba2cc;
    assert ScheduleWord(0x065c43da, 0xfb3e89cb, 0xef57b9cd, 0x668b2ff8) == 0x12b1edeb;
    hide ScheduleWord;
  }

  // --------------------------------------------------------------- The rounds
  // Each round makes a new a and a new e; the other variables are the last ones of those.

  const A0: seq<Word> := [0xa54ff53a, 0x3c6ef372, 0xbb67ae85, 0x6a09e667,
                          0x5d6aebcd, 0x5a6ad9ad, 0xc8c347a7, 0xd550f666, 0x04409a6a, 0x2b4209f5, 0xe5030380, 0x85a07b5f]
  const E0: seq<Word> := [0x5be0cd19, 0x1f83d9ab, 0x9b05688c, 0x510e527f,
                          0xfa2a4622, 0x78ce7989, 0xf92939eb, 0x24e00850, 0x43ada245, 0x714260ad, 0x9b27a401, 0x0c657a79]
  const A8: seq<Word> := [0x04409a6a, 0x2b4209f5, 0xe5030380, 0x85a07b5f,
                          0x8e04ecb9, 0x8c87346b, 0x4798a3f4, 0xf71fc5a9, 0x87912990, 0xd932eb16, 0xc0645fde, 0xb0fa238e]
  const E8: seq<Word> := [0x43ada245, 0x714260ad, 0x9b27a401, 0x0c657a79,
                          0x32ca2d8c, 0x1cc92596, 0x436b23e8, 0x816fd6e9, 0x1e578218, 0x745a48de, 0x0b92f20c, 0x07590dcd]
  const A16: seq<Word> := [0x87912990, 0xd932eb16, 0xc0645fde, 0xb0fa238e,
                           0x21da9a9b, 0xc2fbd9d1, 0xfe777bbf, 0xe1f20c33, 0x9dc68b63, 0xc2606d6d, 0xa7a3623f, 0xc5d53d8d]
  const E16: seq<Word> := [0x1e578218, 0x745a48de, 0x0b92f20c, 0x07590dcd,
                           0x8034229c, 0x846ee454, 0xcc899961, 0xb0638179, 0x8ada8930, 0xe1257970, 0x49f5114a, 0xaa47c347]
  const A24: seq<Word> := [0x9dc68b63, 0xc2606d6d, 0xa7a3623f, 0xc5d53d8d,
                           0x1c2c2838, 0xcde8037d, 0xb62ec4bc, 0x77d37528, 0x363482c9, 0xa0060b30, 0xea992a22, 0x73b33bf5]
  const E24: seq<Word> := [0x8ada8930, 0xe1257970, 0x49f5114a, 0xaa47c347,
                           0x2823ef91, 0x14383d8e, 0xc74c6516, 0xedffbff8, 0x6112a3b7, 0xade79437, 0x0109ab3a, 0xba591112]
  const A32: seq<Word> := [0x363482c9, 0xa0060b30, 0xea992a22, 0x73b33bf5,
                           0x98e12507, 0xfe604df5, 0xa9a7738c, 0x65a0cfe4, 0x41a65cb1, 0x34df1604, 0x6dc57a8a, 0x79ea687a]
  const E32: seq<Word> := [0x6112a3b7, 0xade79437, 0x0109ab3a, 0xba591112,
                           0x9cd9f5f6, 0x59249dd3, 0x085f3833, 0xf4b002d6, 0x0772a26b, 0xa507a53d, 0xf0781bc8, 0x1efbc0a0]
  const A40: seq<Word> := [0x41a65cb1, 0x34df1604, 0x6dc57a8a, 0x79ea687a,
                           0xd6670766, 0xdf46652f, 0x17aa0dfe, 0x9d4baf93, 0x26628815, 0x72ab4b91, 0xa14c14b0, 0x4172328d]
  const E40: seq<Word> := [0x0772a26b, 0xa507a53d, 0xf0781bc8, 0x1efbc0a0,
                           0x26352d63, 0x838b2711, 0xdecd4715, 0xfda24c2e, 0xa80f11f0, 0xb7755da1, 0xd57b94a9, 0xfecf0bc6]
  const A48: seq<Word> := [0x26628815, 0x72ab4b91, 0xa14c14b0, 0x4172328d,
                           0x05757ceb, 0xf11bfaa8, 0x7a0508a1, 0x886e7a22, 0x101fd28f, 0xf5702fdb, 0x3ec45cdb, 0x38cc9913]
  const E48: seq<Word> := [0xa80f11f0, 0xb7755da1, 0xd57b94a9, 0xfecf0bc6,
                           0xbd714038, 0x6e5c390c, 0x52f1ccf7, 0x49231c1e, 0x529e7d00, 0x9f4787c3, 0xe50e1b4f, 0x54cb266b]
  const A56: seq<Word> := [0x101fd28f, 0xf5702fdb, 0x3ec45cdb, 0x38cc9913,
                           0xfcd1887b, 0xc062d46f, 0xffb70472, 0xb6ae8fff, 0xb85e2ce9, 0x04d24d6c, 0xd39a2165, 0x506e3058]
  const E56: seq<Word> := [0x529e7d00, 0x9f4787c3, 0xe50e1b4f, 0x54cb266b,
                           0x9b5e906c, 0x7e44008e, 0x6d83bfc6, 0xb21bad3d, 0x961f4894, 0x948d25b6, 0xfb121210, 0x5ef50f24]
  const K0: seq<Word> := [0x428a2f98, 0x71374491, 0xb5c0fbcf, 0xe9b5dba5, 0x3956c25b, 0x59f111f1, 0x923f82a4, 0xab1c5ed5]
  const K8: seq<Word> := [0xd807aa98, 0x12835b01, 0x243185be, 0x550c7dc3, 0x72be5d74, 0x80deb1fe, 0x9bdc06a7, 0xc19bf174]
  const K16: seq<Word> := [0xe49b69c1, 0xefbe4786, 0x0fc19dc6, 0x240ca1cc, 0x2de92c6f, 0x4a7484aa, 0x5cb0a9dc, 0x76f988da]
  const K24: seq<Word> := [0x983e5152, 0xa831c66d, 0xb00327c8, 0xbf597fc7, 0xc6e00bf3, 0xd5a79147, 0x06ca6351, 0x14292967]
  const K32: seq<Word> := [0x27b70a85, 0x2e1b2138, 0x4d2c6dfc, 0x53380d13, 0x650a7354, 0x766a0abb, 0x81c2c92e, 0x92722c85]
  const K40: seq<Word> := [0xa2bfe8a1, 0xa81a664b, 0xc24b8b70, 0xc76c51a3, 0xd192e819, 0xd6990624, 0xf40e3585, 0x106aa070]
  const K48: seq<Word> := [0x19a4c116, 0x1e376c08, 0x2748774c, 0x34b0bcb5, 0x391c0cb3, 0x4ed8aa4a, 0x5b9cca4f, 0x682e6ff3]
  const K56: seq<Word> := [0x748f82ee, 0x78a5636f, 0x84c87814, 0x8cc70208, 0x90befffa, 0xa4506ceb, 0xbef9a3f7, 0xc67178f2]

  function State(a: seq<Word>, e: seq<Word>, i: nat): Chain
    requires |a| == |e| == 12 && i <= 8
  {
    Chain(a[i + 3], a[i + 2], a[i + 1], a[i], e[i + 3], e[i + 2], e[i + 1], e[i])
  }

  /** From the i-th of eight rounds on, the working variables take these values. */
  predicate RoundsTake(a: seq<Word>, e: seq<Word>, k: seq<Word>, w: seq<Word>, i: nat)
    requires |a| == |e| == 12 && |k| == |w| == 8 && i <= 8
    decreases 8 - i
  {
    i == 8 ||
    (var t1 := Temporary1(e[i + 3], e[i + 2], e[i + 1], e[i], k[i], w[i]);
     && e[i + 4] == Sum(a[i], t1)
     && a[i + 4] == Sum(t1, Temporary2(a[i + 3], a[i + 2], a[i + 1]))
     && RoundsTake(a, e, k, w, i + 1))
  }

  lemma Rounds0()
    ensures RoundsTake(A0, E0, K0, W0, 0)
  {
  }

  lemma Rounds8()
    ensures RoundsTake(A8, E8, K8, W8, 0)
  {
  }

  lemma Rounds16()
    ensures RoundsTake(A16, E16, K16, W16, 0)
  {
  }

  lemma Rounds24()
    ensures RoundsTake(A24, E24, K24, W24, 0)
  {
  }

  lemma Rounds32()
    ensures RoundsTake(A32, E32, K32, W32, 0)
  {
  }

  lemma Rounds40()
    ensures RoundsTake(A40, E40, K40, W40, 0)
  {
  }

  lemma Rounds48()
    ensures RoundsTake(A48, E48, K48, W48, 0)
  {
  }

  lemma Rounds56()
    ensures RoundsTake(A56, E56, K56, W56, 0)
  {
  }

  predicate AreConstants(t: nat, k: seq<Word>)
    requires t + 8 <= 64 && |k| == 8
  {
    && RoundConstant(t) == k[0] && RoundConstant(t + 1) == k[1]
    && RoundConstant(t + 2) == k[2] && RoundConstant(t + 3) == k[3]
    && RoundConstant(t + 4) == k[4] && RoundConstant(t + 5) == k[5]
    && RoundConstant(t + 6) == k[6] && RoundConstant(t + 7) == k[7]
  }

  lemma Constants0()
    ensures AreConstants(0, K0)
  {
  }

  lemma Constants8()
    ensures AreConstants(8, K8)
  {
  }

  lemma Constants16()
    ensures AreConstants(16, K16)
  {
  }

  lemma Constants24()
    ensures AreConstants(24, K24)
  {
  }

  lemma Constants32()
    ensures AreConstants(32, K32)
  {
  }

  lemma Constants40()
    ensures AreConstants(40, K40)
  {
  }

  lemma Constants48()
    ensures AreConstants(48, K48)
  {
  }

  lemma Constants56()
    ensures AreConstants(56, K56)
  {
  }

  lemma {:induction false} RoundsRun(block: Bytes, t: nat, a: seq<Word>, e: seq<Word>, k: seq<Word>, w: seq<Word>, i: nat)
    requires |block| == BLOCK && t + 8 <= 64 && |a| == |e| == 12 && |k| == |w| == 8 && i <= 8
    requires Holds(block, t, w) && AreConstants(t, k) && RoundsTake(a, e, k, w, i)
    requires Rounds(INITIAL, block, t + i) == State(a, e, i)
    ensures Rounds(INITIAL, block, t + 8) == State(a, e, 8)
    decreases 8 - i
  {
    hide Schedule, RoundConstant, Temporary1, Temporary2;
    if i < 8 {
      OneRound(block, t, a, e, k, w, i);
      RoundsRun(block, t, a, e, k, w, i + 1);
    }
  }

  lemma OneRound(block: Bytes, t: nat, a: seq<Word>, e: seq<Word>, k: seq<Word>, w: seq<Word>, i: nat)
    requires |block| == BLOCK && t + 8 <= 64 && |a| == |e| == 12 && |k| == |w| == 8 && i < 8
    requires Holds(block, t, w) && AreConstants(t, k) && RoundsTake(a, e, k, w, i)
    requires Rounds(INITIAL, block, t + i) == State(a, e, i)
    ensures Rounds(INITIAL, block, t + i + 1) == State(a, e, i + 1)
  {
    hide Temporary1, Temporary2, Sum, RoundConstant, Schedule;
    assert Schedule(block, t + i) == w[i];
    assert RoundConstant(t + i) == k[i];
  }

  /** The last state of eight rounds is the first of the next eight. */
  lemma StatesMeet()
    ensures State(A0, E0, 0) == INITIAL
    ensures State(A0, E0, 8) == State(A8, E8, 0) && State(A8, E8, 8) == State(A16, E16, 0)
    ensures State(A16, E16, 8) == State(A24, E24, 0) && State(A24, E24, 8) == State(A32, E32, 0)
    ensures State(A32, E32, 8) == State(A40, E40, 0) && State(A40, E40, 8) == State(A48, E48, 0)
    ensures State(A48, E48, 8) == State(A56, E56, 0)
  {
  }

  // --------------------------------------------------------------- The digest

  lemma PaddedAbc()
    ensures var block := Pad(ABC);
      && |block| == 64 && block[0] == 0x61 && block[1] == 0x62 && block[2] == 0x63 && block[3] == 0x80
      && (forall i :: 4 <= i < 63 ==> block[i] == 0) && block[63] == 24
  {
    assert BigEndian(24, 8) == [0, 0, 0, 0, 0, 0, 0, 24];
  }

  lemma FirstWords()
    ensures |Pad(ABC)| == 64 && Holds(Pad(ABC), 0, W0) && Holds(Pad(ABC), 8, W8)
  {
    PaddedAbc();
    var block := Pad(ABC);
    hide Pad;
    assert 0x61 as bv8 as bv32 == 0x61 && 0x62 as bv8 as bv32 == 0x62 && 0x63 as bv8 as bv32 == 0x63;
    assert 0x80 as bv8 as bv32 == 0x80 && 0 as bv8 as bv32 == 0 && 24 as bv8 as bv32 == 24;
  }

  lemma AllWords()
    ensures |Pad(ABC)| == 64
    ensures Holds(Pad(ABC), 0, W0) && Holds(Pad(ABC), 8, W8) && Holds(Pad(ABC), 16, W16) && Holds(Pad(ABC), 24, W24)
    ensures Holds(Pad(ABC), 32, W32) && Holds(Pad(ABC), 40, W40) && Holds(Pad(ABC), 48, W48) && Holds(Pad(ABC), 56, W56)
  {
    hide Pad, Holds, Continue;
    FirstWords();
    var block := Pad(ABC);
    Words16();
    Continued(block, 0, W0, W8, W16);
    Words24();
    Continued(block, 8, W8, W16, W24);
    Words32();
    Continued(block, 16, W16, W24, W32);
    Words40();
    Continued(block, 24, W24, W32, W40);
    Words48();
    Continued(block, 32, W32, W40, W48);
    Words56();
    Continued(block, 40, W40, W48, W56);
  }

  lemma RoundsUpTo16()
    ensures |Pad(ABC)| == 64 && Rounds(INITIAL, Pad(ABC), 16) == State(A8, E8, 8)
  {
    hide Pad, Holds, State, RoundsTake, AreConstants, Schedule, Round, RoundConstant;
    var block := Pad(ABC);
    AllWords();
    StatesMeet();
    assert Rounds(INITIAL, block, 0) == INITIAL;
    hide Rounds;
    Constants0();
    Rounds0();
    RoundsRun(block, 0, A0, E0, K0, W0, 0);
    Constants8();
    Rounds8();
    RoundsRun(block, 8, A8, E8, K8, W8, 0);
  }

  lemma RoundsUpTo32()
    ensures |Pad(ABC)| == 64 && Rounds(INITIAL, Pad(ABC), 32) == State(A24, E24, 8)
  {
    hide Pad, Holds, State, RoundsTake, AreConstants, Schedule, Round, RoundConstant;
    var block := Pad(ABC);
    AllWords();
    StatesMeet();
    RoundsUpTo16();
    hide Rounds;
    Constants16();
    Rounds16();
    RoundsRun(block, 16, A16, E16, K16, W16, 0);
    Constants24();
    Rounds24();
    RoundsRun(block, 24, A24, E24, K24, W24, 0);
  }

  lemma RoundsUpTo48()
    ensures |Pad(ABC)| == 64 && Rounds(INITIAL, Pad(ABC), 48) == State(A40, E40, 8)
  {
    hide Pad, Holds, State, RoundsTake, AreConstants, Schedule, Round, RoundConstant;
    var block := Pad(ABC);
    AllWords();
    StatesMeet();
    RoundsUpTo32();
    hide Rounds;
    Constants32();
    Rounds32();
    RoundsRun(block, 32, A32, E32, K32, W32, 0);
    Constants40();
    Rounds40();
    RoundsRun(block, 40, A40, E40, K40, W40, 0);
  }

  lemma RoundsUpTo64()
    ensures |Pad(ABC)| == 64 && Rounds(INITIAL, Pad(ABC), 64) == State(A56, E56, 8)
  {
    hide Pad, Holds, State, RoundsTake, AreConstants, Schedule, Round, RoundConstant;
    var block := Pad(ABC);
    AllWords();
    StatesMeet();
    RoundsUpTo48();
    hide Rounds;
    Constants48();
    Rounds48();
    RoundsRun(block, 48, A48, E48, K48, W48, 0);
    Constants56();
    Rounds56();
    RoundsRun(block, 56, A56, E56, K56, W56, 0);
  }

  /** The published digest of "abc". */
  lemma DigestOfAbc(message: Bytes)
    requires message == [0x61, 0x62, 0x63]
    ensures Digest(message) == [0xba, 0x78, 0x16, 0xbf, 0x8f, 0x01, 0xcf, 0xea, 0x41, 0x41, 0x40, 0xde, 0x5d, 0xae, 0x22, 0x23,
                                0xb0, 0x03, 0x61, 0xa3, 0x96, 0x17, 0x7a, 0x9c, 0xb4, 0x10, 0xff, 0x61, 0xf2, 0x00, 0x15, 0xad]
  {
    RoundsUpTo64();
    var block := Pad(ABC);
    assert block[..0] == [] && block[0..] == block;
    assert HashBlocks(block) == Compress(INITIAL, block);
    FinalState();
    hide Pad, Rounds, Plus, State;
    FinalBytes();
    hide ChainBytes;
    assert message == ABC;
  }

  const HASH := Chain(0xba7816bf, 0x8f01cfea, 0x414140de, 0x5dae2223, 0xb00361a3, 0x96177a9c, 0xb410ff61, 0xf20015ad)

  lemma FinalState()
    ensures Plus(INITIAL, State(A56, E56, 8)) == HASH
  {
  }

  lemma FinalBytes()
    ensures ChainBytes(HASH) ==
            [0xba, 0x78, 0x16, 0xbf, 0x8f, 0x01, 0xcf, 0xea, 0x41, 0x41, 0x40, 0xde, 0x5d, 0xae, 0x22, 0x23,
             0xb0, 0x03, 0x61, 0xa3, 0x96, 0x17, 0x7a, 0x9c, 0xb4, 0x10, 0xff, 0x61, 0xf2, 0x00, 0x15, 0xad]
  {
  }
}
