/**
 The deterministic generator (src/net/deterministic_prng.hpp): SplitMix64 and
 unbiased sampling by rejection.  64-bit words are naturals below 2^64, with
 exclusive or and shifts written out on their binary digits.
 */
module Prng {
  import opened Basics


  const GAMMA := 0x9E3779B97F4A7C15
  const GAMMA_INVERSE := 0xF1DE83E19937733D
  const MIX1 := 0xBF58476D1CE4E5B9
  const MIX1_INVERSE := 0x96DE1B173F119089
  const MIX2 := 0x94D049BB133111EB
  const MIX2_INVERSE := 0x319642B2D24D8EC3

  // -------------------------------------------------------- Exclusive or, >>

  function Xor(x: nat, y: nat): nat {
    if x == 0 && y == 0 then 0
    else 2 * Xor(x / 2, y / 2) + if x % 2 != y % 2 then 1 else 0
  }

  function ShiftRight(x: nat, k: nat): (r: nat)
    ensures r <= x
    ensures x > 0 && k > 0 ==> r < x
  {
    if k == 0 then x else ShiftRight(x / 2, k - 1)
  }

  lemma {:induction false} XorCancels(x: nat, y: nat, s: nat)
    requires Xor(x, s) == Xor(y, s)
    ensures x == y
    decreases x + y + s
  {
    if x > 0 || y > 0 || s > 0 {
      var a, b := Xor(x, s), Xor(y, s);
      assert a / 2 == Xor(x / 2, s / 2) && a % 2 == (if x % 2 != s % 2 then 1 else 0);
      assert b / 2 == Xor(y / 2, s / 2) && b % 2 == (if y % 2 != s % 2 then 1 else 0);
      XorCancels(x / 2, y / 2, s / 2);
    }
  }

  lemma {:induction false} ShiftOfXor(x: nat, y: nat, k: nat)
    ensures ShiftRight(Xor(x, y), k) == Xor(ShiftRight(x, k), ShiftRight(y, k))
  {
    if k > 0 {
      assert Xor(x, y) / 2 == Xor(x / 2, y / 2);
      ShiftOfXor(x / 2, y / 2, k - 1);
    }
  }

  lemma {:induction false} XorStaysBelow(x: nat, y: nat, bits: nat)
    requires x < Power2(bits) && y < Power2(bits)
    ensures Xor(x, y) < Power2(bits)
  {
    if bits > 0 {
      XorStaysBelow(x / 2, y / 2, bits - 1);
    }
  }

  lemma FourMoreBits(bits: nat)
    ensures Power2(bits + 4) == 0x10 * Power2(bits)
  {
    assert Power2(bits + 1) == 2 * Power2(bits);
    assert Power2(bits + 2) == 2 * Power2(bits + 1);
    assert Power2(bits + 3) == 2 * Power2(bits + 2);
  }

  lemma SixteenMoreBits(bits: nat)
    ensures Power2(bits + 16) == 0x1_0000 * Power2(bits)
  {
    FourMoreBits(bits);
    FourMoreBits(bits + 4);
    FourMoreBits(bits + 8);
    FourMoreBits(bits + 12);
  }

  lemma SixtyFourBits()
    ensures Power2(64) == WORDS
  {
    SixteenMoreBits(0);
    SixteenMoreBits(16);
    SixteenMoreBits(32);
    SixteenMoreBits(48);
  }

  function XorShift(z: nat, k: nat): nat {
    Xor(z, ShiftRight(z, k))
  }

  lemma XorShiftStaysWord(z: U64, k: nat)
    ensures XorShift(z, k) < WORDS
  {
    SixtyFourBits();
    XorStaysBelow(z, ShiftRight(z, k), 64);
  }

  /** z ^ (z >> k) determines z: first its high digits, then the rest. */
  lemma {:induction false} XorShiftInjective(x: nat, y: nat, k: Positive)
    requires XorShift(x, k) == XorShift(y, k)
    ensures x == y
    decreases x + y
  {
    if x > 0 || y > 0 {
      var s, u := ShiftRight(x, k), ShiftRight(y, k);
      ShiftOfXor(x, s, k);
      ShiftOfXor(y, u, k);
      XorShiftInjective(s, u, k);
      XorCancels(x, y, s);
    }
  }

  // --------------------------------------------- Odd multiples modulo 2^64

  lemma ModuloUnique(r: int, q: int, n: int)
    requires 0 <= r < WORDS && n == q * WORDS + r
    ensures n % WORDS == r
  {
  }

  lemma Mix1Undone(x: U64)
    ensures x * MIX1 % WORDS * MIX1_INVERSE % WORDS == x
  {
    var q, r := x * MIX1 / WORDS, x * MIX1 % WORDS;
    var c := MIX1 * MIX1_INVERSE / WORDS;
    assert MIX1 * MIX1_INVERSE == c * WORDS + 1;
    ModuloUnique(x, c * x - q * MIX1_INVERSE, r * MIX1_INVERSE);
  }

  lemma Mix2Undone(x: U64)
    ensures x * MIX2 % WORDS * MIX2_INVERSE % WORDS == x
  {
    var q, r := x * MIX2 / WORDS, x * MIX2 % WORDS;
    var c := MIX2 * MIX2_INVERSE / WORDS;
    assert MIX2 * MIX2_INVERSE == c * WORDS + 1;
    ModuloUnique(x, c * x - q * MIX2_INVERSE, r * MIX2_INVERSE);
  }

  lemma GammaUndone(x: U64)
    ensures x * GAMMA % WORDS * GAMMA_INVERSE % WORDS == x
  {
    var q, r := x * GAMMA / WORDS, x * GAMMA % WORDS;
    var c := GAMMA * GAMMA_INVERSE / WORDS;
    assert GAMMA * GAMMA_INVERSE == c * WORDS + 1;
    ModuloUnique(x, c * x - q * GAMMA_INVERSE, r * GAMMA_INVERSE);
  }

  // -------------------------------------------------------------- SplitMix64

  function Next(state: U64): U64 {
    (state + GAMMA) % WORDS
  }

  function Scrambled(z: U64, shift: nat, multiplier: nat): U64 {
    XorShift(z, shift) * multiplier % WORDS
  }

  function Mix(state: U64): U64 {
    var z := Scrambled(Scrambled(state, 30, MIX1), 27, MIX2);
    XorShiftStaysWord(z, 31);
    XorShift(z, 31)
  }

  lemma MixInjective(x: U64, y: U64)
    requires Mix(x) == Mix(y)
    ensures x == y
  {
    var x1, y1 := Scrambled(x, 30, MIX1), Scrambled(y, 30, MIX1);
    var x2, y2 := Scrambled(x1, 27, MIX2), Scrambled(y1, 27, MIX2);
    XorShiftInjective(x2, y2, 31);
    XorShiftStaysWord(x1, 27);
    XorShiftStaysWord(y1, 27);
    Mix2Undone(XorShift(x1, 27));
    Mix2Undone(XorShift(y1, 27));
    XorShiftInjective(x1, y1, 27);
    XorShiftStaysWord(x, 30);
    XorShiftStaysWord(y, 30);
    Mix1Undone(XorShift(x, 30));
    Mix1Undone(XorShift(y, 30));
    XorShiftInjective(x, y, 30);
  }

  function StateAfter(state: U64, draws: nat): U64 {
    if draws == 0 then state else Next(StateAfter(state, draws - 1))
  }

  /** The n-th value drawn from a state, counting from 1. */
  function Output(state: U64, n: nat): U64 {
    Mix(StateAfter(state, n))
  }

  lemma {:induction false} CounterState(state: U64, draws: nat)
    ensures StateAfter(state, draws) == (state + draws * GAMMA) % WORDS
  {
    if draws > 0 {
      CounterState(state, draws - 1);
      AddModulo(state + (draws - 1) * GAMMA, GAMMA);
    }
  }

  lemma AddModulo(a: nat, b: nat)
    ensures (a % WORDS + b) % WORDS == (a + b) % WORDS
  {
    var carry := a % WORDS + b;
    ModuloUnique(carry % WORDS, a / WORDS + carry / WORDS, a + b);
  }

  /** An odd-step counter takes 2^64 draws to come round, and `Mix` is one to one. */
  lemma OutputsDistinct(state: U64, m: nat, n: nat)
    requires m < n < m + WORDS
    ensures Output(state, m) != Output(state, n)
  {
    if Output(state, m) == Output(state, n) {
      MixInjective(StateAfter(state, m), StateAfter(state, n));
      CounterState(state, m);
      CounterState(state, n);
      MultipleOfGamma(state + m * GAMMA, n - m);
    }
  }

  lemma MultipleOfGamma(base: nat, k: nat)
    requires k < WORDS && base % WORDS == (base + k * GAMMA) % WORDS
    ensures k == 0
  {
    var a, b := base / WORDS, (base + k * GAMMA) / WORDS;
    ModuloUnique(0, b - a, k * GAMMA);
    GammaUndone(k);
  }

  // ------------------------------------------------------ Rejection sampling

  /** Distinct naturals below a bound are no more than the bound. */
  lemma {:induction false} DistinctBelow(values: seq<nat>, bound: nat)
    requires forall i :: 0 <= i < |values| ==> values[i] < bound
    requires forall i, j :: 0 <= i < j < |values| ==> values[i] != values[j]
    ensures |values| <= bound
  {
    if |values| > 0 {
      if exists i :: 0 <= i < |values| && values[i] == bound - 1 {
        var i :| 0 <= i < |values| && values[i] == bound - 1;
        var fewer := values[..i] + values[i + 1..];
        forall k | 0 <= k < |fewer|
          ensures fewer[k] < bound - 1
        {
          assert fewer[k] == values[if k < i then k else k + 1];
        }
        forall k, l | 0 <= k < l < |fewer|
          ensures fewer[k] != fewer[l]
        {
          assert fewer[k] == values[if k < i then k else k + 1];
          assert fewer[l] == values[if l < i then l else l + 1];
        }
        DistinctBelow(fewer, bound - 1);
      } else {
        forall k | 0 <= k < |values|
          ensures values[k] < bound - 1
        {
        }
        assert 0 <= values[0] < bound;
        DistinctBelow(values, bound - 1);
      }
    }
  }

  function Outputs(state: U64, n: nat): (values: seq<nat>)
    ensures |values| == n && forall k :: 0 <= k < n ==> values[k] == Output(state, k + 1)
  {
    seq(n, k requires 0 <= k < n => Output(state, k + 1))
  }

  lemma RejectionsBounded(state: U64, rejected: nat, threshold: nat)
    requires rejected <= WORDS
    requires forall k :: 1 <= k <= rejected ==> Output(state, k) < threshold
    ensures rejected <= threshold
  {
    var values := Outputs(state, rejected);
    forall i, j | 0 <= i < j < |values|
      ensures values[i] != values[j]
    {
      OutputsDistinct(state, i + 1, j + 1);
    }
    DistinctBelow(values, threshold);
  }

  /** What is rejected so that the accepted values divide evenly: the fewest that do. */
  function Threshold(limit: Positive): (threshold: nat)
    requires limit < WORDS
    ensures threshold < limit && (WORDS - threshold) % limit == 0
  {
    RejectedRemainder(limit);
    (WORDS - 1 - limit + 1) % limit
  }

  lemma RejectedRemainder(limit: Positive)
    requires limit < WORDS
    ensures (WORDS - (WORDS - limit) % limit) % limit == 0
  {
    var rest := WORDS - limit;
    var q := rest / limit;
    assert WORDS - rest % limit == q * limit + limit == (q + 1) * limit;
    ResidueOf(WORDS - rest % limit, q + 1, 0, limit);
  }

  /** The top 53 bits as a fraction, which a double holds exactly. */
  function UnitDouble(value: U64): (u: real)
    ensures 0.0 <= u < 1.0
  {
    (value / 2048) as real / 9007199254740992.0
  }

  /** What a draw gives and the state it leaves. */
  datatype Coin = Coin(hit: bool, state: U64)
  datatype Pick = Pick(value: U64, state: U64)

  function Toss(p: real, state: U64): Coin {
    if p <= 0.0 then Coin(false, state)
    else if p >= 1.0 then Coin(true, state)
    else Coin(UnitDouble(Output(state, 1)) < p, Next(state))
  }

  /** The first draw after `rejected` refused ones that is not refused. */
  ghost function FirstAccepted(state: U64, rejected: nat, threshold: nat): (k: nat)
    requires rejected <= threshold < WORDS
    requires forall i :: 1 <= i <= rejected ==> Output(state, i) < threshold
    ensures rejected < k <= threshold + 1 && Output(state, k) >= threshold
    ensures forall i :: 1 <= i < k ==> Output(state, i) < threshold
    decreases threshold - rejected
  {
    if Output(state, rejected + 1) >= threshold then rejected + 1
    else
      RejectionsBounded(state, rejected + 1, threshold);
      FirstAccepted(state, rejected + 1, threshold)
  }

  lemma NextOutput(state: U64, n: nat)
    ensures StateAfter(state, 0) == state
    ensures StateAfter(state, n + 1) == Next(StateAfter(state, n))
    ensures Output(state, n + 1) == Mix(Next(StateAfter(state, n)))
  {
    hide Mix, Next;
  }

  lemma FirstAcceptedTurn(state: U64, rejected: nat, threshold: nat)
    requires rejected <= threshold < WORDS
    requires forall i :: 1 <= i <= rejected ==> Output(state, i) < threshold
    ensures Output(state, rejected + 1) >= threshold ==> FirstAccepted(state, rejected, threshold) == rejected + 1
    ensures Output(state, rejected + 1) < threshold ==>
              rejected + 1 <= threshold
              && FirstAccepted(state, rejected, threshold) == FirstAccepted(state, rejected + 1, threshold)
  {
    hide Output;
    if Output(state, rejected + 1) < threshold {
      RejectionsBounded(state, rejected + 1, threshold);
    }
  }

  /** Uniform in [low, high]: the first output not refused, reduced. */
  ghost function Uniform(state: U64, low: U64, high: U64): (p: Pick)
    ensures low <= high ==> low <= p.value <= high
  {
    if high <= low then Pick(low, state)
    else if high - low == WORDS - 1 then Pick(Output(state, 1), Next(state))
    else
      var limit: Positive := high - low + 1;
      var k := FirstAccepted(state, 0, Threshold(limit));
      Pick(low + Output(state, k) % limit, StateAfter(state, k))
  }

  class DeterministicPrng {
    var state: U64

    constructor (seed: U64)
      ensures state == seed
    {
      state := seed;
    }

    method NextU64() returns (value: U64)
      modifies this
      ensures state == Next(old(state)) && value == Mix(state)
    {
      state := (state + GAMMA) % WORDS;
      value := Mix(state);
    }

    /** True with probability p; p at or beyond 0 or 1 draws nothing. */
    method Bernoulli(p: real) returns (hit: bool)
      modifies this
      ensures Coin(hit, state) == Toss(p, old(state))
    {
      hide Mix, Next, UnitDouble, Output;
      if p <= 0.0 {
        return false;
      }
      if p >= 1.0 {
        return true;
      }
      var value := NextU64();
      NextOutput(old(state), 0);
      return UnitDouble(value) < p;
    }

    /** Redraws what is below the threshold; from any state fewer than `limit` outputs are. */
    method UniformInRange(low: U64, high: U64) returns (result: U64)
      modifies this
      ensures Pick(result, state) == Uniform(old(state), low, high)
    {
      hide Mix, Next, Output, FirstAccepted, StateAfter;
      if high <= low {
        return low;
      }
      var span := high - low;
      if span == WORDS - 1 {
        var value := NextU64();
        NextOutput(old(state), 0);
        return value;
      }
      var limit: Positive := span + 1;
      var threshold := Threshold(limit);
      ghost var seed, rejected := state, 0;
      NextOutput(seed, 0);
      while true
        invariant rejected <= threshold && state == StateAfter(seed, rejected)
        invariant forall k :: 1 <= k <= rejected ==> Output(seed, k) < threshold
        invariant FirstAccepted(seed, rejected, threshold) == FirstAccepted(seed, 0, threshold)
        decreases threshold - rejected
      {
        var value := NextU64();
        NextOutput(seed, rejected);
        FirstAcceptedTurn(seed, rejected, threshold);
        if value >= threshold {
          return low + value % limit;
        }
        RejectionsBounded(seed, rejected + 1, threshold);
        rejected := rejected + 1;
      }
    }
  }

  // ------------------------------------------------------------ Unbiasedness

  /** The naturals below n. */
  function Words(n: nat): set<nat> {
    if n == 0 then {} else Words(n - 1) + {n - 1}
  }

  lemma {:induction false} WordsCount(n: nat)
    ensures |Words(n)| == n && forall v: nat :: v in Words(n) <==> v < n
  {
    if n > 0 {
      WordsCount(n - 1);
    }
  }

  function Images(n: nat): set<nat>
    requires n <= WORDS
  {
    set v: nat | 0 <= v < n :: Output(v, 1)
  }

  lemma {:induction false} ImagesCount(n: nat)
    requires n <= WORDS
    ensures |Images(n)| == n
  {
    hide Output;
    if n == 0 {
      assert Images(0) == {};
    } else {
      ImagesCount(n - 1);
      forall v: nat | v < n - 1
        ensures Output(v, 1) != Output(n - 1, 1)
      {
        FirstOutputInjective(v, n - 1);
      }
      assert Images(n) == Images(n - 1) + {Output(n - 1, 1)};
    }
  }

  lemma FirstOutputInjective(x: U64, y: U64)
    ensures Output(x, 1) == Output(y, 1) <==> x == y
  {
    hide Mix;
    assert StateAfter(x, 1) == Next(x) && StateAfter(y, 1) == Next(y);
    if Output(x, 1) == Output(y, 1) {
      MixInjective(Next(x), Next(y));
      ModuloUnique(Next(x), (x + GAMMA) / WORDS, x + GAMMA);
      assert (x + GAMMA) - (y + GAMMA) == ((x + GAMMA) / WORDS - (y + GAMMA) / WORDS) * WORDS;
    }
  }

  lemma SameSizeSubset(a: set<nat>, b: set<nat>)
    requires a <= b && |a| == |b|
    ensures a == b
  {
    assert |b - a| == |b| - |a|;
  }

  /** next_u64 is a permutation: every word is the next output of exactly one state. */
  lemma EveryWordHasAState(value: U64) returns (state: U64)
    ensures Output(state, 1) == value
    ensures forall s: U64 :: Output(s, 1) == value ==> s == state
  {
    ImagesCount(WORDS);
    WordsCount(WORDS);
    SameSizeSubset(Images(WORDS), Words(WORDS));
    assert value in Images(WORDS);
    state :| 0 <= state < WORDS && Output(state, 1) == value;
    forall s: U64 | Output(s, 1) == value
      ensures s == state
    {
      FirstOutputInjective(s, state);
    }
  }

  /** The accepted words that reduce to `residue`. */
  function Accepted(from: nat, to: nat, limit: Positive, residue: nat): set<nat> {
    set v | from <= v < to && v % limit == residue
  }

  lemma {:induction false} AcceptedCount(from: nat, windows: nat, limit: Positive, residue: nat)
    requires residue < limit
    ensures |Accepted(from, from + windows * limit, limit, residue)| == windows
  {
    if windows == 0 {
      assert Accepted(from, from, limit, residue) == {};
    } else {
      var to := from + (windows - 1) * limit;
      AcceptedCount(from, windows - 1, limit, residue);
      var hit := to + (residue - to) % limit;
      OneHitInWindow(to, limit, residue);
      assert from + windows * limit == to + limit;
      assert Accepted(from, to + limit, limit, residue) == Accepted(from, to, limit, residue) + {hit};
    }
  }

  lemma {:induction false} MultipleAtLeast(q: Positive, limit: Positive)
    ensures q * limit >= limit
  {
    if q > 1 {
      MultipleAtLeast(q - 1, limit);
      assert q * limit == (q - 1) * limit + limit;
    }
  }

  lemma QuotientSmall(q: int, limit: Positive, r: int)
    requires q * limit == r && 0 - limit < r < limit
    ensures q == 0
  {
    if q >= 1 {
      MultipleAtLeast(q, limit);
    } else if q <= -1 {
      MultipleAtLeast(-q, limit);
    }
  }

  lemma SameResidue(v: int, w: int, limit: Positive)
    requires 0 - limit < v - w < limit && v % limit == w % limit
    ensures v == w
  {
    var a, b := v / limit, w / limit;
    assert (a - b) * limit == a * limit - b * limit == v - w;
    QuotientSmall(a - b, limit, v - w);
  }

  lemma ResidueOf(n: int, q: int, r: nat, limit: Positive)
    requires n == q * limit + r && r < limit
    ensures n % limit == r
  {
    var a, b := n / limit, n % limit;
    assert (a - q) * limit == a * limit - q * limit == r - b;
    QuotientSmall(a - q, limit, r - b);
  }

  lemma OneHitInWindow(to: nat, limit: Positive, residue: nat)
    requires residue < limit
    ensures var hit := to + (residue - to) % limit;
      to <= hit < to + limit && forall v :: to <= v < to + limit ==> (v % limit == residue <==> v == hit)
  {
    var hit := to + (residue - to) % limit;
    var q := (residue - to) / limit;
    assert hit == residue - q * limit == (-q) * limit + residue;
    ResidueOf(hit, -q, residue, limit);
    forall v | to <= v < to + limit && v % limit == residue
      ensures v == hit
    {
      SameResidue(v, hit, limit);
    }
  }

  /** Whether the next draw from `state` is accepted, and what it reduces to. */
  predicate Yields(state: U64, limit: Positive, residue: nat)
    requires limit < WORDS
  {
    Output(state, 1) >= Threshold(limit) && Output(state, 1) % limit == residue
  }

  lemma ThresholdDivides(limit: Positive) returns (windows: nat)
    requires limit < WORDS
    ensures WORDS == Threshold(limit) + windows * limit
    ensures windows == (WORDS - Threshold(limit)) / limit
  {
    var rest := WORDS - limit;
    var q := rest / limit;
    windows := q + 1;
    assert rest == q * limit + Threshold(limit);
    assert windows * limit == q * limit + limit;
    assert WORDS - Threshold(limit) == windows * limit;
    ResidueOf(WORDS - Threshold(limit), windows, 0, limit);
    var exact := (WORDS - Threshold(limit)) / limit;
    assert (exact - windows) * limit == exact * limit - windows * limit == 0;
    QuotientSmall(exact - windows, limit, 0);
  }

  /** The states whose next output lies in `values`. */
  lemma {:induction false} Preimages(values: set<nat>) returns (states: set<nat>)
    requires forall v :: v in values ==> v < WORDS
    ensures |states| == |values|
    ensures forall s: U64 :: s in states <==> Output(s, 1) in values
    ensures forall s :: s in states ==> s < WORDS
    decreases |values|
  {
    if values == {} {
      states := {};
    } else {
      var v :| v in values;
      var fewer := Preimages(values - {v});
      var state := EveryWordHasAState(v);
      states := fewer + {state};
    }
  }

  /**
   Unbiased: of the 2^64 states, every residue below `limit` is the accepted
   result of exactly (2^64 - threshold) / limit.
   */
  lemma EveryResidueEquallyLikely(limit: Positive, residue: nat) returns (states: set<nat>)
    requires limit < WORDS && residue < limit
    ensures |states| == (WORDS - Threshold(limit)) / limit
    ensures forall s: U64 :: s in states <==> Yields(s, limit, residue)
    ensures forall s :: s in states ==> s < WORDS
  {
    var windows := ThresholdDivides(limit);
    AcceptedCount(Threshold(limit), windows, limit, residue);
    states := Preimages(Accepted(Threshold(limit), WORDS, limit, residue));
  }
}
