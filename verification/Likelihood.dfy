/**
 What a draw of the generator (src/net/deterministic_prng.hpp) is worth: from how
 many of its 2^64 states each outcome comes.
 */
module Likelihood {
  import opened Basics
  import opened Prng

  // ---------------------------------------------------------- A range drawn

  /**
   The value returned is low plus the remainder of the first output that is not
   below the threshold, and the state is left behind that output.
   */
  lemma UniformTakesFirstAccepted(state: U64, low: U64, high: U64) returns (k: Positive)
    requires low < high && high - low < WORDS - 1
    ensures var limit: Positive := high - low + 1;
      && Output(state, k) >= Threshold(limit) && (forall i :: 1 <= i < k ==> Output(state, i) < Threshold(limit))
      && var drawn := Uniform(state, low, high);
         && drawn.state == StateAfter(state, k)
         && low <= drawn.value <= high && (drawn.value - low - Output(state, k)) % limit == 0
  {
    hide Output, StateAfter;
    var limit: Positive := high - low + 1;
    k := FirstAccepted(state, 0, Threshold(limit));
    SameRemainder(Output(state, k), limit);
  }

  lemma SameRemainder(n: nat, limit: Positive)
    ensures (n % limit - n) % limit == 0
  {
    ResidueOf(n % limit - n, -(n / limit), 0, limit);
  }

  lemma AcceptedAtOnce(state: U64, low: U64, high: U64)
    requires low < high && high - low < WORDS - 1 && Output(state, 1) >= Threshold(high - low + 1)
    ensures Uniform(state, low, high).value == low + Output(state, 1) % (high - low + 1)
  {
    hide Output, StateAfter;
    FirstAcceptedTurn(state, 0, Threshold(high - low + 1));
  }

  /** Of the states whose next output is accepted, exactly as many give one value of the range as another. */
  lemma EveryValueEquallyLikely(low: U64, high: U64, value: U64) returns (states: set<nat>)
    requires low < high && high - low < WORDS - 1 && low <= value <= high
    ensures var limit: Positive := high - low + 1;
      && |states| == (WORDS - Threshold(limit)) / limit
      && (forall s: U64 :: s in states <==>
            Output(s, 1) >= Threshold(limit) && Uniform(s, low, high).value == value)
      && forall s :: s in states ==> s < WORDS
  {
    hide Output, Uniform, Threshold;
    var limit: Positive := high - low + 1;
    states := EveryResidueEquallyLikely(limit, value - low);
    forall s: U64 | Output(s, 1) >= Threshold(limit)
      ensures Uniform(s, low, high).value == value <==> Output(s, 1) % limit == value - low
    {
      AcceptedAtOnce(s, low, high);
    }
  }

  /** The whole range of words: the next output as it is, which each word is from exactly one state. */
  lemma WholeRangeIsOneOutput(state: U64)
    ensures Uniform(state, 0, WORDS - 1) == Pick(Output(state, 1), Next(state))
    ensures forall low: U64, high: U64 | high <= low :: Uniform(state, low, high) == Pick(low, state)
  {
  }

  // ----------------------------------------------------------- A coin tossed

  const UNITS := 0x20_0000_0000_0000  // 2^53, the fractions a toss compares with

  /** From how many states a toss with this probability hits. */
  function Chance(p: real): nat {
    if p <= 0.0 then 0
    else if p >= 1.0 then WORDS
    else
      var units := p * UNITS as real;
      FloorIsNatural(units);
      2048 * if units.Floor as real == units then units.Floor else units.Floor + 1
  }

  lemma FloorIsNatural(x: real)
    requires x >= 0.0
    ensures x.Floor >= 0
  {
  }

  /** That is the probability asked for, to within 2^-53. */
  lemma ChanceIsTheProbability(p: real)
    requires 0.0 <= p <= 1.0
    ensures p <= Chance(p) as real / WORDS as real <= p + 1.0 / UNITS as real
  {
    if 0.0 < p < 1.0 {
      var units := p * UNITS as real;
      var whole := if units.Floor as real == units then units.Floor else units.Floor + 1;
      assert units <= whole as real <= units + 1.0;
      assert Chance(p) as real / WORDS as real == whole as real / UNITS as real;
    }
  }

  lemma HitsBelow(p: real, value: U64)
    requires 0.0 < p < 1.0
    ensures UnitDouble(value) < p <==> value < Chance(p)
  {
    var units := p * UNITS as real;
    var fraction := value / 2048;
    assert UnitDouble(value) < p <==> fraction as real < units;
  }

  lemma ChanceIsWord(p: real)
    ensures Chance(p) <= WORDS
  {
    if 0.0 < p < 1.0 {
      var units := p * UNITS as real;
      assert units < UNITS as real;
    }
  }

  /** A toss hits from exactly that many of the 2^64 states. */
  lemma TossLikelihood(p: real) returns (states: set<nat>)
    ensures |states| == Chance(p)
    ensures forall s: U64 :: s in states <==> Toss(p, s).hit
    ensures forall s :: s in states ==> s < WORDS
  {
    hide Output, UnitDouble;
    ChanceIsWord(p);
    WordsCount(Chance(p));
    states := Preimages(Words(Chance(p)));
    if 0.0 < p < 1.0 {
      forall s: U64
        ensures UnitDouble(Output(s, 1)) < p <==> Output(s, 1) < Chance(p)
      {
        HitsBelow(p, Output(s, 1));
      }
    }
  }
}
