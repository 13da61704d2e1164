/**
 How often each stage of the impairment pipeline (src/net/impairments.cpp) acts:
 from how many of the generator's 2^64 states, which is the configured probability
 (`Likelihood.ChanceIsTheProbability`); and which channel's state decides.
 */
module FaultRates {
  import opened Basics
  import opened Corruption
  import opened Prng
  import opened Likelihood
  import opened Impairments

  // ------------------------------------------------------------ The loss stage

  predicate IsCertain(p: real) {
    p <= 0.0 || p >= 1.0
  }

  /** With the burst model off, a datagram is lost with the uniform probability. */
  lemma UniformLossRate(c: ImpairmentConfig, bad: bool) returns (states: set<nat>)
    requires !c.gilbertElliottEnabled
    ensures |states| == Chance(c.uniformLossProbability)
    ensures forall s: U64 :: s in states <==> LossOf(c, bad, s).lost
    ensures forall s: U64 :: LossOf(c, bad, s).bad == bad
  {
    hide Toss;
    states := TossLikelihood(c.uniformLossProbability);
  }

  /** With it on, the channel changes from bad to good and from good to bad with their own probabilities. */
  lemma ChannelMoveRate(c: ImpairmentConfig, bad: bool) returns (states: set<nat>)
    requires c.gilbertElliottEnabled && c.uniformLossProbability <= 0.0
    ensures |states| == Chance(if bad then c.badToGoodProbability else c.goodToBadProbability)
    ensures forall s: U64 :: s in states <==> LossOf(c, bad, s).bad == !bad
  {
    states := TossLikelihood(if bad then c.badToGoodProbability else c.goodToBadProbability);
    NoToss(c.uniformLossProbability);
    hide Toss;
  }

  /** And then loses with the probability of the state it has come to. */
  lemma BurstLossRate(c: ImpairmentConfig, bad: bool) returns (states: set<nat>)
    requires c.gilbertElliottEnabled && c.uniformLossProbability <= 0.0
    requires IsCertain(c.badToGoodProbability) && IsCertain(c.goodToBadProbability)
    ensures var moves := (if bad then c.badToGoodProbability else c.goodToBadProbability) >= 1.0;
      |states| == Chance(if bad != moves then c.lossInBadState else c.lossInGoodState)
    ensures forall s: U64 :: s in states <==> LossOf(c, bad, s).lost
  {
    var p := if bad then c.badToGoodProbability else c.goodToBadProbability;
    var moves := p >= 1.0;
    states := TossLikelihood(if bad != moves then c.lossInBadState else c.lossInGoodState);
    NoToss(c.uniformLossProbability);
    NoToss(p);
    hide Toss;
  }

  lemma NoToss(p: real)
    requires IsCertain(p)
    ensures forall s: U64 :: Toss(p, s) == Coin(p >= 1.0, s)
  {
    hide Output, UnitDouble, Next;
  }

  /** A uniform loss comes first and leaves the channel as it is. */
  lemma UniformLossSparesChannel(c: ImpairmentConfig, bad: bool, state: U64)
    ensures Toss(c.uniformLossProbability, state).hit ==> LossOf(c, bad, state).lost && LossOf(c, bad, state).bad == bad
  {
    hide Toss;
  }

  // ------------------------------------------------------- Which channel decides

  function ChannelBad(s: PipelineState, towards: Direction): bool {
    match towards
    case ClientToServer => s.clientToServerBad
    case ServerToClient => s.serverToClientBad
  }

  /** The channels stay as they are, and lose everything when bad, nothing when good. */
  predicate Frozen(c: ImpairmentConfig) {
    && c.gilbertElliottEnabled && c.uniformLossProbability <= 0.0 && !c.blackoutEnabled
    && c.goodToBadProbability <= 0.0 && c.badToGoodProbability <= 0.0
    && c.lossInBadState >= 1.0 && c.lossInGoodState <= 0.0
  }

  lemma OneFrozen(c: ImpairmentConfig, s: PipelineState, i: Input)
    requires |i.datagram| < WORDS && c.jitter < WORDS && Frozen(c)
    ensures var (result, next) := ProcessOf(c, s, i.direction, i.datagram, i.isDataPacket, i.now);
      && (result.dropped <==> ChannelBad(s, i.direction))
      && next.clientToServerBad == s.clientToServerBad && next.serverToClientBad == s.serverToClientBad
  {
    NoToss(c.uniformLossProbability);
    NoToss(c.goodToBadProbability);
    NoToss(c.badToGoodProbability);
    NoToss(c.lossInBadState);
    NoToss(c.lossInGoodState);
    hide Toss, CorruptOf, Charged, Throttled, OwnDelay;
  }

  /** Over a whole session each datagram is judged by the channel of its own direction. */
  lemma {:induction false} OwnChannelDecides(c: ImpairmentConfig, s: PipelineState, inputs: seq<Input>)
    requires Fits(c, inputs) && Frozen(c)
    ensures var results := Session(c, s, inputs).0;
      |results| == |inputs| &&
      forall i :: 0 <= i < |inputs| ==> (results[i].dropped <==> ChannelBad(s, inputs[i].direction))
    decreases |inputs|
  {
    hide ProcessOf, Frozen;
    if inputs != [] {
      var i := inputs[0];
      OneFrozen(c, s, i);
      OwnChannelDecides(c, ProcessOf(c, s, i.direction, i.datagram, i.isDataPacket, i.now).1, inputs[1..]);
    }
  }

  // ---------------------------------------------------------- The later stages

  /** A datagram with a header is damaged with the configured probability. */
  lemma CorruptionRate(c: ImpairmentConfig, datagram: Bytes) returns (states: set<nat>)
    requires 4 <= |datagram| < WORDS
    ensures |states| == Chance(c.corruptionProbability)
    ensures forall s: U64 :: s in states <==> CorruptOf(c, datagram, s).bytes != datagram
  {
    states := TossLikelihood(c.corruptionProbability);
    forall s: U64
      ensures Toss(c.corruptionProbability, s).hit <==> CorruptOf(c, datagram, s).bytes != datagram
    {
      HitIsDamage(c, datagram, s);
    }
    hide CorruptOf, Toss;
  }

  lemma HitIsDamage(c: ImpairmentConfig, datagram: Bytes, state: U64)
    requires 4 <= |datagram| < WORDS
    ensures Toss(c.corruptionProbability, state).hit <==> CorruptOf(c, datagram, state).bytes != datagram
  {
    hide Uniform, Toss;
    var fires := Toss(c.corruptionProbability, state);
    var target := TargetIndex(c.corruptionTarget, |datagram|, fires.state);
    assert target.value < |datagram|;
    assert FlipAt(datagram, target.value, Uniform(target.state, 0, 7).value) != datagram;
  }

  /** Each of the eight bits of the byte that is hit is flipped from an eighth of the states. */
  lemma BitRate(bytes: Bytes, index: nat, bit: nat) returns (states: set<nat>)
    requires index < |bytes| && bit < 8
    ensures |states| == 0x2000_0000_0000_0000
    ensures forall s: U64 :: s in states <==> FlipOf(bytes, index, s).bytes == FlipAt(bytes, index, bit)
  {
    hide Output, Uniform;
    assert Threshold(8) == 0;
    states := EveryValueEquallyLikely(0, 7, bit);
    forall s: U64
      ensures FlipOf(bytes, index, s).bytes == FlipAt(bytes, index, bit) <==> Uniform(s, 0, 7).value == bit
    {
      var k := Uniform(s, 0, 7).value;
      if k != bit {
        FlipsDiffer(bytes[index], k, bit);
        assert FlipAt(bytes, index, k)[index] != FlipAt(bytes, index, bit)[index];
      }
    }
  }

  lemma FlipsDiffer(b: Byte, j: nat, k: nat)
    requires j < 8 && k < 8 && j != k
    ensures FlipBit(b, j) != FlipBit(b, k)
  {
  }

  /** Of opcode and block number, either byte is hit from half of the states. */
  lemma HeaderByteRate(target: CorruptionTarget, size: nat, index: nat) returns (states: set<nat>)
    requires 4 <= size < WORDS && Targeted(target, size, index)
    requires target == OpcodeField || target == BlockNumber
    ensures |states| == 0x8000_0000_0000_0000
    ensures forall s: U64 :: s in states <==> TargetIndex(target, size, s).value == index
  {
    hide Output, Uniform;
    assert Threshold(2) == 0;
    states := EveryValueEquallyLikely(0, 1, if target == OpcodeField then index else index - 2);
  }

  /** Every other byte a target may hit is hit from equally many of the states whose next output is accepted. */
  lemma TargetedByteRate(target: CorruptionTarget, size: nat, index: nat) returns (states: set<nat>)
    requires 6 <= size < WORDS && Targeted(target, size, index)
    requires target == DataPayload || target == AnyByte
    ensures var count: Positive := if target == DataPayload then size - 4 else size;
      && |states| == (WORDS - Threshold(count)) / count
      && forall s: U64 :: s in states <==>
           Output(s, 1) >= Threshold(count) && TargetIndex(target, size, s).value == index
  {
    hide Output, Uniform, Threshold;
    if target == DataPayload {
      states := EveryValueEquallyLikely(0, size - 5, index - 4);
    } else {
      states := EveryValueEquallyLikely(0, size - 1, index);
    }
  }

  /** Without jitter a datagram is held back with the configured probability. */
  lemma HoldingRate(c: ImpairmentConfig) returns (states: set<nat>)
    requires c.jitter == 0 && c.reorderExtraDelay > 0
    ensures |states| == Chance(c.reorderProbability)
    ensures forall s: U64 :: s in states <==> OwnDelay(c, s).0 == c.fixedDelay + c.reorderExtraDelay
    ensures forall s: U64 :: s !in states <==> OwnDelay(c, s).0 == c.fixedDelay
  {
    hide Toss;
    states := TossLikelihood(c.reorderProbability);
  }

  /** Every jitter in range comes from equally many of the states whose next output is accepted. */
  lemma JitterRate(c: ImpairmentConfig, jitter: nat) returns (states: set<nat>)
    requires jitter <= c.jitter && 0 < c.jitter < WORDS - 1 && c.reorderProbability <= 0.0
    ensures |states| == (WORDS - Threshold(c.jitter + 1)) / (c.jitter + 1)
    ensures forall s: U64 :: s in states <==>
              Output(s, 1) >= Threshold(c.jitter + 1) && OwnDelay(c, s).0 == c.fixedDelay + jitter
  {
    hide Output, Uniform, Threshold;
    states := EveryValueEquallyLikely(0, c.jitter, jitter);
    NoToss(c.reorderProbability);
    hide Toss;
  }

  /** When nothing else is left to chance, a datagram comes twice with the configured probability. */
  lemma DuplicationRate(c: ImpairmentConfig, p: PipelineState, i: Input) returns (states: set<nat>)
    requires |i.datagram| < WORDS && AtRest(c.(duplicationProbability := 0.0))
    ensures |states| == Chance(c.duplicationProbability)
    ensures forall s: U64 :: s in states <==>
              |ProcessOf(c, p.(seed := s), i.direction, i.datagram, i.isDataPacket, i.now).0.deliveries| == 2
  {
    states := TossLikelihood(c.duplicationProbability);
    NoToss(c.uniformLossProbability);
    NoToss(c.corruptionProbability);
    NoToss(c.reorderProbability);
    hide Toss;
  }
}
