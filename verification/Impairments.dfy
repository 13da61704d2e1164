/**
 The impairment pipeline (src/net/impairments.cpp): loss, blackout, corruption,
 delay and duplication of one datagram, with the state they carry from one
 datagram to the next.
 */
module Impairments {
  import opened Basics
  import opened Corruption
  import opened Prng
  import opened Throttle

  datatype CorruptionTarget = AnyByte | OpcodeField | BlockNumber | DataPayload

  datatype ImpairmentConfig = ImpairmentConfig(
    uniformLossProbability: real,
    gilbertElliottEnabled: bool,
    goodToBadProbability: real,
    badToGoodProbability: real,
    lossInGoodState: real,
    lossInBadState: real,
    duplicationProbability: real,
    reorderProbability: real,
    reorderExtraDelay: nat,  // milliseconds, as all delays
    fixedDelay: nat,
    jitter: nat,
    corruptionProbability: real,
    corruptionTarget: CorruptionTarget,
    throttleEnabled: bool,
    throttleBytesPerSecond: real,
    blackoutEnabled: bool,
    blackoutAfterDataPackets: nat)

  datatype DeliveryAction = DeliveryAction(bytes: Bytes, delay: int, corrupted: bool, isDuplicate: bool)
  datatype PipelineResult = PipelineResult(dropped: bool, deliveries: seq<DeliveryAction>)

  /** The bytes a corruption target may hit in a datagram of this size. */
  predicate Targeted(target: CorruptionTarget, size: nat, index: nat) {
    index < size &&
    match target
    case OpcodeField => index < 2
    case BlockNumber => 2 <= index < 4
    case DataPayload => if size > 4 then index >= 4 else index == size - 1
    case AnyByte => true
  }

  /** Exactly one targeted bit differs. */
  ghost predicate OneBitFlipped(target: CorruptionTarget, original: Bytes, bytes: Bytes) {
    exists index, bit {:trigger FlipAt(original, index, bit)} ::
      0 <= index < |original| && 0 <= bit < 8 && Targeted(target, |original|, index)
      && bytes == FlipAt(original, index, bit)
  }

  predicate Throttles(c: ImpairmentConfig) {
    c.throttleEnabled && c.throttleBytesPerSecond > 0.0
  }

  predicate BlackedOut(c: ImpairmentConfig, delivered: nat) {
    c.blackoutEnabled && delivered >= c.blackoutAfterDataPackets
  }

  // ------------------------------- The stages as functions of the seeded state

  datatype Loss = Loss(lost: bool, bad: bool, state: U64)
  datatype Corrupted = Corrupted(bytes: Bytes, state: U64)

  datatype PipelineState = PipelineState(
    clientToServerBad: bool,
    serverToClientBad: bool,
    deliveredDataPackets: nat,
    bucket: Bucket,
    seed: U64)  // what the generator has come to

  /** Uniform loss first; then the channel may change state, and loses by its new one. */
  function LossOf(c: ImpairmentConfig, bad: bool, state: U64): Loss {
    var uniform := Toss(c.uniformLossProbability, state);
    if uniform.hit then Loss(true, bad, uniform.state)
    else if !c.gilbertElliottEnabled then Loss(false, bad, uniform.state)
    else
      var turn := Toss(if bad then c.badToGoodProbability else c.goodToBadProbability, uniform.state);
      var now := bad != turn.hit;
      var loss := Toss(if now then c.lossInBadState else c.lossInGoodState, turn.state);
      Loss(loss.hit, now, loss.state)
  }

  /** The byte to hit; perhaps one the datagram does not have. */
  ghost function TargetIndex(target: CorruptionTarget, size: nat, state: U64): Pick
    requires 0 < size < WORDS
  {
    match target
    case OpcodeField => Uniform(state, 0, 1)
    case BlockNumber => Pick(2 + Uniform(state, 0, 1).value, Uniform(state, 0, 1).state)
    case DataPayload =>
      if size > 4 then Pick(4 + Uniform(state, 0, size - 5).value, Uniform(state, 0, size - 5).state)
      else Pick(size - 1, state)
    case AnyByte => Uniform(state, 0, size - 1)
  }

  ghost function FlipOf(bytes: Bytes, index: nat, state: U64): Corrupted {
    if index < |bytes| then Corrupted(FlipAt(bytes, index, Uniform(state, 0, 7).value), Uniform(state, 0, 7).state)
    else Corrupted(bytes, state)
  }

  ghost function CorruptOf(c: ImpairmentConfig, datagram: Bytes, state: U64): Corrupted
    requires |datagram| < WORDS
  {
    if datagram == [] then Corrupted(datagram, state)
    else
      var fires := Toss(c.corruptionProbability, state);
      if !fires.hit then Corrupted(datagram, fires.state)
      else
        var target := TargetIndex(c.corruptionTarget, |datagram|, fires.state);
        FlipOf(datagram, target.value, target.state)
  }

  function Charged(c: ImpairmentConfig, b: Bucket, size: nat, now: real): Bucket {
    if Throttles(c) then Charge(b, c.throttleBytesPerSecond, Arrival(size, now)) else b
  }

  function Throttled(c: ImpairmentConfig, charged: Bucket): nat {
    if Throttles(c) then DelayMilliseconds(charged, c.throttleBytesPerSecond) else 0
  }

  /** Delay apart from the throttle: fixed, a uniform jitter, and perhaps the holding back. */
  ghost function OwnDelay(c: ImpairmentConfig, state: U64): (nat, U64)
    requires c.jitter < WORDS
  {
    var jitter := if c.jitter > 0 then Uniform(state, 0, c.jitter) else Pick(0, state);
    var held := Toss(c.reorderProbability, jitter.state);
    (c.fixedDelay + jitter.value + (if held.hit then c.reorderExtraDelay else 0), held.state)
  }

  function BadState(s: PipelineState, direction: Direction): bool {
    if direction.ClientToServer? then s.clientToServerBad else s.serverToClientBad
  }

  function WithLoss(s: PipelineState, direction: Direction, loss: Loss): PipelineState {
    if direction.ClientToServer? then s.(clientToServerBad := loss.bad, seed := loss.state)
    else s.(serverToClientBad := loss.bad, seed := loss.state)
  }

  /** Everything one datagram does, and the state it leaves. */
  ghost function ProcessOf(c: ImpairmentConfig, s: PipelineState, direction: Direction, datagram: Bytes,
                           isDataPacket: bool, now: real): (PipelineResult, PipelineState)
    requires |datagram| < WORDS && c.jitter < WORDS
  {
    if BlackedOut(c, s.deliveredDataPackets) then (PipelineResult(true, []), s)
    else
      var loss := LossOf(c, BadState(s, direction), s.seed);
      var after := WithLoss(s, direction, loss);
      if loss.lost then (PipelineResult(true, []), after)
      else
        var corrupted := CorruptOf(c, datagram, loss.state);
        var bucket := Charged(c, s.bucket, |corrupted.bytes|, now);
        var (own, state) := OwnDelay(c, corrupted.state);
        var twice := Toss(c.duplicationProbability, state);
        var primary := DeliveryAction(corrupted.bytes, own + Throttled(c, bucket), corrupted.bytes != datagram, false);
        (PipelineResult(false,
           if twice.hit then [primary, primary.(delay := primary.delay + 1, isDuplicate := true)] else [primary]),
         after.(deliveredDataPackets := s.deliveredDataPackets + if isDataPacket then 1 else 0,
                bucket := bucket, seed := twice.state))
  }

  // ----------------------------------------------------- The pipeline object

  class ImpairmentPipeline {
    const config: ImpairmentConfig
    const prng: DeterministicPrng
    var clientToServerBad: bool
    var serverToClientBad: bool
    var deliveredDataPackets: nat
    var bucket: Bucket

    constructor (config: ImpairmentConfig, seed: U64, now: real)
      ensures this.config == config && fresh(prng)
      ensures State() == PipelineState(false, false, 0, Bucket(0.0, now), seed)
    {
      this.config := config;
      prng := new DeterministicPrng(seed);
      clientToServerBad, serverToClientBad := false, false;
      deliveredDataPackets := 0;
      bucket := Bucket(0.0, now);
    }

    function State(): PipelineState
      reads this, prng
    {
      PipelineState(clientToServerBad, serverToClientBad, deliveredDataPackets, bucket, prng.state)
    }

    method DecideLoss(direction: Direction) returns (lost: bool)
      modifies this`clientToServerBad, this`serverToClientBad, prng
      ensures var loss := LossOf(config, BadState(old(State()), direction), old(prng.state));
        lost == loss.lost && State() == WithLoss(old(State()), direction, loss)
    {
      hide Toss;
      var uniform := prng.Bernoulli(config.uniformLossProbability);
      if uniform {
        return true;
      }
      if config.gilbertElliottEnabled {
        var bad := if direction.ClientToServer? then clientToServerBad else serverToClientBad;
        if bad {
          var recovers := prng.Bernoulli(config.badToGoodProbability);
          bad := !recovers;
        } else {
          bad := prng.Bernoulli(config.goodToBadProbability);
        }
        if direction.ClientToServer? {
          clientToServerBad := bad;
        } else {
          serverToClientBad := bad;
        }
        lost := prng.Bernoulli(if bad then config.lossInBadState else config.lossInGoodState);
        return lost;
      }
      return false;
    }

    method FlipTargeted(bytes: Bytes, index: nat) returns (flipped: Bytes, corrupted: bool)
      modifies prng
      ensures Corrupted(flipped, prng.state) == FlipOf(bytes, index, old(prng.state))
      ensures corrupted <==> flipped != bytes
    {
      hide Uniform, FlipAt;
      if index < |bytes| {
        var bit := prng.UniformInRange(0, 7);
        return FlipAt(bytes, index, bit), true;
      }
      return bytes, false;
    }

    method MaybeCorrupt(datagram: Bytes) returns (bytes: Bytes, corrupted: bool)
      requires |datagram| < WORDS
      modifies prng
      ensures Corrupted(bytes, prng.state) == CorruptOf(config, datagram, old(prng.state))
      ensures corrupted <==> bytes != datagram
    {
      hide Toss, Uniform, FlipOf;
      var fires := false;
      if datagram != [] {
        fires := prng.Bernoulli(config.corruptionProbability);
      }
      if !fires {
        return datagram, false;
      }
      var size := |datagram|;
      var index: nat := 0;
      match config.corruptionTarget {
        case OpcodeField =>
          index := prng.UniformInRange(0, 1);
        case BlockNumber =>
          var pick := prng.UniformInRange(0, 1);
          index := 2 + pick;
        case DataPayload =>
          if size > 4 {
            var pick := prng.UniformInRange(0, size - 5);
            index := 4 + pick;
          } else {
            index := size - 1;
          }
        case AnyByte =>
          index := prng.UniformInRange(0, size - 1);
      }
      bytes, corrupted := FlipTargeted(datagram, index);
    }

    /** Charges the bucket and turns what it owes into whole milliseconds. */
    method ThrottleDelay(size: nat, now: real) returns (delay: nat)
      modifies this`bucket
      ensures bucket == Charged(config, old(bucket), size, now) && delay == Throttled(config, bucket)
    {
      if !config.throttleEnabled || config.throttleBytesPerSecond <= 0.0 {
        return 0;
      }
      var rate: Rate := config.throttleBytesPerSecond;
      var elapsed := now - bucket.lastRefill;
      var tokens := bucket.tokens + elapsed * rate;
      tokens := Capped(tokens, rate);
      tokens := tokens - size as real;
      bucket := Bucket(tokens, now);
      if tokens >= 0.0 {
        return 0;
      }
      var deficit := -tokens;
      return (deficit / rate * 1000.0).Floor;
    }

    /** Fixed delay, jitter, what the throttle owes, and perhaps the holding back. */
    method TotalDelay(size: nat, now: real) returns (delay: nat)
      requires config.jitter < WORDS
      modifies this`bucket, prng
      ensures bucket == Charged(config, old(bucket), size, now)
      ensures (delay - Throttled(config, bucket), prng.state) == OwnDelay(config, old(prng.state))
    {
      hide Charged, Throttled, Toss, Uniform;
      delay := config.fixedDelay;
      if config.jitter > 0 {
        var extra := prng.UniformInRange(0, config.jitter);
        delay := delay + extra;
      }
      var throttled := ThrottleDelay(size, now);
      delay := delay + throttled;
      var held := prng.Bernoulli(config.reorderProbability);
      if held {
        delay := delay + config.reorderExtraDelay;
      }
    }

    /** One datagram through the pipeline. */
    method Process(direction: Direction, datagram: Bytes, isDataPacket: bool, now: real)
      returns (result: PipelineResult)
      requires |datagram| < WORDS && config.jitter < WORDS
      modifies this, prng
      ensures (result, State()) == ProcessOf(config, old(State()), direction, datagram, isDataPacket, now)
    {
      hide Charged, Throttled, Toss, Uniform, CorruptOf, LossOf, OwnDelay;
      if config.blackoutEnabled && deliveredDataPackets >= config.blackoutAfterDataPackets {
        return PipelineResult(true, []);
      }
      var lost := DecideLoss(direction);
      if lost {
        return PipelineResult(true, []);
      }
      if isDataPacket {
        deliveredDataPackets := deliveredDataPackets + 1;
      }
      var bytes, corrupted := MaybeCorrupt(datagram);
      var delay := TotalDelay(|bytes|, now);
      var primary := DeliveryAction(bytes, delay, corrupted, false);
      var twice := prng.Bernoulli(config.duplicationProbability);
      var deliveries := [primary];
      if twice {
        deliveries := deliveries + [DeliveryAction(bytes, delay + 1, corrupted, true)];
      }
      assert ProcessOf(config, old(State()), direction, datagram, isDataPacket, now).0.deliveries == deliveries;
      return PipelineResult(false, deliveries);
    }
  }

  // ------------------------------------------- What the stages can and cannot do

  /** Certain and impossible losses are so, and a loss needs a probability for it in the channel's state. */
  lemma LossIsConfigured(c: ImpairmentConfig, bad: bool, state: U64)
    ensures var loss := LossOf(c, bad, state);
      && (c.uniformLossProbability >= 1.0 ==> loss.lost)
      && (c.uniformLossProbability <= 0.0 && !c.gilbertElliottEnabled ==> loss == Loss(false, bad, state))
      && (c.uniformLossProbability <= 0.0 && c.gilbertElliottEnabled ==>
            var p := if loss.bad then c.lossInBadState else c.lossInGoodState;
            (p >= 1.0 ==> loss.lost) && (p <= 0.0 ==> !loss.lost))
      && (!c.gilbertElliottEnabled ==> loss.bad == bad)
  {
    hide Output, Next, UnitDouble;
  }

  /** A datagram is changed, if at all, by one flipped bit of the targeted field; certainly so at probability one. */
  lemma CorruptionIsOneTargetedBit(c: ImpairmentConfig, datagram: Bytes, state: U64)
    requires |datagram| < WORDS
    ensures var bytes := CorruptOf(c, datagram, state).bytes;
      && (bytes != datagram ==> OneBitFlipped(c.corruptionTarget, datagram, bytes))
      && |bytes| == |datagram|
      && (c.corruptionProbability <= 0.0 ==> bytes == datagram)
      && (c.corruptionProbability >= 1.0 && |datagram| >= 4 ==> bytes != datagram)
  {
    hide Uniform, Output, Next, UnitDouble;
    if datagram != [] {
      var fires := Toss(c.corruptionProbability, state);
      var target := TargetIndex(c.corruptionTarget, |datagram|, fires.state);
      assert target.value < |datagram| ==> Targeted(c.corruptionTarget, |datagram|, target.value);
      var bit := Uniform(target.state, 0, 7).value;
      assert target.value < |datagram| ==> FlipAt(datagram, target.value, bit) != datagram;
    }
  }

  /** The delay apart from the throttle: fixed, jittered, and held back or not. */
  predicate HeldBack(c: ImpairmentConfig, delay: int) {
    && ((c.reorderProbability > 0.0 && c.fixedDelay + c.reorderExtraDelay <= delay)
        || (c.reorderProbability < 1.0 && delay <= c.fixedDelay + c.jitter))
    && c.fixedDelay <= delay <= c.fixedDelay + c.jitter + c.reorderExtraDelay
  }

  /** What a surviving datagram turns into. */
  ghost predicate Delivers(c: ImpairmentConfig, datagram: Bytes, deliveries: seq<DeliveryAction>, throttled: int) {
    && 1 <= |deliveries| <= 2
    && var primary := deliveries[0];
       && !primary.isDuplicate
       && (primary.corrupted <==> primary.bytes != datagram)
       && (primary.corrupted ==> OneBitFlipped(c.corruptionTarget, datagram, primary.bytes))
       && HeldBack(c, primary.delay - throttled)
       && (|deliveries| == 2 ==>
             deliveries[1] == primary.(isDuplicate := true, delay := primary.delay + 1)
             && c.duplicationProbability > 0.0)
       && (c.duplicationProbability >= 1.0 ==> |deliveries| == 2)
  }

  lemma OwnDelayIsHeldBack(c: ImpairmentConfig, state: U64)
    requires c.jitter < WORDS
    ensures HeldBack(c, OwnDelay(c, state).0)
  {
    hide Uniform, Output, Next, UnitDouble;
  }

  /**
   Whatever comes out is the datagram with at most one targeted bit flipped, once
   or twice, within the configured delays; what is dropped leaves bucket and count alone.
   */
  lemma ProcessDelivers(c: ImpairmentConfig, s: PipelineState, direction: Direction, datagram: Bytes,
                        isDataPacket: bool, now: real)
    requires |datagram| < WORDS && c.jitter < WORDS
    ensures var (result, after) := ProcessOf(c, s, direction, datagram, isDataPacket, now);
      if result.dropped then
        result.deliveries == [] && after.bucket == s.bucket && after.deliveredDataPackets == s.deliveredDataPackets
      else
        && Delivers(c, datagram, result.deliveries, Throttled(c, after.bucket))
        && after.bucket == Charged(c, s.bucket, |datagram|, now)
        && after.deliveredDataPackets == s.deliveredDataPackets + if isDataPacket then 1 else 0
  {
    hide Charged, Throttled, Uniform, CorruptOf, LossOf, OwnDelay, HeldBack, OneBitFlipped, Output, Next, UnitDouble;
    var loss := LossOf(c, BadState(s, direction), s.seed);
    CorruptionIsOneTargetedBit(c, datagram, loss.state);
    OwnDelayIsHeldBack(c, CorruptOf(c, datagram, loss.state).state);
  }

  // ------------------------------------------------------- Over whole sessions

  datatype Input = Input(direction: Direction, datagram: Bytes, isDataPacket: bool, now: real)

  ghost predicate Fits(c: ImpairmentConfig, inputs: seq<Input>) {
    c.jitter < WORDS && forall i :: 0 <= i < |inputs| ==> |inputs[i].datagram| < WORDS
  }

  /** The results of a session, in order, and the state at its end. */
  ghost function Session(c: ImpairmentConfig, s: PipelineState, inputs: seq<Input>): (seq<PipelineResult>, PipelineState)
    requires Fits(c, inputs)
    decreases |inputs|
  {
    if inputs == [] then ([], s)
    else
      var i := inputs[0];
      var (result, next) := ProcessOf(c, s, i.direction, i.datagram, i.isDataPacket, i.now);
      var (results, end) := Session(c, next, inputs[1..]);
      ([result] + results, end)
  }

  /** DATA packets among the inputs that were let through. */
  function Survived(inputs: seq<Input>, results: seq<PipelineResult>): nat
    requires |inputs| == |results|
  {
    if inputs == [] then 0
    else (if inputs[0].isDataPacket && !results[0].dropped then 1 else 0) + Survived(inputs[1..], results[1..])
  }

  /**
   Over every session: the count is exactly the DATA packets let through; under a
   blackout after n they are at most n, and once it has begun nothing passes and
   nothing changes.
   */
  lemma {:induction false} BlackoutHolds(c: ImpairmentConfig, s: PipelineState, inputs: seq<Input>)
    requires Fits(c, inputs)
    ensures var (results, end) := Session(c, s, inputs);
      && |results| == |inputs|
      && end.deliveredDataPackets == s.deliveredDataPackets + Survived(inputs, results)
      && (c.blackoutEnabled && s.deliveredDataPackets <= c.blackoutAfterDataPackets ==>
            end.deliveredDataPackets <= c.blackoutAfterDataPackets)
      && (BlackedOut(c, s.deliveredDataPackets) ==>
            end == s && forall i :: 0 <= i < |results| ==> results[i].dropped)
    decreases |inputs|
  {
    hide ProcessOf, Delivers;
    if inputs != [] {
      var i := inputs[0];
      var (result, next) := ProcessOf(c, s, i.direction, i.datagram, i.isDataPacket, i.now);
      ProcessDelivers(c, s, i.direction, i.datagram, i.isDataPacket, i.now);
      BlackedOutDrops(c, s, i);
      BlackoutHolds(c, next, inputs[1..]);
      var (results, end) := Session(c, next, inputs[1..]);
      assert ([result] + results)[1..] == results;
    }
  }

  lemma BlackedOutDrops(c: ImpairmentConfig, s: PipelineState, i: Input)
    requires |i.datagram| < WORDS && c.jitter < WORDS
    ensures BlackedOut(c, s.deliveredDataPackets) ==>
              ProcessOf(c, s, i.direction, i.datagram, i.isDataPacket, i.now) == (PipelineResult(true, []), s)
  {
  }

  /** Every fault is off, and what stays is the fixed delay. */
  predicate AtRest(c: ImpairmentConfig) {
    && c.uniformLossProbability <= 0.0 && !c.gilbertElliottEnabled && c.corruptionProbability <= 0.0
    && c.reorderProbability <= 0.0 && c.duplicationProbability <= 0.0
    && c.jitter == 0 && !Throttles(c) && !c.blackoutEnabled
  }

  lemma OneAtRest(c: ImpairmentConfig, s: PipelineState, i: Input)
    requires |i.datagram| < WORDS && AtRest(c)
    ensures ProcessOf(c, s, i.direction, i.datagram, i.isDataPacket, i.now) ==
            (PipelineResult(false, [DeliveryAction(i.datagram, c.fixedDelay, false, false)]),
             s.(deliveredDataPackets := s.deliveredDataPackets + if i.isDataPacket then 1 else 0))
  {
    hide Charge, DelayMilliseconds;
  }

  /**
   Over every session with the faults at rest, each datagram passes once, unchanged,
   after the fixed delay, and the generator, the channels and the bucket are not touched.
   */
  lemma {:induction false} RestIsTransparent(c: ImpairmentConfig, s: PipelineState, inputs: seq<Input>)
    requires Fits(c, inputs) && AtRest(c)
    ensures var (results, end) := Session(c, s, inputs);
      && |results| == |inputs|
      && (forall i :: 0 <= i < |inputs| ==>
            results[i] == PipelineResult(false, [DeliveryAction(inputs[i].datagram, c.fixedDelay, false, false)]))
      && end == s.(deliveredDataPackets := end.deliveredDataPackets)
    decreases |inputs|
  {
    hide ProcessOf, AtRest;
    if inputs != [] {
      var i := inputs[0];
      OneAtRest(c, s, i);
      var (result, next) := ProcessOf(c, s, i.direction, i.datagram, i.isDataPacket, i.now);
      RestIsTransparent(c, next, inputs[1..]);
    }
  }

  lemma CertainlyDropped(c: ImpairmentConfig, s: PipelineState, i: Input)
    requires |i.datagram| < WORDS && c.jitter < WORDS && c.uniformLossProbability >= 1.0
    ensures var (result, next) := ProcessOf(c, s, i.direction, i.datagram, i.isDataPacket, i.now);
      result.dropped && next == s
  {
    hide CorruptOf, OwnDelay, Charged, Throttled;
    LossIsConfigured(c, BadState(s, i.direction), s.seed);
  }

  /** Over every session under certain loss, nothing passes and nothing changes. */
  lemma {:induction false} CertainLossPassesNothing(c: ImpairmentConfig, s: PipelineState, inputs: seq<Input>)
    requires Fits(c, inputs) && c.uniformLossProbability >= 1.0
    ensures var (results, end) := Session(c, s, inputs);
      |results| == |inputs| && end == s && forall i :: 0 <= i < |results| ==> results[i].dropped
    decreases |inputs|
  {
    hide ProcessOf;
    if inputs != [] {
      CertainlyDropped(c, s, inputs[0]);
      CertainLossPassesNothing(c, s, inputs[1..]);
    }
  }

  /** Corruption of the opcode field is exactly one flipped bit of its sixteen. */
  lemma OpcodeCorruptionIsOneOpcodeBit(original: Bytes, bytes: Bytes)
    requires |original| >= 2
    ensures OneBitFlipped(OpcodeField, original, bytes) <==>
            exists bit :: 0 <= bit < 16 && bytes == FlipOpcodeBit(original, bit)
  {
    if OneBitFlipped(OpcodeField, original, bytes) {
      var index, bit :| 0 <= index < |original| && 0 <= bit < 8 && Targeted(OpcodeField, |original|, index)
                        && bytes == FlipAt(original, index, bit);
      assert bytes == FlipOpcodeBit(original, 8 * index + bit);
    }
    if exists bit :: 0 <= bit < 16 && bytes == FlipOpcodeBit(original, bit) {
      var bit :| 0 <= bit < 16 && bytes == FlipOpcodeBit(original, bit);
      assert bytes == FlipAt(original, bit / 8, bit % 8);
    }
  }
}
