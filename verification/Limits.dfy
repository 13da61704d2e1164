/**
 Where joint safety stops: the bound of 65535 blocks is exact, and so is the
 window bound under the out-of-sequence defect.
 */
module Limits {
  import opened Basics
  import opened DataPlane
  import opened LockedPeer
  import opened Network
  import opened Progress
  import opened Lossless

  ghost predicate AlwaysSafe(link: Link) {
    forall moves :: Admissible(link, Start(link), moves) ==> Safe(link, Exec(link, Start(link), moves))
  }

  // --------------------------------------------------------- The block bound

  /** The step of a lossless run at which wire numbers begin to repeat. */
  lemma {:induction false} FirstReuse(link: Link, steps: nat) returns (k: nat)
    requires Matched(link)
    requires After(link, steps).j.s.highestSent >= WIRE_NUMBERS
    ensures After(link, k).j.s.highestSent < WIRE_NUMBERS <= After(link, k + 1).j.s.highestSent
  {
    hide Step;
    assert After(link, 0).j.s.highestSent < WIRE_NUMBERS;
    if After(link, steps - 1).j.s.highestSent < WIRE_NUMBERS {
      k := steps - 1;
    } else {
      k := FirstReuse(link, steps - 1);
    }
  }

  /** There, an ACK 0 left over from the handshake passes for block 65536. */
  lemma StaleAckOvertakes(link: Link, q: Queues)
    requires Matched(link) && link.handshakeAck && InStep(link, q)
    requires q.j.s.highestSent < WIRE_NUMBERS <= Step(link, q).j.s.highestSent
    requires 0 in Step(link, q).j.ackLog
    ensures var j := Step(link, q).j;
      Possible(link, j, DeliverAck(0, None)) && !Safe(link, Apply(link, j, DeliverAck(0, None)))
  {
    StepKeeps(link, q);
    if DataPending(q) {
      DataStepTaken(link, q);
      assert false;
    }
    AckStepTaken(link, q);
    var j := Step(link, q).j;
    assert j.s.ending.None?;
    assert j.r.lastInSequence < WIRE_NUMBERS;
    IntactEvents(link, 0);
    assert WireBlockNumber(WIRE_NUMBERS) == WireBlockNumber(0);
    assert ResolveAck(WireBlockNumber(0), j.s.lastAcked, j.s.highestSent) >= WIRE_NUMBERS;
    hide Classify, AckEvent, InStep, Step;
  }

  lemma {:induction false} HandshakeStays(link: Link, steps: nat)
    requires Matched(link) && link.handshakeAck
    ensures 0 in After(link, steps).j.ackLog
  {
    hide Step;
    if steps == 0 {
      assert Start(link).ackLog == [0];
    } else {
      HandshakeStays(link, steps - 1);
      StepKeepsAcks(link, After(link, steps - 1));
    }
  }

  lemma StepKeepsAcks(link: Link, q: Queues)
    ensures forall i :: i in q.j.ackLog ==> i in Step(link, q).j.ackLog
  {
    hide Classify, DataEvent, AckEvent, ReceiverStep, SenderStep;
  }

  /** From the start of a lossless run, or after its first delivery, some moves lead to that. */
  lemma UnsafeLongRun(link: Link, from: nat) returns (moves: seq<Move>)
    requires Matched(link) && link.handshakeAck && Total(link) >= WIRE_NUMBERS && from <= 1
    ensures var j := After(link, from).j;
      Admissible(link, j, moves) && !Safe(link, Exec(link, j, moves))
  {
    hide Step, InStep, Safe, Apply, Possible;
    LosslessRunCost(link);
    SentWithinLog(link, Total(link) + WindowCount(link));
    var k := FirstReuse(link, Total(link) + WindowCount(link));
    StaysInStep(link, k);
    HandshakeStays(link, k + 1);
    StaleAckOvertakes(link, After(link, k));
    var prefix := AfterIsReachable(link, from, k + 1);
    var stale := DeliverAck(0, None);
    moves := prefix + [stale];
    AppendMove(link, After(link, from).j, prefix, stale);
  }

  // A link without a handshake ACK can still come to have an ACK 0 in flight.

  function WithHandshake(link: Link): Link {
    link.(handshakeAck := true)
  }

  lemma HandshakeIsHistory(link: Link, j: Joint, m: Move)
    requires Possible(WithHandshake(link), j, m)
    ensures Possible(link, j, m) && Apply(link, j, m) == Apply(WithHandshake(link), j, m)
  {
    hide Classify, SenderStep, ReceiverStep;
  }

  lemma {:induction false} RunsIgnoreHandshake(link: Link, j: Joint, moves: seq<Move>)
    requires Admissible(WithHandshake(link), j, moves)
    ensures Admissible(link, j, moves) && Exec(link, j, moves) == Exec(WithHandshake(link), j, moves)
    decreases |moves|
  {
    hide Apply, Possible;
    if moves != [] {
      HandshakeIsHistory(link, j, moves[0]);
      RunsIgnoreHandshake(link, Apply(link, j, moves[0]), moves[1..]);
    }
  }

  lemma SafetyIgnoresHandshake(link: Link, j: Joint)
    ensures Safe(link, j) <==> Safe(WithHandshake(link), j)
    ensures Matched(link) <==> Matched(WithHandshake(link))
    ensures Total(link) == Total(WithHandshake(link))
  {
  }

  /** With a window of two, block 2 delivered before block 1 draws ACK 0 and changes nothing else. */
  lemma GapDrawsAckZero(link: Link)
    requires Matched(link) && !link.handshakeAck && link.sender.Window() >= 2 && Total(link) >= 2
    ensures var m := DeliverData(2, None);
      Possible(link, Start(link), m) && Apply(link, Start(link), m) == Start(WithHandshake(link))
  {
    var start := Start(link);
    assert start.dataLog[1] == 2;
    StartInvariant(link);
    BlockDelivered(link, start, 2);
    hide Apply, Possible;
    assert [] + [0] == [0];
  }

  /** With a window of one, a timeout of the receiver before block 1 draws it, and block 1 forgets the timeout. */
  lemma TimeoutDrawsAckZero(link: Link)
    requires Matched(link) && !link.handshakeAck && link.receiver.config.maximumRetransmissions > 0
    ensures var m, first := ToReceiver(Silence), DeliverData(1, None);
      && Possible(link, Start(link), m)
      && var j := Apply(link, Start(link), m);
         Possible(link, j, first) && Apply(link, j, first) == After(WithHandshake(link), 1).j
  {
    var start, shaken := Start(link), Start(WithHandshake(link));
    var j := Apply(link, start, ToReceiver(Silence));
    assert start.dataLog[0] == 1;
    assert [] + [0] == [0];
    assert j == start.(r := start.r.(timeouts := 1), ackLog := [0]);
    ReceiverReadsBlock(link, j, 1);
    ReceiverReadsBlock(WithHandshake(link), shaken, 1);
    FirstStep(WithHandshake(link));
    hide HandleData, ReceiverReads, DataEvent, BlockPayload, WireBlockNumber;
  }

  lemma FirstStep(link: Link)
    ensures After(link, 1).j == ReceiverReads(link, Start(link), DataEvent(link, 1, None))
  {
    hide ReceiverReads, DataEvent;
    assert Start(link).dataLog[0] == 1;
    assert After(link, 0) == Begin(link);
  }

  /** The step of a lossless run at which block 65536 arrives. */
  lemma {:induction false} ArrivalOfReuse(link: Link, steps: nat) returns (k: nat)
    requires Matched(link) && After(link, steps).dataTaken >= WIRE_NUMBERS
    ensures After(link, k).dataTaken < WIRE_NUMBERS <= After(link, k + 1).dataTaken
  {
    hide Step;
    if After(link, steps - 1).dataTaken < WIRE_NUMBERS {
      k := steps - 1;
    } else {
      k := ArrivalOfReuse(link, steps - 1);
    }
  }

  lemma ReuseArrives(link: Link, q: Queues)
    requires Matched(link) && link.sender.Window() == 1 && InStep(link, q) && Total(link) > WIRE_NUMBERS
    requires q.dataTaken < WIRE_NUMBERS <= Step(link, q).dataTaken
    ensures var j := Step(link, q).j;
      && j.r.lastInSequence == WIRE_NUMBERS == j.s.highestSent && j.r.phase.Receiving?
      && 1 in j.dataLog
  {
    assert DataPending(q);
    hide Step, Invariant, Total, Times;
    WindowAckedOnce(link, q);
    Counters(link, q.j);
    assert q.j.dataLog[0] == 1;
    assert Invariant(link, Step(link, q).j) by {
      DataStepTaken(link, q);
    }
    Counters(link, Step(link, q).j);
  }

  lemma ReuseAccepted(t: Terms, r: Receiver, data: Bytes)
    requires r.lastInSequence == WIRE_NUMBERS
    ensures HandleData(t, r, WireBlockNumber(1), data).0.lastInSequence == WIRE_NUMBERS + 1
  {
    hide ResolveData;
    ResolveDataIsNextIffWireIsNext(WireBlockNumber(1), WIRE_NUMBERS, t.Window());
    assert WireBlockNumber(1) == WireBlockNumber(WIRE_NUMBERS + 1);
  }

  lemma StaleBlockTaken(link: Link, j: Joint)
    requires j.r.lastInSequence == WIRE_NUMBERS == j.s.highestSent && j.r.phase.Receiving? && 1 in j.dataLog
    ensures Possible(link, j, DeliverData(1, None)) && !Safe(link, Apply(link, j, DeliverData(1, None)))
  {
    ReceiverReadsBlock(link, j, 1);
    ReuseAccepted(link.receiver, j.r.(timeouts := 0), BlockPayload(link.payload, 1, link.sender.blockSize));
    hide ReceiverReads, HandleData, DataEvent, BlockPayload, WireBlockNumber, Total;
  }

  /** There, with a window of one, block 1 delivered late passes for block 65537, which was never sent. */
  lemma StaleBlockOvertakes(link: Link, q: Queues)
    requires Matched(link) && link.sender.Window() == 1 && InStep(link, q) && Total(link) > WIRE_NUMBERS
    requires q.dataTaken < WIRE_NUMBERS <= Step(link, q).dataTaken
    ensures var j := Step(link, q).j;
      Possible(link, j, DeliverData(1, None)) && !Safe(link, Apply(link, j, DeliverData(1, None)))
  {
    hide Step, InStep, Safe, Apply, Possible;
    ReuseArrives(link, q);
    StaleBlockTaken(link, Step(link, q).j);
  }

  lemma UnsafeWithoutAckZero(link: Link, from: nat) returns (moves: seq<Move>)
    requires Matched(link) && link.sender.Window() == 1 && Total(link) > WIRE_NUMBERS && from <= 1
    ensures var j := After(link, from).j;
      Admissible(link, j, moves) && !Safe(link, Exec(link, j, moves))
  {
    hide Step, InStep, Safe, Apply, Possible;
    LosslessRunCost(link);
    var steps := Total(link) + WindowCount(link);
    SentWithinLog(link, steps);
    var k := ArrivalOfReuse(link, steps);
    StaysInStep(link, k);
    StaleBlockOvertakes(link, After(link, k));
    var prefix := AfterIsReachable(link, from, k + 1);
    var stale := DeliverData(1, None);
    moves := prefix + [stale];
    AppendMove(link, After(link, from).j, prefix, stale);
  }

  /** No ACK 0 in flight, and none that could still be drawn. */
  predicate NeverAckZero(link: Link) {
    !link.handshakeAck && link.sender.Window() == 1 && link.receiver.config.maximumRetransmissions <= 0
  }

  /** Any long transfer can be broken, save the one of 65536 blocks that never sees an ACK 0. */
  lemma LongIsUnsafe(link: Link) returns (moves: seq<Move>)
    requires Matched(link) && Total(link) >= WIRE_NUMBERS
    requires !NeverAckZero(link) || Total(link) > WIRE_NUMBERS
    ensures Admissible(link, Start(link), moves) && !Safe(link, Exec(link, Start(link), moves))
  {
    hide Apply, Possible, Safe, Step;
    var shaken := WithHandshake(link);
    SafetyIgnoresHandshake(link, Start(link));
    if link.handshakeAck {
      assert shaken == link;
      moves := UnsafeLongRun(link, 0);
    } else if link.sender.Window() >= 2 {
      var rest := UnsafeLongRun(shaken, 0);
      GapDrawsAckZero(link);
      moves := ThenUnsafe(link, Start(link), DeliverData(2, None), Start(shaken), rest);
    } else if link.receiver.config.maximumRetransmissions > 0 {
      var rest := UnsafeLongRun(shaken, 1);
      TimeoutDrawsAckZero(link);
      var j := Apply(link, Start(link), ToReceiver(Silence));
      rest := ThenUnsafe(link, j, DeliverData(1, None), After(shaken, 1).j, rest);
      moves := [ToReceiver(Silence)] + rest;
      assert moves[1..] == rest;
    } else {
      moves := UnsafeWithoutAckZero(link, 0);
    }
  }

  lemma ThenUnsafe(link: Link, j: Joint, m: Move, k: Joint, rest: seq<Move>) returns (moves: seq<Move>)
    requires Possible(link, j, m) && Apply(link, j, m) == k
    requires Admissible(WithHandshake(link), k, rest) && !Safe(WithHandshake(link), Exec(WithHandshake(link), k, rest))
    ensures Admissible(link, j, moves) && !Safe(link, Exec(link, j, moves))
  {
    hide Apply, Possible, Safe;
    RunsIgnoreHandshake(link, k, rest);
    SafetyIgnoresHandshake(link, Exec(link, k, rest));
    moves := [m] + rest;
    assert moves[1..] == rest;
  }

  // The transfer that never sees an ACK 0 is safe even at 65536 blocks.

  ghost predicate Quiet(link: Link, j: Joint) {
    Invariant(link, j) && 0 !in j.ackLog
  }

  lemma QuietIsFresh(link: Link, j: Joint, m: Move)
    requires Matched(link) && Total(link) == WIRE_NUMBERS && Quiet(link, j) && Possible(link, j, m)
    ensures Fresh(j, m)
  {
    hide Classify;
    Counters(link, j);
    WholeTotal(link);
  }

  lemma NoAckZeroFromReceiver(link: Link, j: Joint, e: Event)
    requires Matched(link) && NeverAckZero(link) && Quiet(link, j) && !IsData(Classify(link.senderTid, e))
    ensures 0 !in ReceiverReads(link, j, e).ackLog
  {
    hide Classify, Invariant, HandleData;
  }

  lemma NoAckZeroForBlock(link: Link, j: Joint, index: nat)
    requires Matched(link) && NeverAckZero(link) && Quiet(link, j) && index in j.dataLog
    requires Fresh(j, DeliverData(index, None))
    ensures 0 !in ReceiverReads(link, j, DataEvent(link, index, None)).ackLog
  {
    Counters(link, j);
    if j.r.phase.Receiving? {
      BlockDelivered(link, j, index);
      hide ReceiverReads, DataEvent, Invariant, Willing;
    } else {
      IntactEvents(link, index);
      hide Classify, DataEvent, Invariant, BlockPayload, Total;
    }
  }

  lemma QuietStays(link: Link, j: Joint, m: Move)
    requires Matched(link) && Total(link) == WIRE_NUMBERS && NeverAckZero(link) && Quiet(link, j) && Possible(link, j, m)
    ensures Quiet(link, Apply(link, j, m))
  {
    QuietIsFresh(link, j, m);
    ApplyKeepsInvariant(link, j, m);
    hide Classify, Invariant, SenderStep, ReceiverReads, DataEvent, AckEvent, Matched;
    match m
    case ToSender(_) =>
    case DeliverAck(_, _) =>
    case ToReceiver(e) => NoAckZeroFromReceiver(link, j, e);
    case DeliverData(index, None) => NoAckZeroForBlock(link, j, index);
    case DeliverData(index, Some(bit)) =>
      DamageIsLoss(link, j, index, bit);
      NoAckZeroFromReceiver(link, j, DataEvent(link, index, Some(bit)));
  }

  lemma {:induction false} QuietThroughout(link: Link, j: Joint, moves: seq<Move>)
    requires Matched(link) && Total(link) == WIRE_NUMBERS && NeverAckZero(link) && Quiet(link, j)
    requires Admissible(link, j, moves)
    ensures Quiet(link, Exec(link, j, moves))
    decreases |moves|
  {
    hide Apply, Possible, Quiet, Matched;
    if moves != [] {
      QuietStays(link, j, moves[0]);
      QuietThroughout(link, Apply(link, j, moves[0]), moves[1..]);
    }
  }

  /**
   The wraparound limit, exactly: every schedule is safe if and only if there are
   at most 65535 blocks, or 65536 of them and no ACK 0 can ever be in flight.
   */
  lemma SafeIffNoReuse(link: Link)
    requires Matched(link)
    ensures AlwaysSafe(link) <==>
            Total(link) < WIRE_NUMBERS || (Total(link) == WIRE_NUMBERS && NeverAckZero(link))
  {
    hide Safe, Apply, Possible, NeverAckZero;
    if Total(link) < WIRE_NUMBERS {
      forall moves | Admissible(link, Start(link), moves)
        ensures Safe(link, Exec(link, Start(link), moves))
      {
        JointSafety(link, moves);
      }
    } else if Total(link) == WIRE_NUMBERS && NeverAckZero(link) {
      forall moves | Admissible(link, Start(link), moves)
        ensures Safe(link, Exec(link, Start(link), moves))
      {
        QuietStart(link);
        QuietThroughout(link, Start(link), moves);
        InvariantIsSafe(link, Exec(link, Start(link), moves));
      }
    } else {
      var moves := LongIsUnsafe(link);
    }
  }

  lemma QuietStart(link: Link)
    requires NeverAckZero(link)
    ensures Quiet(link, Start(link))
  {
    StartInvariant(link);
  }

  // On a download without options the receiver starts on block 1, which answered
  // the request: it never waits before it, and so never sends an ACK 0.

  /** The first thing to reach the receiver is block 1, intact. */
  predicate Primed(moves: seq<Move>) {
    moves == [] ||
    (match moves[0]
     case ToReceiver(_) => false
     case DeliverData(index, damage) => index == 1 && damage == None
     case _ => Primed(moves[1..]))
  }

  /** Not started yet, or started on block 1 and without an ACK 0. */
  ghost predicate PrimedState(link: Link, j: Joint) {
    Invariant(link, j) && 0 !in j.ackLog && (j.r.lastInSequence == 0 ==> j.r == ReceiverStart(1))
  }

  lemma PrimedSenderMove(link: Link, j: Joint, m: Move)
    requires Invariant(link, j) && Possible(link, j, m) && (m.ToSender? || m.DeliverAck?)
    ensures var k := Apply(link, j, m);
      k.r == j.r && k.ackLog == j.ackLog
  {
    hide Classify, SenderStep;
  }

  lemma PrimedIsFresh(link: Link, j: Joint, m: Move)
    requires Matched(link) && Total(link) == WIRE_NUMBERS && PrimedState(link, j) && Possible(link, j, m)
    ensures Fresh(j, m)
  {
    QuietIsFresh(link, j, m);
  }

  /** Once block 1 is in, what is acknowledged is never block 0. */
  lemma StartedStays(link: Link, j: Joint, m: Move)
    requires Matched(link) && Total(link) == WIRE_NUMBERS && Possible(link, j, m)
    requires PrimedState(link, j) && j.r.lastInSequence >= 1
    ensures var k := Apply(link, j, m);
      PrimedState(link, k) && k.r.lastInSequence >= 1
  {
    PrimedIsFresh(link, j, m);
    ApplyKeepsInvariant(link, j, m);
    hide Classify, Invariant, SenderStep, ReceiverReads, DataEvent, AckEvent, Matched;
    match m
    case ToSender(_) => PrimedSenderMove(link, j, m);
    case DeliverAck(_, _) => PrimedSenderMove(link, j, m);
    case ToReceiver(e) => StartedReceives(link, j, e);
    case DeliverData(index, Some(bit)) => StartedReceives(link, j, DataEvent(link, index, Some(bit)));
    case DeliverData(index, None) => StartedReceives(link, j, DataEvent(link, index, None));
  }

  lemma StartedReceives(link: Link, j: Joint, e: Event)
    requires j.r.lastInSequence >= 1 && 0 !in j.ackLog
    ensures var k := ReceiverReads(link, j, e);
      0 !in k.ackLog && k.r.lastInSequence >= 1
  {
    hide Classify, ResolveData;
  }

  lemma PrimedStarts(link: Link, j: Joint)
    requires Matched(link) && Total(link) == WIRE_NUMBERS && PrimedState(link, j) && j.r.lastInSequence == 0
    requires Possible(link, j, DeliverData(1, None))
    ensures var k := Apply(link, j, DeliverData(1, None));
      PrimedState(link, k) && k.r.lastInSequence == 1
  {
    BlockDelivered(link, j, 1);
    hide Apply, Invariant, Matched, Possible;
  }

  lemma {:induction false} PrimedThroughout(link: Link, j: Joint, moves: seq<Move>)
    requires Matched(link) && Total(link) == WIRE_NUMBERS && PrimedState(link, j) && Admissible(link, j, moves)
    requires j.r.lastInSequence == 0 ==> Primed(moves)
    ensures Invariant(link, Exec(link, j, moves))
    decreases |moves|
  {
    hide Apply, Possible, Invariant, Matched;
    if moves != [] {
      var m := moves[0];
      if j.r.lastInSequence >= 1 {
        StartedStays(link, j, m);
      } else if m.DeliverData? {
        PrimedStarts(link, j);
      } else {
        MatchedIsSound(link);
        PrimedIsFresh(link, j, m);
        ApplyKeepsInvariant(link, j, m);
        InvariantOrders(link, j);
        PrimedSenderMove(link, j, m);
      }
      PrimedThroughout(link, Apply(link, j, m), moves[1..]);
    }
  }

  ghost predicate AlwaysSafePrimed(link: Link) {
    forall moves :: Admissible(link, Start(link), moves) && Primed(moves) ==> Safe(link, Exec(link, Start(link), moves))
  }

  /** The plain download: windows of one, no handshake ACK and a primed receiver. */
  lemma PrimedSafeIffNoReuse(link: Link)
    requires Matched(link) && !link.handshakeAck && link.sender.Window() == 1
    ensures AlwaysSafePrimed(link) <==> Total(link) <= WIRE_NUMBERS
  {
    hide Safe, Apply, Possible, Matched;
    if Total(link) < WIRE_NUMBERS {
      forall moves | Admissible(link, Start(link), moves)
        ensures Safe(link, Exec(link, Start(link), moves))
      {
        MatchedIsSound(link);
        JointSafety(link, moves);
      }
    } else if Total(link) == WIRE_NUMBERS {
      forall moves | Admissible(link, Start(link), moves) && Primed(moves)
        ensures Safe(link, Exec(link, Start(link), moves))
      {
        MatchedIsSound(link);
        StartInvariant(link);
        PrimedThroughout(link, Start(link), moves);
        InvariantIsSafe(link, Exec(link, Start(link), moves));
      }
    } else {
      var moves := UnsafePrimed(link);
    }
  }

  lemma MatchedIsSound(link: Link)
    requires Matched(link)
    ensures Sound(link)
  {
  }

  lemma UnsafePrimed(link: Link) returns (moves: seq<Move>)
    requires Matched(link) && link.sender.Window() == 1 && Total(link) > WIRE_NUMBERS
    ensures Admissible(link, Start(link), moves) && Primed(moves) && !Safe(link, Exec(link, Start(link), moves))
  {
    hide Step, InStep, Safe, Apply, Possible;
    var rest := UnsafeWithoutAckZero(link, 1);
    FirstStepIsBlockOne(link);
    moves := [DeliverData(1, None)] + rest;
    assert moves[1..] == rest;
  }

  lemma FirstStepIsBlockOne(link: Link)
    requires Matched(link)
    ensures Possible(link, Start(link), DeliverData(1, None))
    ensures Apply(link, Start(link), DeliverData(1, None)) == After(link, 1).j
  {
    hide ReceiverReads, DataEvent;
    assert Start(link).dataLog[0] == 1;
    FirstStep(link);
  }

  lemma SentWithinLog(link: Link, steps: nat)
    requires Matched(link)
    ensures |After(link, steps).j.dataLog| == After(link, steps).j.s.highestSent
  {
    StaysInStep(link, steps);
    hide After;
  }

  lemma {:induction false} AppendMove(link: Link, j: Joint, moves: seq<Move>, m: Move)
    requires Admissible(link, j, moves) && Possible(link, Exec(link, j, moves), m)
    ensures Admissible(link, j, moves + [m])
    ensures Exec(link, j, moves + [m]) == Apply(link, Exec(link, j, moves), m)
    decreases |moves|
  {
    hide Apply, Possible;
    if moves == [] {
      var k := Apply(link, j, m);
      assert Admissible(link, k, []) && Exec(link, k, []) == k;
      assert [] + [m] == [m] && [m][1..] == [];
    } else {
      AppendMove(link, Apply(link, j, moves[0]), moves[1..], m);
      assert (moves + [m])[0] == moves[0] && (moves + [m])[1..] == moves[1..] + [m];
    }
  }

  // ---------------------------------------------------- The block size terms

  /**
   A receiver that expects larger blocks, as when an upload's only OACK is lost
   and the client falls back to its default, takes the first block for the last.
   */
  lemma SmallBlocksTruncate(link: Link)
    requires link.sender.blockSize < link.receiver.blockSize && link.sender.blockSize < |link.payload|
    ensures var moves := [DeliverData(1, None)];
      && Admissible(link, Start(link), moves)
      && var j := Exec(link, Start(link), moves);
         ReceiverSucceeds(j.r) && j.r.sink == link.payload[..link.sender.blockSize] && !Safe(link, j)
  {
    var m := DeliverData(1, None);
    var start := Start(link);
    assert start.dataLog[0] == 1;
    AppendMove(link, start, [], m);
    assert [] + [m] == [m];
    var bs := link.sender.blockSize;
    var data := BlockPayload(link.payload, 1, bs);
    assert data == link.payload[..bs];
    assert [] + data == data;
    ReceiverReadsBlock(link, start, 1);
    ResolveDataIsNextIffWireIsNext(WireBlockNumber(1), 0, link.receiver.Window());
    hide Classify, DataEvent, BlockPayload, ResolveData, ReceiverReads, Admissible, Exec;
  }

  /** Every run is safe exactly when the receiver takes no full block for the last one. */
  lemma SafeIffBlockSizesFit(link: Link)
    requires Total(link) < WIRE_NUMBERS && !link.receiver.config.quirks.acceptOutOfSequenceData
    ensures AlwaysSafe(link) <==>
            link.receiver.blockSize <= link.sender.blockSize || |link.payload| <= link.sender.blockSize
  {
    if Sound(link) {
      forall moves | Admissible(link, Start(link), moves)
        ensures Safe(link, Exec(link, Start(link), moves))
      {
        JointSafety(link, moves);
      }
    } else {
      SmallBlocksTruncate(link);
    }
  }

  // ------------------------------------------- The out-of-sequence defect

  /** Room for a gap: two blocks in flight and a receiver that looks past the next one. */
  predicate CanSkip(link: Link) {
    && link.sender.blockSize == link.receiver.blockSize
    && Total(link) >= 2 && link.sender.windowSize >= 2 && link.receiver.windowSize >= 2
  }

  /** Lose block 1 and deliver block 2: the defect writes it first. */
  lemma SkippedBlockCorrupts(link: Link)
    requires CanSkip(link) && link.receiver.config.quirks.acceptOutOfSequenceData
    ensures var moves := [DeliverData(2, None)];
      && Admissible(link, Start(link), moves)
      && var j := Exec(link, Start(link), moves);
         && !Safe(link, j)
         && (FinalBlock(link) == 2 ==> ReceiverSucceeds(j.r) && j.r.sink != link.payload)
  {
    var m := DeliverData(2, None);
    var start := Start(link);
    assert start.dataLog[1] == 2;
    AppendMove(link, start, [], m);
    assert [] + [m] == [m];
    IntactEvents(link, 2);
    var bs := link.sender.blockSize;
    var data := BlockPayload(link.payload, 2, bs);
    var wire := WireBlockNumber(2);
    assert SearchForward(wire, 0, 2, link.receiver.Window()) == Some(2);
    assert ResolveData(wire, 0, link.receiver.Window()) == 2;
    SecondBlockIsNotTheStart(link.payload, bs);
    BlockExtendsPrefix(link.payload, 2, bs);
    TotalWithinFinal(link);
    hide Classify, DataEvent, BlockPayload, ResolveData, WireBlockNumber;
    assert Exec(link, start, [m]).r == HandleData(link.receiver, start.r, wire, data).0;
  }

  lemma SecondBlockIsNotTheStart(payload: Bytes, blockSize: Positive)
    requires TotalBlockCount(|payload|, blockSize) >= 2
    ensures |BlockPayload(payload, 2, blockSize)| < |payload[..Min(2 * blockSize, |payload|)]|
  {
    assert |payload| >= blockSize;
  }

  // A sender of one block at a time leaves no gap, but its old blocks may come back
  // under numbers that a large receive window takes for blocks ahead.

  /** Everything up to block i has been sent, received and acknowledged, and the next block sent. */
  ghost predicate Chained(link: Link, j: Joint, i: nat) {
    && j.s.lastAcked == i && j.s.highestSent == Min(i + 1, Total(link)) && j.s.ending.None?
    && j.r.lastInSequence == i && j.r.phase.Receiving?
    && (forall b :: 1 <= b <= j.s.highestSent ==> b in j.dataLog)
  }

  predicate OneAtATime(link: Link) {
    link.sender.blockSize == link.receiver.blockSize && link.sender.windowSize <= 1 && Total(link) < WIRE_NUMBERS
  }

  lemma NextBlockTaken(link: Link, j: Joint, index: nat)
    requires OneAtATime(link) && j.r.phase.Receiving?
    requires index == j.r.lastInSequence + 1 < FinalBlock(link) && index in j.dataLog
    ensures Possible(link, j, DeliverData(index, None))
    ensures var k := Apply(link, j, DeliverData(index, None));
      k.s == j.s && k.dataLog == j.dataLog && k.r.lastInSequence == index && k.r.phase.Receiving?
  {
    ReceiverReadsBlock(link, j, index);
    BlockExtendsPrefix(link.payload, index, link.sender.blockSize);
    ResolveDataIsNextIffWireIsNext(WireBlockNumber(index), j.r.lastInSequence, link.receiver.Window());
    hide ReceiverReads, DataEvent, BlockPayload, ResolveData, WireBlockNumber, Prefix;
  }

  lemma LastIsFoundBehind(last: nat, window: Positive)
    requires window < WIRE_NUMBERS
    ensures ResolveData(WireBlockNumber(last), last, window) == last
  {
    var wire := WireBlockNumber(last);
    ForwardSearchResult(wire, last, 1, window);
    var found := SearchForward(wire, last, 1, window);
    if found.Some? {
      SameWireNumber(found.value, last);
    }
    assert SearchBackward(wire, last, 0, Min(last, window)) == Some(last);
  }

  lemma RepeatAcknowledged(link: Link, j: Joint, index: nat)
    requires OneAtATime(link) && j.r.phase.Receiving? && index == j.r.lastInSequence >= 1 && index in j.dataLog
    ensures Possible(link, j, DeliverData(index, None))
    ensures var k := Apply(link, j, DeliverData(index, None));
      && k.s == j.s && k.dataLog == j.dataLog && k.r.lastInSequence == index && k.r.phase.Receiving?
      && index in k.ackLog
  {
    ReceiverReadsBlock(link, j, index);
    LastIsFoundBehind(index, link.receiver.Window());
    var k := Apply(link, j, DeliverData(index, None));
    hide ReceiverReads, DataEvent, BlockPayload, ResolveData, WireBlockNumber;
    assert k.ackLog == j.ackLog + [index];
  }

  lemma AckTaken(link: Link, j: Joint, index: nat)
    requires OneAtATime(link) && j.s.ending.None? && index in j.ackLog
    requires j.s.lastAcked + 1 == index == j.s.highestSent < Total(link)
    requires forall b :: 1 <= b <= j.s.highestSent ==> b in j.dataLog
    requires j.r.lastInSequence == index && j.r.phase.Receiving?
    ensures Possible(link, j, DeliverAck(index, None))
    ensures Chained(link, Apply(link, j, DeliverAck(index, None)), index)
  {
    IntactEvents(link, index);
    AckResolvesExactly(index, j.s.lastAcked, j.s.highestSent);
    SpanHolds(index, index + 1);
    hide Classify, AckEvent, ResolveAck, Total;
  }

  lemma ChainGrows(link: Link, j: Joint, i: nat) returns (moves: seq<Move>, k: Joint)
    requires OneAtATime(link) && Chained(link, j, i) && i + 1 < Total(link)
    ensures Admissible(link, j, moves) && Exec(link, j, moves) == k && Chained(link, k, i + 1)
  {
    hide Apply, Possible, Total, FinalBlock;
    TotalWithinFinal(link);
    var data, ack := DeliverData(i + 1, None), DeliverAck(i + 1, None);
    NextBlockTaken(link, j, i + 1);
    var once := Apply(link, j, data);
    RepeatAcknowledged(link, once, i + 1);
    var twice := Apply(link, once, data);
    AckTaken(link, twice, i + 1);
    k := Apply(link, twice, ack);
    hide Chained;
    moves := ThreeMoves(link, j, data, once, data, twice, ack);
  }

  lemma ThreeMoves(link: Link, j: Joint, a: Move, k: Joint, b: Move, l: Joint, c: Move) returns (moves: seq<Move>)
    requires Possible(link, j, a) && Apply(link, j, a) == k && Possible(link, k, b) && Apply(link, k, b) == l
    requires Possible(link, l, c)
    ensures Admissible(link, j, moves) && Exec(link, j, moves) == Apply(link, l, c)
  {
    hide Apply, Possible;
    AppendMove(link, j, [], a);
    assert [] + [a] == [a];
    AppendMove(link, j, [a], b);
    AppendMove(link, j, [a] + [b], c);
    moves := [a] + [b] + [c];
  }

  lemma {:induction false} ChainReaches(link: Link, i: nat) returns (moves: seq<Move>, k: Joint)
    requires OneAtATime(link) && i < Total(link)
    ensures Admissible(link, Start(link), moves) && Exec(link, Start(link), moves) == k && Chained(link, k, i)
  {
    if i == 0 {
      moves, k := [], Start(link);
      SpanHolds(0, 1);
    } else {
      hide Apply, Possible, Chained;
      var before, j := ChainReaches(link, i - 1);
      var more;
      more, k := ChainGrows(link, j, i - 1);
      moves := before + more;
      RunsAppend(link, Start(link), before, more);
    }
  }

  lemma {:induction false} RunsAppend(link: Link, j: Joint, a: seq<Move>, b: seq<Move>)
    requires Admissible(link, j, a) && Admissible(link, Exec(link, j, a), b)
    ensures Admissible(link, j, a + b) && Exec(link, j, a + b) == Exec(link, Exec(link, j, a), b)
    decreases |a|
  {
    hide Apply, Possible;
    if a == [] {
      assert a + b == b;
    } else {
      RunsAppend(link, Apply(link, j, a[0]), a[1..], b);
      assert (a + b)[0] == a[0] && (a + b)[1..] == a[1..] + b;
    }
  }

  lemma {:induction false} ForwardFinds(wire: U16, last: nat, offset: nat, span: nat, hit: nat)
    requires 1 <= offset <= hit <= span && WireBlockNumber(last + hit) == wire
    ensures SearchForward(wire, last, offset, span).Some?
    decreases span - offset
  {
    if WireBlockNumber(last + offset) != wire {
      ForwardFinds(wire, last, offset + 1, span, hit);
    }
  }

  /** Block 1 come back is placed a whole cycle further on, when that lies in the window. */
  lemma FirstBlockResolvesAhead(last: nat, window: Positive)
    requires 1 <= last < WIRE_NUMBERS <= last + window - 1 && window < WIRE_NUMBERS
    ensures ResolveData(WireBlockNumber(1), last, window) == WIRE_NUMBERS + 1
  {
    var wire := WireBlockNumber(1);
    assert WireBlockNumber(WIRE_NUMBERS + 1) == wire;
    ForwardFinds(wire, last, 1, window, WIRE_NUMBERS + 1 - last);
    ForwardSearchResult(wire, last, 1, window);
    SameWireNumber(SearchForward(wire, last, 1, window).value, WIRE_NUMBERS + 1);
  }

  lemma OldBlockCorrupts(link: Link) returns (moves: seq<Move>)
    requires OneAtATime(link) && link.receiver.config.quirks.acceptOutOfSequenceData
    requires link.receiver.windowSize >= 2 && LastWhileReceiving(link) + link.receiver.windowSize > WIRE_NUMBERS
    ensures Admissible(link, Start(link), moves) && !Safe(link, Exec(link, Start(link), moves))
  {
    hide Safe, Apply, Possible;
    TotalWithinFinal(link);
    LastWithinTotal(link);
    var last := LastWhileReceiving(link);
    var chain, j := ChainReaches(link, last - 1);
    assert last in j.dataLog;
    NextBlockTaken(link, j, last);
    var m, stale := DeliverData(last, None), DeliverData(1, None);
    AppendMove(link, Start(link), chain, m);
    OldBlockAccepted(link, Apply(link, j, m), last);
    AppendMove(link, Start(link), chain + [m], stale);
    moves := chain + [m] + [stale];
  }

  lemma LastWithinTotal(link: Link)
    requires link.sender.blockSize == link.receiver.blockSize
    ensures LastWhileReceiving(link) <= Total(link) && LastWhileReceiving(link) < FinalBlock(link)
  {
  }

  lemma OldBlockAccepted(link: Link, j: Joint, last: nat)
    requires OneAtATime(link) && link.receiver.config.quirks.acceptOutOfSequenceData
    requires 1 <= last < WIRE_NUMBERS < last + link.receiver.windowSize && link.receiver.windowSize >= 2
    requires j.r.lastInSequence == last && j.r.phase.Receiving? && 1 in j.dataLog && j.s.highestSent < WIRE_NUMBERS
    ensures Possible(link, j, DeliverData(1, None)) && !Safe(link, Apply(link, j, DeliverData(1, None)))
  {
    ReceiverReadsBlock(link, j, 1);
    FirstBlockResolvesAhead(last, link.receiver.Window());
    hide ReceiverReads, DataEvent, BlockPayload, ResolveData, WireBlockNumber;
  }

  /**
   Accepting out of sequence breaks safety exactly when there is something to
   accept: the receiver looks beyond the next block, and the sender is two blocks
   ahead or reuses a number inside that window.
   */
  lemma SafeIffInSequence(link: Link)
    requires link.sender.blockSize == link.receiver.blockSize && Total(link) < WIRE_NUMBERS
    ensures AlwaysSafe(link) <==>
            !link.receiver.config.quirks.acceptOutOfSequenceData || link.receiver.windowSize <= 1 || NothingToSkip(link)
  {
    if Sound(link) {
      forall moves | Admissible(link, Start(link), moves)
        ensures Safe(link, Exec(link, Start(link), moves))
      {
        JointSafety(link, moves);
      }
    } else if CanSkip(link) {
      SkippedBlockCorrupts(link);
    } else {
      LastWithinTotal(link);
      var moves := OldBlockCorrupts(link);
    }
  }
}
