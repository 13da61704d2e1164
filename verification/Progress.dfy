/**
 Liveness of the joined data plane: one timeout and a lossless exchange always
 advance the transfer, so from every reachable state some finite continuation
 completes it.
 */
module Progress {
  import opened Basics
  import opened DataPlane
  import opened LockedPeer
  import opened Network

  /** `moves` are admissible and fresh from `j`, and lead to `k`. */
  ghost predicate Leads(link: Link, j: Joint, moves: seq<Move>, k: Joint) {
    Admissible(link, j, moves) && AllFresh(link, j, moves) && Exec(link, j, moves) == k
  }

  lemma OneMove(link: Link, j: Joint, m: Move)
    requires Possible(link, j, m) && Fresh(j, m)
    ensures Leads(link, j, [m], Apply(link, j, m))
  {
    hide Apply, Possible, Fresh;
    var k := Apply(link, j, m);
    assert Leads(link, k, [], k);
    assert [m][1..] == [];
    assert Leads(link, j, [m], k);
  }

  lemma NoMoves(link: Link, j: Joint)
    ensures Leads(link, j, [], j)
  {
  }

  lemma {:induction false} LeadsAppend(
    link: Link, j: Joint, a: seq<Move>, k: Joint, b: seq<Move>, l: Joint)
    requires Leads(link, j, a, k) && Leads(link, k, b, l)
    ensures Leads(link, j, a + b, l)
    decreases |a|
  {
    hide Apply, Possible, Fresh;
    if a == [] {
      assert a + b == b;
    } else {
      var next := Apply(link, j, a[0]);
      LeadsAppend(link, next, a[1..], k, b, l);
      assert (a + b)[0] == a[0] && (a + b)[1..] == a[1..] + b;
    }
  }

  function DataDeliveries(low: nat, high: nat): seq<Move> {
    var blocks := Span(low, high);
    seq(|blocks|, k requires 0 <= k < |blocks| => DeliverData(blocks[k], None))
  }

  function AckDeliveries(acks: seq<nat>): seq<Move> {
    seq(|acks|, k requires 0 <= k < |acks| => DeliverAck(acks[k], None))
  }

  /** Acknowledgements emitted since the log had length `mark`. */
  function NewAcks(j: Joint, mark: nat): seq<nat>
    requires mark <= |j.ackLog|
  {
    j.ackLog[mark..]
  }

  /** New acknowledgements come in order, between what is acknowledged and what is received. */
  ghost predicate Orderly(j: Joint, mark: nat) {
    mark <= |j.ackLog|
    && (forall k :: mark <= k < |j.ackLog| ==> j.s.lastAcked <= j.ackLog[k] <= j.r.lastInSequence)
    && (forall k, l :: mark <= k < l < |j.ackLog| ==> j.ackLog[k] <= j.ackLog[l])
  }

  ghost predicate Advancing(j: Joint, mark: nat) {
    mark < |j.ackLog| && j.ackLog[|j.ackLog| - 1] > j.s.lastAcked
  }

  /** Before everything is delivered, an advancing ACK has been emitted or is bound to be. */
  ghost predicate Promising(j: Joint, mark: nat, low: nat) {
    Advancing(j, mark) ||
    (j.r.phase.Receiving? &&
     (j.r.blocksSinceAck >= j.r.lastInSequence - j.s.lastAcked || low < j.r.lastInSequence))
  }

  ghost predicate Willing(link: Link) {
    && Sound(link) && link.sender.blockSize == link.receiver.blockSize
    && !link.sender.config.quirks.omitTerminatingEmptyBlock
  }

  /** Timeouts it may take to get an acknowledgement out of the receiver. */
  function Needed(link: Link): nat {
    if link.receiver.Window() <= link.sender.Window() then 1 else 2
  }

  /** What holds while the window (lastAcked, highestSent] is being delivered in order. */
  ghost predicate Delivering(link: Link, j: Joint, mark: nat, low: nat) {
    && Invariant(link, j) && j.s.ending.None?
    && j.s.lastAcked <= low <= j.s.highestSent && low <= j.r.lastInSequence
    && (forall i :: j.s.lastAcked < i <= j.s.highestSent ==> i in j.dataLog)
    && Orderly(j, mark) && Promising(j, mark, low)
    && (j.r.phase.Receiving? || (ReceiverSucceeds(j.r) && low == j.s.highestSent
                                 && Advancing(j, mark) && j.ackLog[|j.ackLog| - 1] == j.r.lastInSequence))
  }

  /** What an intact block does to a receiver still in its loop. */
  lemma BlockDelivered(link: Link, j: Joint, index: nat)
    requires Sound(link) && Invariant(link, j) && j.r.phase.Receiving?
    requires index in j.dataLog && index + WIRE_NUMBERS > j.r.lastInSequence + 1
    ensures var m := DeliverData(index, None);
      && Possible(link, j, m) && Fresh(j, m)
      && var k := Apply(link, j, m);
         && Invariant(link, k) && k.s == j.s && k.dataLog == j.dataLog
         && if index != j.r.lastInSequence + 1 then
              k.r == j.r.(timeouts := 0, blocksSinceAck := 0) && k.ackLog == j.ackLog + [j.r.lastInSequence]
            else
              && k.r.lastInSequence == index
              && k.r.phase == (if |BlockPayload(link.payload, index, link.sender.blockSize)| < link.receiver.blockSize
                               then Dallying else Receiving)
              && (k.r.phase == Dallying || k.r.blocksSinceAck == 0 || k.r.blocksSinceAck == j.r.blocksSinceAck + 1)
              && k.ackLog == if k.r.phase.Receiving? && k.r.blocksSinceAck > 0 then j.ackLog else j.ackLog + [index]
  {
    ApplyKeepsInvariant(link, j, DeliverData(index, None));
    var data := BlockPayload(link.payload, index, link.sender.blockSize);
    ReceiverReadsBlock(link, j, index);
    DataAcceptedIffNext(link, j, index, data);
    hide HandleData, BlockPayload, DataEvent, ReceiverReads, Invariant, WireBlockNumber, Total;
  }

  lemma InvariantOrders(link: Link, j: Joint)
    requires Invariant(link, j)
    ensures j.s.lastAcked <= j.r.lastInSequence <= j.s.highestSent <= FinalBlock(link)
    ensures j.s.ending.None? ==> j.s.highestSent <= j.s.lastAcked + link.sender.Window()
    ensures link.sender.blockSize == link.receiver.blockSize && ReceiverSucceeds(j.r) ==>
              j.r.lastInSequence == FinalBlock(link)
  {
    TotalWithinFinal(link);
  }

  lemma OrderlyAppend(j: Joint, mark: nat, k: Joint)
    requires Orderly(j, mark) && k.s == j.s && j.s.lastAcked <= j.r.lastInSequence <= k.r.lastInSequence
    requires k.ackLog == j.ackLog || k.ackLog == j.ackLog + [k.r.lastInSequence]
    ensures Orderly(k, mark) && j.ackLog <= k.ackLog
    ensures Advancing(j, mark) || (k.ackLog != j.ackLog && k.r.lastInSequence > k.s.lastAcked) ==> Advancing(k, mark)
  {
    var n := |j.ackLog|;
    assert Advancing(j, mark) ==> j.ackLog[n - 1] <= j.r.lastInSequence;
  }

  lemma DeliverOne(link: Link, j: Joint, mark: nat, low: nat)
    requires Willing(link) && Delivering(link, j, mark, low) && low < j.s.highestSent
    ensures var m := DeliverData(low + 1, None);
      && Possible(link, j, m) && Fresh(j, m)
      && var k := Apply(link, j, m);
         k.s == j.s && k.dataLog == j.dataLog && j.ackLog <= k.ackLog && Delivering(link, k, mark, low + 1)
  {
    hide Apply, Possible, Fresh, Invariant, FinalBlock, Orderly, Advancing;
    InvariantOrders(link, j);
    BlockDelivered(link, j, low + 1);
    var k := Apply(link, j, DeliverData(low + 1, None));
    InvariantOrders(link, k);
    OrderlyAppend(j, mark, k);
  }

  lemma {:induction false} DeliverWindow(link: Link, j: Joint, mark: nat, low: nat) returns (k: Joint)
    requires Willing(link) && Delivering(link, j, mark, low)
    ensures Leads(link, j, DataDeliveries(low, j.s.highestSent), k)
    ensures k.s == j.s && k.dataLog == j.dataLog && j.ackLog <= k.ackLog
    ensures Delivering(link, k, mark, k.s.highestSent)
    decreases j.s.highestSent - low
  {
    hide Apply, Possible, Fresh, Delivering;
    var high := j.s.highestSent;
    if low >= high {
      assert low == high by { LowWithinHigh(link, j, mark, low); }
      assert DataDeliveries(low, high) == [];
      k := j;
    } else {
      var m := DeliverData(low + 1, None);
      DeliverOne(link, j, mark, low);
      var next := Apply(link, j, m);
      OneMove(link, j, m);
      k := DeliverWindow(link, next, mark, low + 1);
      LeadsAppend(link, j, [m], next, DataDeliveries(low + 1, high), k);
      assert DataDeliveries(low, high) == [m] + DataDeliveries(low + 1, high);
    }
  }

  lemma LowWithinHigh(link: Link, j: Joint, mark: nat, low: nat)
    requires Delivering(link, j, mark, low)
    ensures low <= j.s.highestSent
  {
  }

  /** A fully delivered window has produced an advancing acknowledgement, if the receiver's is no larger. */
  lemma WindowAdvances(link: Link, j: Joint, mark: nat)
    requires Willing(link) && Delivering(link, j, mark, j.s.highestSent)
    ensures link.receiver.Window() <= link.sender.Window() ==> Advancing(j, mark)
    ensures !Advancing(j, mark) ==> j.r.phase.Receiving? && j.s.lastAcked < j.r.lastInSequence == j.s.highestSent
  {
  }

  /** While new acknowledgements reach the sender in order. */
  ghost predicate Acknowledging(link: Link, j: Joint, from: nat) {
    && Invariant(link, j)
    && from <= |j.ackLog|
    && (forall k, l :: from <= k < l < |j.ackLog| ==> j.ackLog[k] <= j.ackLog[l])
    && (j.s.ending.None? || j.s.ending == Some(Completed))
    && (from < |j.ackLog| ==> j.s.lastAcked <= j.ackLog[from])
  }

  lemma AcknowledgeOne(link: Link, j: Joint, from: nat)
    requires Sound(link) && Acknowledging(link, j, from) && from < |j.ackLog|
    ensures var m := DeliverAck(j.ackLog[from], None);
      && Possible(link, j, m) && Fresh(j, m)
      && var k := Apply(link, j, m);
         && k.r == j.r && k.ackLog == j.ackLog && Acknowledging(link, k, from + 1)
         && k.s.lastAcked == j.ackLog[from]
         && (k.s.lastAcked > j.s.lastAcked && k.s.ending.None? ==> k.s.timeouts == 0)
         && (k.s.lastAcked == j.s.lastAcked ==> k.s.timeouts == j.s.timeouts && k.s.ending == j.s.ending)
  {
    var index := j.ackLog[from];
    assert index in j.ackLog;
    ApplyKeepsInvariant(link, j, DeliverAck(index, None));
    IntactEvents(link, index);
    AckResolvesExactly(index, j.s.lastAcked, j.s.highestSent);
    hide Classify, AckEvent, ResolveAck, ReceiverInvariant;
  }

  lemma {:induction false} AcknowledgeAll(link: Link, j: Joint, from: nat) returns (k: Joint)
    requires Sound(link) && Acknowledging(link, j, from)
    ensures Leads(link, j, AckDeliveries(NewAcks(j, from)), k)
    ensures k.r == j.r && k.ackLog == j.ackLog && Acknowledging(link, k, |k.ackLog|)
    ensures k.s.lastAcked == if from < |j.ackLog| then j.ackLog[|j.ackLog| - 1] else j.s.lastAcked
    ensures k.s.lastAcked > j.s.lastAcked && k.s.ending.None? ==> k.s.timeouts == 0
    ensures k.s.lastAcked == j.s.lastAcked ==> k.s.timeouts == j.s.timeouts && k.s.ending == j.s.ending
    decreases |j.ackLog| - from
  {
    hide Apply, Possible, Fresh, Invariant;
    if from == |j.ackLog| {
      assert NewAcks(j, from) == [];
      assert AckDeliveries([]) == [];
      k := j;
    } else {
      var m := DeliverAck(j.ackLog[from], None);
      AcknowledgeOne(link, j, from);
      var next := Apply(link, j, m);
      OneMove(link, j, m);
      k := AcknowledgeAll(link, next, from + 1);
      LeadsAppend(link, j, [m], next, AckDeliveries(NewAcks(next, from + 1)), k);
      assert NewAcks(j, from) == [j.ackLog[from]] + NewAcks(next, from + 1);
      assert AckDeliveries(NewAcks(j, from)) == [m] + AckDeliveries(NewAcks(next, from + 1));
    }
  }

  /** One sender timeout, then lossless in-order delivery of the window and of `acks`. */
  function RecoveryRound(j: Joint, acks: seq<nat>): seq<Move> {
    [ToSender(Silence)] + DataDeliveries(j.s.lastAcked, j.s.highestSent) + AckDeliveries(acks)
  }

  /** Both ends still in their loops and the sender able to wait out the timeouts it may take. */
  ghost predicate Underway(link: Link, j: Joint) {
    && Invariant(link, j) && j.r.phase.Receiving? && j.s.ending.None?
    && j.s.timeouts + Needed(link) <= link.sender.config.maximumRetransmissions
  }

  ghost predicate Finished(link: Link, j: Joint) {
    j.s.ending == Some(Completed) && j.r.phase == Ended(Completed) && j.r.sink == link.payload
  }

  lemma TimeoutStartsRecovery(link: Link, j: Joint)
    requires Willing(link) && Invariant(link, j) && j.r.phase.Receiving? && j.s.ending.None?
    requires j.s.timeouts < link.sender.config.maximumRetransmissions
    ensures var m := ToSender(Silence);
      && Possible(link, j, m) && Fresh(j, m)
      && var k := Apply(link, j, m);
         && k.s.lastAcked == j.s.lastAcked && k.s.highestSent == j.s.highestSent
         && k.r == j.r && k.ackLog == j.ackLog && Delivering(link, k, |j.ackLog|, j.s.lastAcked)
  {
    var m := ToSender(Silence);
    ApplyKeepsInvariant(link, j, m);
    var resent := Span(j.s.lastAcked, j.s.highestSent);
    var s' := j.s.(timeouts := j.s.timeouts + 1, retransmissions := j.s.retransmissions + |resent|);
    assert SenderStep(link.payload, link.sender, j.s, TimedOut) == (s', resent);
    assert Apply(link, j, m) == j.(s := s', dataLog := j.dataLog + resent);
    hide SenderStep, Apply, Invariant, SenderInvariant;
    forall i | j.s.lastAcked < i <= j.s.highestSent
      ensures i in j.dataLog + resent
    {
      assert resent[i - j.s.lastAcked - 1] == i;
    }
    InvariantOrders(link, j);
  }

  /** `moves` hold so many sender timeouts. */
  function Timeouts(moves: seq<Move>): nat {
    if moves == [] then 0
    else (if moves[0] == ToSender(Silence) then 1 else 0) + Timeouts(moves[1..])
  }

  lemma {:induction false} TimeoutsAdd(a: seq<Move>, b: seq<Move>)
    ensures Timeouts(a + b) == Timeouts(a) + Timeouts(b)
  {
    if a == [] {
      assert a + b == b;
    } else {
      assert (a + b)[1..] == a[1..] + b;
      TimeoutsAdd(a[1..], b);
    }
  }

  lemma {:induction false} DeliveriesAreNoTimeouts(moves: seq<Move>)
    requires forall k :: 0 <= k < |moves| ==> moves[k].DeliverData? || moves[k].DeliverAck?
    ensures Timeouts(moves) == 0
  {
    if moves != [] {
      DeliveriesAreNoTimeouts(moves[1..]);
    }
  }

  lemma RoundHasOneTimeout(j: Joint, acks: seq<nat>)
    ensures Timeouts(RecoveryRound(j, acks)) == 1
    ensures Timeouts([ToSender(Silence)] + DataDeliveries(j.s.lastAcked, j.s.highestSent)) == 1
  {
    var timeout, data := [ToSender(Silence)], DataDeliveries(j.s.lastAcked, j.s.highestSent);
    TimeoutsAdd(timeout, data);
    TimeoutsAdd(timeout + data, AckDeliveries(acks));
    DeliveriesAreNoTimeouts(data);
    DeliveriesAreNoTimeouts(AckDeliveries(acks));
    assert timeout[1..] == [];
  }

  /** What a recovery reaches: further on, and the sender patient again or done. */
  ghost predicate Recovered(link: Link, j: Joint, k: Joint) {
    && Invariant(link, k) && k.s.lastAcked > j.s.lastAcked
    && (k.s.ending == Some(Completed) || (k.s.ending.None? && k.s.timeouts == 0 && k.r.phase.Receiving?))
  }

  /** One timeout and the lossless delivery of the window: an acknowledgement is out, or all of it is in. */
  lemma WindowDelivered(link: Link, j: Joint) returns (k: Joint)
    requires Willing(link) && Underway(link, j)
    ensures Leads(link, j, [ToSender(Silence)] + DataDeliveries(j.s.lastAcked, j.s.highestSent), k)
    ensures Delivering(link, k, |j.ackLog|, k.s.highestSent)
    ensures k.s.lastAcked == j.s.lastAcked && k.s.timeouts == j.s.timeouts + 1 && j.ackLog <= k.ackLog
  {
    var timeout := Apply(link, j, ToSender(Silence));
    TimeoutStartsRecovery(link, j);
    OneMove(link, j, ToSender(Silence));
    k := DeliverWindow(link, timeout, |j.ackLog|, j.s.lastAcked);
    LeadsAppend(link, j, [ToSender(Silence)], timeout, DataDeliveries(j.s.lastAcked, j.s.highestSent), k);
  }

  /** Then its acknowledgements are delivered. */
  lemma WindowAcknowledged(link: Link, j: Joint, delivered: Joint) returns (acks: seq<nat>, k: Joint)
    requires Willing(link) && Delivering(link, delivered, |j.ackLog|, delivered.s.highestSent)
    requires j.ackLog <= delivered.ackLog && delivered.s.lastAcked == j.s.lastAcked
    requires Advancing(delivered, |j.ackLog|)
    requires Leads(link, j, [ToSender(Silence)] + DataDeliveries(j.s.lastAcked, j.s.highestSent), delivered)
    ensures Leads(link, j, RecoveryRound(j, acks), k) && k.ackLog == j.ackLog + acks && Recovered(link, j, k)
  {
    var mark := |j.ackLog|;
    k := AcknowledgeAll(link, delivered, mark);
    acks := NewAcks(delivered, mark);
    LeadsAppend(link, j, [ToSender(Silence)] + DataDeliveries(j.s.lastAcked, j.s.highestSent), delivered,
                AckDeliveries(acks), k);
  }

  /** When all of the window is in and unacknowledged, any block of it sent again draws the ACK. */
  lemma RepeatDrawsTheAck(link: Link, j: Joint) returns (moves: seq<Move>, k: Joint)
    requires Willing(link) && Invariant(link, j) && j.r.phase.Receiving? && j.s.ending.None?
    requires j.s.timeouts < link.sender.config.maximumRetransmissions
    requires j.s.lastAcked < j.r.lastInSequence == j.s.highestSent
    ensures Leads(link, j, moves, k) && Recovered(link, j, k) && Timeouts(moves) == 1
  {
    hide Apply, Possible, Fresh, Invariant;
    var timeout, first := ToSender(Silence), DeliverData(j.s.lastAcked + 1, None);
    InvariantOrders(link, j);
    TimeoutStartsRecovery(link, j);
    OneMove(link, j, timeout);
    var resent := Apply(link, j, timeout);
    BlockDelivered(link, resent, j.s.lastAcked + 1);
    OneMove(link, resent, first);
    var answered := Apply(link, resent, first);
    var acks := NewAcks(answered, |j.ackLog|);
    InvariantOrders(link, answered);
    k := AcknowledgeAll(link, answered, |j.ackLog|);
    LeadsAppend(link, j, [timeout], resent, [first], answered);
    LeadsAppend(link, j, [timeout] + [first], answered, AckDeliveries(acks), k);
    moves := [timeout] + [first] + AckDeliveries(acks);
    DeliveriesAreNoTimeouts(AckDeliveries(acks));
    TimeoutsAdd([timeout] + [first], AckDeliveries(acks));
    TimeoutsAdd([timeout], [first]);
    assert [timeout][1..] == [] && [first][1..] == [];
  }

  /**
   Progress: from every state still underway, timeouts and in-order lossless
   delivery strictly advance the sender.  One timeout does it when the
   receiver's window is no larger than the sender's, and two otherwise.
   */
  lemma RecoveryAdvances(link: Link, j: Joint) returns (moves: seq<Move>, k: Joint)
    requires Willing(link) && Underway(link, j)
    ensures Leads(link, j, moves, k) && Recovered(link, j, k) && Timeouts(moves) <= Needed(link)
    ensures link.receiver.Window() <= link.sender.Window() ==>
              exists acks :: moves == RecoveryRound(j, acks) && k.ackLog == j.ackLog + acks
  {
    hide Recovered, RecoveryRound, Invariant, Apply;
    var delivered := WindowDelivered(link, j);
    WindowAdvances(link, delivered, |j.ackLog|);
    if Advancing(delivered, |j.ackLog|) {
      var acks;
      acks, k := WindowAcknowledged(link, j, delivered);
      moves := RecoveryRound(j, acks);
      RoundHasOneTimeout(j, acks);
    } else {
      var first := [ToSender(Silence)] + DataDeliveries(j.s.lastAcked, j.s.highestSent);
      var more;
      more, k := RepeatDrawsTheAck(link, delivered);
      moves := first + more;
      RoundHasOneTimeout(j, []);
      TimeoutsAdd(first, more);
      LeadsAppend(link, j, first, delivered, more, k);
      RecoveredFrom(link, j, delivered, k);
    }
  }

  lemma RecoveredFrom(link: Link, j: Joint, between: Joint, k: Joint)
    requires Recovered(link, between, k) && between.s.lastAcked == j.s.lastAcked
    ensures Recovered(link, j, k)
  {
    hide Invariant;
  }

  lemma {:induction false} CompletesFrom(link: Link, j: Joint) returns (moves: seq<Move>, k: Joint)
    requires Willing(link) && Underway(link, j)
    ensures Leads(link, j, moves, k) && Finished(link, k)
    decreases Total(link) - j.s.lastAcked
  {
    hide Leads, Invariant, Finished, RecoveryRound;
    var round, next := RecoveryAdvances(link, j);
    LastAckedWithinTotal(link, next);
    var more;
    if next.s.ending.None? {
      more, k := CompletesFrom(link, next);
    } else {
      more, k := ReceiverFinishes(link, next);
    }
    moves := round + more;
    LeadsAppend(link, j, round, next, more, k);
  }

  lemma LastAckedWithinTotal(link: Link, j: Joint)
    requires Invariant(link, j)
    ensures j.s.lastAcked <= Total(link)
  {
  }

  /** Once the sender has succeeded, silence ends the receiver's dally. */
  lemma ReceiverFinishes(link: Link, j: Joint) returns (moves: seq<Move>, k: Joint)
    requires Willing(link) && Invariant(link, j) && j.s.ending == Some(Completed)
    ensures Leads(link, j, moves, k) && Finished(link, k)
  {
    InvariantIsSafe(link, j);
    if j.r.phase.Dallying? {
      moves := [ToReceiver(Silence)];
      k := Apply(link, j, moves[0]);
      OneMove(link, j, moves[0]);
    } else {
      moves, k := [], j;
    }
  }

  /**
   From every reachable state that is still underway some finite continuation
   completes the transfer, with the payload delivered.
   */
  lemma EveryRunCanComplete(link: Link, moves: seq<Move>)
    requires Willing(link) && Admissible(link, Start(link), moves)
    requires AllFresh(link, Start(link), moves) || Total(link) < WIRE_NUMBERS
    requires Underway(link, Exec(link, Start(link), moves))
    ensures exists more :: Admissible(link, Exec(link, Start(link), moves), more)
                        && Finished(link, Exec(link, Exec(link, Start(link), moves), more))
  {
    var more, k := CompletesFrom(link, Exec(link, Start(link), moves));
  }

  /** In particular every transfer with that much patience can be completed. */
  lemma EveryTransferCanComplete(link: Link) returns (moves: seq<Move>)
    requires Willing(link) && link.sender.config.maximumRetransmissions >= Needed(link)
    ensures Admissible(link, Start(link), moves) && Finished(link, Exec(link, Start(link), moves))
  {
    hide Willing, Finished, Invariant, Exec, Admissible, AllFresh;
    StartInvariant(link);
    var k;
    moves, k := CompletesFrom(link, Start(link));
  }
}
