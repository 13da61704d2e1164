/**
 The data plane over a lossless first-in first-out network without timeouts:
 exactly which packets such a run costs.
 */
module Lossless {
  import opened Basics
  import opened Codec
  import opened DataPlane
  import opened LockedPeer
  import opened Network
  import opened Progress

  /** A joint state with how much of each log has been delivered. */
  datatype Queues = Queues(j: Joint, dataTaken: nat, acksTaken: nat)

  /** Both ends with the same window; the sender sends its terminating block. */
  ghost predicate Matched(link: Link) {
    Willing(link) && link.receiver.Window() == link.sender.Window()
  }

  function Handshakes(link: Link): nat {
    if link.handshakeAck then 1 else 0
  }

  function Begin(link: Link): Queues {
    Queues(Start(link), 0, Handshakes(link))
  }

  predicate DataPending(q: Queues) {
    q.dataTaken < |q.j.dataLog|
  }

  predicate AckPending(q: Queues) {
    q.acksTaken < |q.j.ackLog|
  }

  predicate BothPending(q: Queues) {
    DataPending(q) && AckPending(q)
  }

  /** Deliver the oldest undelivered packet. */
  function Step(link: Link, q: Queues): Queues {
    if DataPending(q) then
      Queues(ReceiverReads(link, q.j, DataEvent(link, q.j.dataLog[q.dataTaken], None)),
             q.dataTaken + 1, q.acksTaken)
    else if AckPending(q) then
      Queues(SenderReads(link, q.j, AckEvent(link, q.j.ackLog[q.acksTaken], None)),
             q.dataTaken, q.acksTaken + 1)
    else q
  }

  function After(link: Link, steps: nat): Queues {
    if steps == 0 then Begin(link) else Step(link, After(link, steps - 1))
  }

  function Rounds(link: Link, q: Queues): int {
    q.acksTaken - Handshakes(link)
  }

  /** ceil(total / window), the acknowledgements a lossless run needs. */
  function WindowCount(link: Link): nat {
    (Total(link) + link.sender.Window() - 1) / link.sender.Window()
  }

  /** Data of round m is being delivered, or its one ACK is, or all is done. */
  ghost predicate InStep(link: Link, q: Queues) {
    var j, w, m := q.j, link.sender.Window(), Rounds(link, q);
    && Invariant(link, j) && m >= 0
    && j.dataLog == Span(0, j.s.highestSent)
    && j.s.retransmissions == 0 && j.s.dataPacketsSent == j.s.highestSent
    && q.dataTaken == j.r.lastInSequence
    && if j.s.ending == Some(Completed) then
         q.acksTaken == |j.ackLog| && Times(w, m - 1) < Total(link) <= Times(w, m)
       else
         && j.s.ending.None? && j.s.lastAcked == Times(w, m)
         && if DataPending(q) then
              q.acksTaken == |j.ackLog| && j.r.phase.Receiving? && j.s.lastAcked <= q.dataTaken
              && j.r.blocksSinceAck == q.dataTaken - j.s.lastAcked
            else
              && |j.ackLog| == q.acksTaken + 1 && j.ackLog[q.acksTaken] == j.s.highestSent
              && (j.r.phase == Dallying || (j.r.phase.Receiving? && j.r.blocksSinceAck == 0))
  }

  lemma BeginsInStep(link: Link)
    requires Matched(link)
    ensures InStep(link, Begin(link))
  {
    StartInvariant(link);
  }

  /** The receiver takes the oldest pending block as its next one. */
  lemma DataStepTaken(link: Link, q: Queues)
    requires Matched(link) && InStep(link, q) && DataPending(q)
    ensures Invariant(link, Step(link, q).j)
    ensures var index := q.dataTaken + 1;
      var data := BlockPayload(link.payload, index, link.sender.blockSize);
      && (|data| < link.sender.blockSize <==> index == Total(link))
      && var (r', acks) := if q.j.r.phase.Receiving? then
                             SimpleHandleData(link.receiver, q.j.r.(timeouts := 0), WireBlockNumber(index), data)
                           else ReceiverStep(link.receiver, q.j.r, GotPacket(Data(WireBlockNumber(index), data)));
         Step(link, q) == Queues(q.j.(r := r', ackLog := q.j.ackLog + acks), index, q.acksTaken)
  {
    var j, index := q.j, q.dataTaken + 1;
    assert j.dataLog[q.dataTaken] == index;
    assert index in j.dataLog;
    ApplyKeepsInvariant(link, j, DeliverData(index, None));
    IntactEvents(link, index);
    var bs := link.sender.blockSize;
    var data := BlockPayload(link.payload, index, bs);
    BlockExtendsPrefix(link.payload, index, bs);
    if j.r.phase.Receiving? {
      DataAcceptedIffNext(link, j, index, data);
    }
    hide Classify, HandleData, BlockPayload, DataEvent, Prefix, SimpleHandleData, SenderTotal;
    assert FinalBlock(link) == Total(link) by { WholeTotal(link); }
  }

  lemma WholeTotal(link: Link)
    requires Willing(link)
    ensures FinalBlock(link) == Total(link)
  {
  }

  /** What the invariant says about the counters. */
  lemma Counters(link: Link, j: Joint)
    requires Matched(link) && Invariant(link, j)
    ensures j.s.ending.None? ==>
              j.s.lastAcked < Total(link) && j.s.highestSent == Min(j.s.lastAcked + link.sender.Window(), Total(link))
    ensures j.s.ending == Some(Completed) ==> j.s.lastAcked == j.s.highestSent == Total(link)
    ensures j.s.lastAcked <= j.r.lastInSequence <= j.s.highestSent
    ensures ReceiverSucceeds(j.r) <==> j.r.lastInSequence == Total(link)
    ensures j.r.phase.Receiving? ==> j.r.blocksSinceAck < link.sender.Window()
  {
    WholeTotal(link);
  }

  /** A block inside the window is taken silently; the last one of it draws the window's ACK. */
  lemma WindowAckedOnce(link: Link, q: Queues)
    requires Matched(link) && InStep(link, q) && DataPending(q)
    ensures var next := Step(link, q);
      && next.j.s == q.j.s && next.j.dataLog == q.j.dataLog
      && next.dataTaken == next.j.r.lastInSequence == q.dataTaken + 1 && next.acksTaken == q.acksTaken
      && if next.dataTaken < q.j.s.highestSent then
           next.j.ackLog == q.j.ackLog && next.j.r.phase.Receiving?
           && next.j.r.blocksSinceAck == q.j.r.blocksSinceAck + 1
         else
           next.j.ackLog == q.j.ackLog + [q.j.s.highestSent]
           && (next.j.r.phase == Dallying || (next.j.r.phase.Receiving? && next.j.r.blocksSinceAck == 0))
  {
    hide Step, Invariant, BlockPayload, Times, WireBlockNumber, Total, ReceiverStep, Sound;
    DataStepTaken(link, q);
    Counters(link, q.j);
  }

  lemma DataStepKeeps(link: Link, q: Queues)
    requires Matched(link) && InStep(link, q) && DataPending(q)
    ensures InStep(link, Step(link, q))
  {
    hide Step, Invariant, Times, SimpleHandleData, ReceiverStep, BlockPayload, Total, Matched;
    assert Invariant(link, Step(link, q).j) by {
      DataStepTaken(link, q);
    }
    WindowAckedOnce(link, q);
    Counters(link, q.j);
  }

  /** The sender resolves the pending ACK to the block it names. */
  lemma AckStepTaken(link: Link, q: Queues)
    requires Matched(link) && InStep(link, q) && !DataPending(q) && AckPending(q)
    ensures Invariant(link, Step(link, q).j)
    ensures var index := q.j.ackLog[q.acksTaken];
      && index == q.j.s.highestSent > q.j.s.lastAcked
      && var s := q.j.s.(lastAcked := index, timeouts := 0,
                         ending := if index < Total(link) then None else Some(Completed));
         var (s', sends) := if s.ending.Some? then (s, []) else Perform(link.payload, link.sender, s, SendNew);
         Step(link, q) == Queues(q.j.(s := s', dataLog := q.j.dataLog + sends), q.dataTaken, q.acksTaken + 1)
  {
    var j := q.j;
    var index := j.ackLog[q.acksTaken];
    assert index in j.ackLog;
    ApplyKeepsInvariant(link, j, DeliverAck(index, None));
    IntactEvents(link, index);
    AckResolvesExactly(index, j.s.lastAcked, j.s.highestSent);
    Counters(link, j);
    hide Classify, AckEvent, ResolveAck, ReceiverInvariant, Perform, Invariant;
  }

  lemma SpansJoin(low: nat, high: nat)
    requires low <= high
    ensures Span(0, low) + Span(low, high) == Span(0, high)
    ensures |Span(low, high)| == high - low
  {
  }

  lemma AckStepKeeps(link: Link, q: Queues)
    requires Matched(link) && InStep(link, q) && !DataPending(q) && AckPending(q)
    ensures InStep(link, Step(link, q))
  {
    hide Step, Invariant, Times, Total, Span;
    AckStepTaken(link, q);
    Counters(link, q.j);
    var next := Step(link, q);
    Counters(link, next.j);
    OneMoreWindow(link.sender.Window(), Rounds(link, q));
    if next.j.s.ending.None? {
      SpansJoin(q.j.s.highestSent, next.j.s.highestSent);
    }
    hide Matched;
  }

  lemma OneMoreWindow(w: nat, m: nat)
    ensures Times(w, m + 1) == Times(w, m) + w
  {
  }

  /** Every step delivers one packet until the sender is done. */
  lemma {:induction false} StaysInStep(link: Link, steps: nat)
    requires Matched(link)
    ensures InStep(link, After(link, steps))
    ensures After(link, steps).j.s.ending.None? ==>
              After(link, steps).dataTaken + Rounds(link, After(link, steps)) == steps
  {
    hide Step, InStep;
    if steps == 0 {
      BeginsInStep(link);
      assert After(link, 0) == Begin(link);
    } else {
      StaysInStep(link, steps - 1);
      StepKeeps(link, After(link, steps - 1));
    }
  }

  lemma StepKeeps(link: Link, q: Queues)
    requires Matched(link) && InStep(link, q)
    ensures InStep(link, Step(link, q))
    ensures !BothPending(q)
    ensures Step(link, q).j.s.ending.None? ==>
              q.j.s.ending.None? &&
              Step(link, q).dataTaken + Rounds(link, Step(link, q)) == q.dataTaken + Rounds(link, q) + 1
  {
    if DataPending(q) {
      DataStepTaken(link, q);
      DataStepKeeps(link, q);
    } else if AckPending(q) {
      AckStepTaken(link, q);
      AckStepKeeps(link, q);
    } else {
      Counters(link, q.j);
    }
  }

  lemma CeilingBrackets(total: Positive, w: Positive)
    ensures var count := (total + w - 1) / w;
      count >= 1 && Times(w, count - 1) < total <= Times(w, count)
  {
    var count := (total + w - 1) / w;
    assert count * w <= total + w - 1 < (count + 1) * w;
    assert (count + 1) * w == count * w + w;
    assert count >= 1;
    TimesIsProduct(w, count);
    assert Times(w, count) == w + Times(w, count - 1);
  }

  lemma WindowCountBounds(total: Positive, w: Positive, m: nat)
    ensures Times(w, m) < total ==> m < (total + w - 1) / w
    ensures Times(w, m - 1) < total <= Times(w, m) ==> m == (total + w - 1) / w
  {
    CeilingBrackets(total, w);
    var count := (total + w - 1) / w;
    hide Times;
    if count < m { TimesGrows(w, count, m); }
    if count < m - 1 { TimesGrows(w, count, m - 1); }
    if m < count - 1 { TimesGrows(w, m, count - 1); }
    if m < count { TimesGrows(w, m, count); }
  }

  /**
   On a lossless first-in first-out network there is never a choice of what to
   deliver next, and the whole transfer takes exactly one DATA for each block and
   one ACK for each window.
   */
  lemma LosslessRunCost(link: Link)
    requires Matched(link)
    ensures forall steps :: !BothPending(After(link, steps))
    ensures var q := After(link, Total(link) + WindowCount(link));
      && q.j.s.ending == Some(Completed) && ReceiverSucceeds(q.j.r) && q.j.r.sink == link.payload
      && |q.j.dataLog| == q.j.s.dataPacketsSent == Total(link) && q.j.s.retransmissions == 0
      && |q.j.ackLog| - Handshakes(link) == WindowCount(link)
      && !DataPending(q) && !AckPending(q)
  {
    hide *;
    forall steps
      ensures !BothPending(After(link, steps))
    {
      StaysInStep(link, steps);
      StepKeeps(link, After(link, steps));
    }
    StaysInStep(link, Total(link) + WindowCount(link));
    AtTheEnd(link, After(link, Total(link) + WindowCount(link)));
  }

  lemma AtTheEnd(link: Link, q: Queues)
    requires Matched(link) && InStep(link, q)
    requires q.j.s.ending.None? ==> q.dataTaken + Rounds(link, q) == Total(link) + WindowCount(link)
    ensures q.j.s.ending == Some(Completed) && ReceiverSucceeds(q.j.r) && q.j.r.sink == link.payload
    ensures |q.j.dataLog| == q.j.s.dataPacketsSent == Total(link) && q.j.s.retransmissions == 0
    ensures |q.j.ackLog| - Handshakes(link) == WindowCount(link)
    ensures !DataPending(q) && !AckPending(q)
  {
    WindowCountBounds(Total(link), link.sender.Window(), Rounds(link, q));
    Counters(link, q.j);
    InvariantIsSafe(link, q.j);
    hide Times, Invariant;
  }

  /** Every such state is reached by admissible moves, from any earlier one. */
  lemma {:induction false} AfterIsReachable(link: Link, from: nat, steps: nat) returns (moves: seq<Move>)
    requires Matched(link) && from <= steps
    ensures Leads(link, After(link, from).j, moves, After(link, steps).j)
    decreases steps
  {
    hide Leads, Step, InStep;
    if steps == from {
      moves := [];
      NoMoves(link, After(link, from).j);
    } else {
      var before := AfterIsReachable(link, from, steps - 1);
      StaysInStep(link, steps - 1);
      var last := StepIsMove(link, After(link, steps - 1));
      moves := before + last;
      LeadsAppend(link, After(link, from).j, before, After(link, steps - 1).j, last, After(link, steps).j);
    }
  }

  lemma StepIsMove(link: Link, q: Queues) returns (moves: seq<Move>)
    requires Matched(link) && InStep(link, q)
    ensures Leads(link, q.j, moves, Step(link, q).j)
  {
    if DataPending(q) {
      var m := DeliverData(q.j.dataLog[q.dataTaken], None);
      OneMove(link, q.j, m);
      moves := [m];
    } else if AckPending(q) {
      var m := DeliverAck(q.j.ackLog[q.acksTaken], None);
      OneMove(link, q.j, m);
      moves := [m];
    } else {
      moves := [];
    }
  }
}
