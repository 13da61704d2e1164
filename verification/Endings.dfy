/**
 Why the data loops (adapters/reference/tftp_reference_engine.cpp) end as they do:
 how each ending is told from what was read, how long either end is patient, and
 what it sends meanwhile.
 */
module Endings {
  import opened Basics
  import opened Codec
  import opened DataPlane

  // ------------------------------------------------------------------ Sender

  lemma {:induction false} RunSenderSplits(payload: Bytes, t: Terms, s: Sender, a: seq<Reading>, b: seq<Reading>)
    ensures RunSender(payload, t, s, a + b).0 == RunSender(payload, t, RunSender(payload, t, s, a).0, b).0
    decreases |a|
  {
    hide SenderStep;
    if a == [] {
      assert a + b == b;
    } else {
      assert (a + b)[1..] == a[1..] + b;
      RunSenderSplits(payload, t, SenderStep(payload, t, s, a[0]).0, a[1..], b);
    }
  }

  /** The sender after the first k readings. */
  function SenderAt(payload: Bytes, t: Terms, s: Sender, readings: seq<Reading>, k: nat): Sender
    requires k <= |readings|
  {
    RunSender(payload, t, s, readings[..k]).0
  }

  lemma SenderAtLater(payload: Bytes, t: Terms, s: Sender, readings: seq<Reading>, k: nat)
    requires k < |readings|
    ensures SenderAt(payload, t, s, readings, k + 1)
            == SenderAt(payload, t, SenderStep(payload, t, s, readings[0]).0, readings[1..], k)
  {
    hide SenderStep;
    assert readings[..k + 1][0] == readings[0] && readings[..k + 1][1..] == readings[1..][..k];
  }

  /** The timeouts counted are those since the last progress, or since the start. */
  lemma {:induction false} TimeoutsSinceProgress(payload: Bytes, t: Terms, s: Sender, readings: seq<Reading>)
    returns (k: nat)
    requires s.ending.None?
    ensures k <= |readings|
    ensures var final := RunSender(payload, t, s, readings).0;
      && SenderAt(payload, t, s, readings, k).lastAcked == final.lastAcked
      && (k > 0 ==> SenderAt(payload, t, s, readings, k - 1).lastAcked < final.lastAcked)
      && final.timeouts == (if k == 0 then s.timeouts else 0)
                           + TimeoutsTaken(payload, t, SenderAt(payload, t, s, readings, k), readings[k..])
    decreases |readings|
  {
    if readings == [] {
      return 0;
    }
    var next := SenderStep(payload, t, s, readings[0]).0;
    StepCounts(payload, t, s, readings[0]);
    hide SenderStep;
    SenderAtLater(payload, t, s, readings, 0);
    assert readings[..0] == [] && readings[1..][..0] == [] && readings[0..] == readings;
    if next.ending.Some? {
      EndedRunStays(payload, t, next, readings[1..]);
      NoTimeoutsOnceEnded(payload, t, next, readings[1..]);
      k := if next.lastAcked > s.lastAcked then 1 else 0;
    } else {
      var later := TimeoutsSinceProgress(payload, t, next, readings[1..]);
      SenderAtLater(payload, t, s, readings, later);
      assert readings[later + 1..] == readings[1..][later..];
      if later > 0 {
        SenderAtLater(payload, t, s, readings, later - 1);
        k := later + 1;
      } else {
        k := if next.lastAcked > s.lastAcked then 1 else 0;
      }
    }
  }

  lemma StepCounts(payload: Bytes, t: Terms, s: Sender, reading: Reading)
    requires s.ending.None?
    ensures var next := SenderStep(payload, t, s, reading).0;
      && next.lastAcked >= s.lastAcked
      && next.timeouts == (if next.lastAcked > s.lastAcked then 0 else s.timeouts + (if reading.TimedOut? then 1 else 0))
      && (next.lastAcked > s.lastAcked ==> !reading.TimedOut?)
  {
  }

  lemma {:induction false} EndedRunStays(payload: Bytes, t: Terms, s: Sender, readings: seq<Reading>)
    requires s.ending.Some?
    ensures RunSender(payload, t, s, readings).0 == s
    decreases |readings|
  {
    if readings != [] {
      assert SenderStep(payload, t, s, readings[0]).0 == s;
      EndedRunStays(payload, t, s, readings[1..]);
    }
  }

  /**
   The reading that ends a sender's run says how it ends: the peer's ERROR with its
   own code and text, a socket error, the timeout that is one too many since the
   last progress, or the ACK of the last block.
   */
  lemma SenderEndsFor(payload: Bytes, t: Terms, startingCount: nat, readings: seq<Reading>, reading: Reading)
    returns (k: nat)
    requires SenderAfter(payload, t, startingCount, readings).ending.None?
    ensures k <= |readings|
    ensures var start := SenderStart(payload, t, startingCount).0;
      var before := SenderAfter(payload, t, startingCount, readings);
      var ending := SenderAfter(payload, t, startingCount, readings + [reading]).ending;
      && SenderAt(payload, t, start, readings, k).lastAcked == before.lastAcked
      && (k > 0 ==> SenderAt(payload, t, start, readings, k - 1).lastAcked < before.lastAcked)
      && (forall code, message :: ending == Some(PeerError(code, message)) <==> reading == GotPacket(Error(code, message)))
      && (ending == Some(SocketFailed) <==> reading == SocketError)
      && (ending == Some(GaveUp) <==>
            reading == TimedOut &&
            TimeoutsTaken(payload, t, SenderAt(payload, t, start, readings, k), readings[k..])
            >= t.config.maximumRetransmissions)
      && (ending == Some(Completed) <==>
            reading.GotPacket? && reading.packet.Acknowledgement? &&
            ResolveAck(reading.packet.block, before.lastAcked, before.highestSent) == SenderTotal(payload, t))
  {
    var start := SenderStart(payload, t, startingCount).0;
    StartCounts(payload, t, startingCount);
    assert start.timeouts == 0;
    RunKeepsCounts(payload, t, startingCount, start, readings);
    k := TimeoutsSinceProgress(payload, t, start, readings);
    RunSenderSplits(payload, t, start, readings, [reading]);
    OneMoreReading(payload, t, SenderAfter(payload, t, startingCount, readings), reading);
    hide SenderStart, RunSender, TimeoutsTaken, SenderStep, SenderAt;
    EndingOfStep(payload, t, startingCount, SenderAfter(payload, t, startingCount, readings), reading);
  }

  lemma OneMoreReading(payload: Bytes, t: Terms, s: Sender, reading: Reading)
    ensures RunSender(payload, t, s, [reading]).0 == SenderStep(payload, t, s, reading).0
  {
    hide SenderStep;
    assert [reading][1..] == [];
  }

  lemma EndingOfStep(payload: Bytes, t: Terms, startingCount: nat, s: Sender, reading: Reading)
    requires SenderCounts(payload, t, startingCount, s) && s.ending.None?
    ensures var ending := SenderStep(payload, t, s, reading).0.ending;
      && (forall code, message :: ending == Some(PeerError(code, message)) <==> reading == GotPacket(Error(code, message)))
      && (ending == Some(SocketFailed) <==> reading == SocketError)
      && (ending == Some(GaveUp) <==> reading == TimedOut && s.timeouts >= t.config.maximumRetransmissions)
      && (ending == Some(Completed) <==>
            reading.GotPacket? && reading.packet.Acknowledgement? &&
            ResolveAck(reading.packet.block, s.lastAcked, s.highestSent) == SenderTotal(payload, t))
  {
  }

  /**
   RFC 7440 section 4: on a timeout everything outstanding is sent again, in order
   and once, and a window that slides sends just what has come into it.
   */
  lemma SenderResponses(payload: Bytes, t: Terms, s: Sender, reading: Reading)
    requires SenderInvariant(payload, t, s) && s.ending.None?
    ensures var (next, sends) := SenderStep(payload, t, s, reading);
      && (reading == TimedOut && s.timeouts < t.config.maximumRetransmissions ==>
            |sends| == s.highestSent - s.lastAcked > 0
            && (forall i :: 0 <= i < |sends| ==> sends[i] == s.lastAcked + 1 + i)
            && next == s.(timeouts := s.timeouts + 1, retransmissions := s.retransmissions + |sends|))
      && (next.lastAcked > s.lastAcked ==>
            |sends| == next.highestSent - s.highestSent
            && (forall i :: 0 <= i < |sends| ==> sends[i] == s.highestSent + 1 + i)
            && next.retransmissions == s.retransmissions)
  {
  }

  // ---------------------------------------------------------------- Receiver

  /** Timeouts read since the last DATA. */
  function TimeoutsSinceData(readings: seq<Reading>): nat {
    if readings == [] then 0
    else
      var last := readings[|readings| - 1];
      if last.GotPacket? && last.packet.Data? then 0
      else TimeoutsSinceData(readings[..|readings| - 1]) + if last.TimedOut? then 1 else 0
  }

  lemma {:induction false} RunReceiverSplits(t: Terms, r: Receiver, a: seq<Reading>, b: seq<Reading>)
    ensures RunReceiver(t, r, a + b).0 == RunReceiver(t, RunReceiver(t, r, a).0, b).0
    decreases |a|
  {
    hide ReceiverStep;
    if a == [] {
      assert a + b == b;
    } else {
      assert (a + b)[1..] == a[1..] + b;
      RunReceiverSplits(t, ReceiverStep(t, r, a[0]).0, a[1..], b);
    }
  }

  /** Appending one reading is one step more. */
  lemma OneStepMore(t: Terms, r: Receiver, readings: seq<Reading>, reading: Reading)
    ensures RunReceiver(t, r, readings + [reading]).0 == ReceiverStep(t, RunReceiver(t, r, readings).0, reading).0
  {
    RunReceiverSplits(t, r, readings, [reading]);
    hide ReceiverStep;
    assert [reading][1..] == [];
  }

  lemma {:induction false} TimeoutsAreSinceData(t: Terms, first: Positive, readings: seq<Reading>)
    requires RunReceiver(t, ReceiverStart(first), readings).0.phase.Receiving?
    ensures RunReceiver(t, ReceiverStart(first), readings).0.timeouts == TimeoutsSinceData(readings)
    decreases |readings|
  {
    if readings != [] {
      var front, last := readings[..|readings| - 1], readings[|readings| - 1];
      assert readings == front + [last];
      OneStepMore(t, ReceiverStart(first), front, last);
      hide RunReceiver;
      StillReceiving(t, RunReceiver(t, ReceiverStart(first), front).0, last);
      TimeoutsAreSinceData(t, first, front);
    }
  }

  lemma StillReceiving(t: Terms, r: Receiver, reading: Reading)
    requires ReceiverStep(t, r, reading).0.phase.Receiving?
    ensures r.phase.Receiving?
    ensures ReceiverStep(t, r, reading).0.timeouts ==
            if reading.GotPacket? && reading.packet.Data? then 0 else r.timeouts + if reading.TimedOut? then 1 else 0
  {
    hide ResolveData;
  }

  /** The same for the receiver, whose patience every DATA renews. */
  lemma ReceiverEndsFor(t: Terms, first: Positive, readings: seq<Reading>, reading: Reading)
    requires RunReceiver(t, ReceiverStart(first), readings).0.phase.Receiving?
    ensures var phase := RunReceiver(t, ReceiverStart(first), readings + [reading]).0.phase;
      && (forall code, message ::
            phase == Ended(PeerError(code, message)) <==> reading == GotPacket(Error(code, message)))
      && (phase == Ended(SocketFailed) <==> reading == SocketError)
      && (phase == Ended(GaveUp) <==>
            reading == TimedOut && TimeoutsSinceData(readings) >= t.config.maximumRetransmissions)
      && phase != Ended(Completed)
      && (phase == Dallying ==> reading.GotPacket? && reading.packet.Data? && |reading.packet.data| < t.blockSize)
  {
    TimeoutsAreSinceData(t, first, readings);
    OneStepMore(t, ReceiverStart(first), readings, reading);
    hide RunReceiver, ResolveData;
  }

  /**
   RFC 7440 section 4: a receiver still waiting answers each DATA with the number it
   has come to, or stays silent because the block was the next one and fewer than a
   window of them wait for their ACK.
   */
  lemma AnswersWithinWindow(t: Terms, r: Receiver, wire: U16, data: Bytes)
    requires r.phase == Receiving && r.blocksSinceAck < t.Window()
    ensures var (next, acks) := ReceiverStep(t, r, GotPacket(Data(wire, data)));
      if acks == [] then
        && next.lastInSequence == r.lastInSequence + 1 && next.sink == r.sink + data
        && next.blocksSinceAck == r.blocksSinceAck + 1 < t.Window()
      else
        && acks == [next.lastInSequence]
        && (next.phase == Receiving && !t.config.quirks.acceptOutOfSequenceData ==> next.blocksSinceAck == 0)
  {
    hide ResolveData;
  }

  // ------------------------------------------------------------------- Dally

  /** How many packets come in a row, as far as `limit`. */
  function Packets(readings: seq<Reading>, limit: nat): (n: nat)
    ensures n <= |readings| && n <= limit
  {
    if limit == 0 || readings == [] || !readings[0].GotPacket? then 0 else 1 + Packets(readings[1..], limit - 1)
  }

  function DataAmong(readings: seq<Reading>): nat {
    if readings == [] then 0
    else (if readings[0].GotPacket? && readings[0].packet.Data? then 1 else 0) + DataAmong(readings[1..])
  }

  /**
   After the final block up to four packets are taken, until nothing comes; each
   DATA among them has the final ACK repeated, and nothing else is answered.
   */
  lemma {:induction false} DallyAnswersFour(t: Terms, r: Receiver, readings: seq<Reading>)
    requires r.phase == Dallying && r.dallied < 4
    ensures var (final, acks) := RunReceiver(t, r, readings);
      var taken := Packets(readings, 4 - r.dallied);
      && |acks| == DataAmong(readings[..taken]) && (forall k :: 0 <= k < |acks| ==> acks[k] == r.lastInSequence)
      && final.sink == r.sink && final.lastInSequence == r.lastInSequence
      && final.phase == (if taken == |readings| && taken < 4 - r.dallied then Dallying else Ended(Completed))
    decreases |readings|
  {
    if readings != [] {
      var (next, acks) := ReceiverStep(t, r, readings[0]);
      if next.phase.Ended? {
        EndedReceiverStays(t, next, readings[1..]);
        if readings[0].GotPacket? {
          assert readings[..1][1..] == [];
        }
      } else {
        DallyAnswersFour(t, next, readings[1..]);
        var taken := Packets(readings, 4 - r.dallied);
        assert readings[..taken][1..] == readings[1..][..taken - 1];
      }
    }
  }

  lemma {:induction false} EndedReceiverStays(t: Terms, r: Receiver, readings: seq<Reading>)
    requires r.phase.Ended?
    ensures RunReceiver(t, r, readings) == (r, [])
    decreases |readings|
  {
    if readings != [] {
      EndedReceiverStays(t, r, readings[1..]);
      assert ReceiverStep(t, r, readings[0]) == (r, []);
      var nothing: seq<nat> := [];
      assert nothing + nothing == nothing;
    }
  }
}
