/**
 The data loops against a socket (adapters/reference/tftp_reference_engine.cpp):
 which datagrams belong to the transfer, and whole runs of the step functions
 of `DataPlane` over what the socket delivers.  A socket is a script of events;
 once the script is used up the network is silent for ever, so every run ends.
 */
module LockedPeer {
  import opened Basics
  import opened Codec
  import opened DataPlane

  datatype Endpoint = Endpoint(address: int, port: U16)
  datatype Event = Silence | Fault | Datagram(source: Endpoint, bytes: Bytes)
  datatype Sent = Sent(to: Endpoint, bytes: Bytes)

  // -------------------------------------------------- The locked transfer ID

  datatype Verdict = Foreign | Malformed | Deliver(reading: Reading)

  /** RFC 1350 section 4, with the socket's reading of an empty datagram as a timeout. */
  function Classify(peer: Endpoint, e: Event): Verdict {
    match e
    case Silence => Deliver(TimedOut)
    case Fault => Deliver(SocketError)
    case Datagram(source, bytes) =>
      if bytes == [] then Deliver(TimedOut)
      else if source != peer then Foreign
      else
        match Parse(bytes)
        case Failure(_) => Malformed
        case Ok(packet) => Deliver(GotPacket(packet))
  }

  const UNKNOWN_TRANSFER_ID: U16 := 5

  function Rebuff(): Bytes {
    Encode(Error(UNKNOWN_TRANSFER_ID, "unknown transfer ID"))
  }

  function RebuffOf(peer: Endpoint, e: Event): seq<Sent> {
    if Classify(peer, e).Foreign? then [Sent(e.source, Rebuff())] else []
  }

  /** One ERROR 5 to the source of each foreign datagram, in order. */
  function Rebuffs(peer: Endpoint, events: seq<Event>): seq<Sent> {
    if events == [] then [] else RebuffOf(peer, events[0]) + Rebuffs(peer, events[1..])
  }

  function ReceiveLocked(peer: Endpoint, events: seq<Event>): (r: (Reading, seq<Event>))
    ensures |r.1| <= |events| && r.1 == events[|events| - |r.1|..]
    ensures events != [] ==> |r.1| < |events|
    ensures events == [] ==> r.0 == TimedOut
  {
    if events == [] then (TimedOut, [])
    else
      match Classify(peer, events[0])
      case Deliver(reading) => (reading, events[1..])
      case _ => ReceiveLocked(peer, events[1..])
  }

  function Consumed(events: seq<Event>, rest: seq<Event>): seq<Event>
    requires |rest| <= |events|
  {
    events[..|events| - |rest|]
  }

  // -------------------------------------------------------------- Whole runs

  function DataDatagram(payload: Bytes, blockSize: Positive, index: nat): Bytes {
    Encode(Data(WireBlockNumber(index), BlockPayload(payload, index, blockSize)))
  }

  function AckDatagram(index: nat): Bytes {
    Encode(Acknowledgement(WireBlockNumber(index)))
  }

  function DataTraffic(payload: Bytes, blockSize: Positive, peer: Endpoint, blocks: seq<nat>): seq<Sent> {
    seq(|blocks|, k requires 0 <= k < |blocks| => Sent(peer, DataDatagram(payload, blockSize, blocks[k])))
  }

  function AckTraffic(peer: Endpoint, blocks: seq<nat>): seq<Sent> {
    seq(|blocks|, k requires 0 <= k < |blocks| => Sent(peer, AckDatagram(blocks[k])))
  }

  datatype SenderRun = SenderRun(sender: Sender, sent: seq<Sent>, rest: seq<Event>)
  datatype ReceiverRun = ReceiverRun(receiver: Receiver, sent: seq<Sent>, rest: seq<Event>)

  function SenderPatienceLeft(t: Terms, s: Sender): nat {
    if s.ending.Some? then 0 else 1 + Max(0, t.config.maximumRetransmissions - s.timeouts)
  }

  function ReceiverPatienceLeft(t: Terms, r: Receiver): nat {
    match r.phase
    case Ended(_) => 0
    case Dallying => 1
    case Receiving => 2 + Max(0, t.config.maximumRetransmissions - r.timeouts)
  }

  lemma SilenceTiresSender(payload: Bytes, t: Terms, s: Sender)
    requires s.ending.None?
    ensures SenderPatienceLeft(t, SenderStep(payload, t, s, TimedOut).0) < SenderPatienceLeft(t, s)
  {
  }

  lemma SilenceTiresReceiver(t: Terms, r: Receiver)
    requires !r.phase.Ended?
    ensures ReceiverPatienceLeft(t, ReceiverStep(t, r, TimedOut).0) < ReceiverPatienceLeft(t, r)
  {
  }

  /** From a receive point to the end of the loop. */
  function SenderToEnd(payload: Bytes, t: Terms, peer: Endpoint, s: Sender, events: seq<Event>): (r: SenderRun)
    ensures |r.rest| <= |events|
    decreases |events|, SenderPatienceLeft(t, s)
  {
    if s.ending.Some? then SenderRun(s, [], events)
    else
      var (reading, rest) := ReceiveLocked(peer, events);
      var (s', blocks) := SenderStep(payload, t, s, reading);
      var later := SenderToEnd(payload, t, peer, s', rest);
      SenderRun(later.sender,
                Rebuffs(peer, Consumed(events, rest))
                + DataTraffic(payload, t.blockSize, peer, blocks) + later.sent,
                later.rest)
  }

  function ReceiverToEnd(t: Terms, peer: Endpoint, r: Receiver, events: seq<Event>): (run: ReceiverRun)
    ensures |run.rest| <= |events|
    decreases |events|, ReceiverPatienceLeft(t, r)
  {
    if r.phase.Ended? then ReceiverRun(r, [], events)
    else
      var (reading, rest) := ReceiveLocked(peer, events);
      var (r', blocks) := ReceiverStep(t, r, reading);
      var later := ReceiverToEnd(t, peer, r', rest);
      ReceiverRun(later.receiver,
                  Rebuffs(peer, Consumed(events, rest)) + AckTraffic(peer, blocks) + later.sent,
                  later.rest)
  }

  /** The readings a run consumed, trailing silence included. */
  function SenderReadings(payload: Bytes, t: Terms, peer: Endpoint, s: Sender, events: seq<Event>): seq<Reading>
    decreases |events|, SenderPatienceLeft(t, s)
  {
    if s.ending.Some? then []
    else
      var (reading, rest) := ReceiveLocked(peer, events);
      [reading] + SenderReadings(payload, t, peer, SenderStep(payload, t, s, reading).0, rest)
  }

  // ------------------------------------------------ Stray packets do not matter

  /** The events without the datagrams that `receive_from_locked_peer` skips. */
  function Clean(peer: Endpoint, events: seq<Event>): seq<Event> {
    if events == [] then []
    else (if Classify(peer, events[0]).Deliver? then [events[0]] else []) + Clean(peer, events[1..])
  }

  function ToPeer(peer: Endpoint, sent: seq<Sent>): seq<Sent> {
    if sent == [] then []
    else (if sent[0].to == peer then [sent[0]] else []) + ToPeer(peer, sent[1..])
  }

  function ToOthers(peer: Endpoint, sent: seq<Sent>): seq<Sent> {
    if sent == [] then []
    else (if sent[0].to != peer then [sent[0]] else []) + ToOthers(peer, sent[1..])
  }

  lemma {:induction false} TrafficSplits(peer: Endpoint, a: seq<Sent>, b: seq<Sent>)
    ensures ToPeer(peer, a + b) == ToPeer(peer, a) + ToPeer(peer, b)
    ensures ToOthers(peer, a + b) == ToOthers(peer, a) + ToOthers(peer, b)
  {
    if a == [] {
      assert a + b == b;
    } else {
      assert (a + b)[1..] == a[1..] + b;
      TrafficSplits(peer, a[1..], b);
    }
  }

  lemma {:induction false} PeerTraffic(peer: Endpoint, a: seq<Sent>)
    requires forall k :: 0 <= k < |a| ==> a[k].to == peer
    ensures ToPeer(peer, a) == a && ToOthers(peer, a) == []
  {
    if a != [] {
      PeerTraffic(peer, a[1..]);
    }
  }

  lemma {:induction false} RebuffsGoElsewhere(peer: Endpoint, events: seq<Event>)
    ensures ToPeer(peer, Rebuffs(peer, events)) == []
    ensures ToOthers(peer, Rebuffs(peer, events)) == Rebuffs(peer, events)
  {
    if events != [] {
      RebuffsGoElsewhere(peer, events[1..]);
      TrafficSplits(peer, RebuffOf(peer, events[0]), Rebuffs(peer, events[1..]));
    }
  }

  lemma {:induction false} RebuffsSplit(peer: Endpoint, a: seq<Event>, b: seq<Event>)
    ensures Rebuffs(peer, a + b) == Rebuffs(peer, a) + Rebuffs(peer, b)
  {
    if a == [] {
      assert a + b == b;
    } else {
      assert (a + b)[1..] == a[1..] + b;
      RebuffsSplit(peer, a[1..], b);
    }
  }

  lemma {:induction false} ReceiveCleanly(peer: Endpoint, events: seq<Event>)
    ensures var (reading, rest) := ReceiveLocked(peer, events);
      ReceiveLocked(peer, Clean(peer, events)) == (reading, Clean(peer, rest))
    ensures |Clean(peer, events)| <= |events|
  {
    if events != [] {
      hide Classify;
      ReceiveCleanly(peer, events[1..]);
      var tail := Clean(peer, events[1..]);
      if Classify(peer, events[0]).Deliver? {
        assert Clean(peer, events) == [events[0]] + tail;
        assert ([events[0]] + tail)[1..] == tail;
      } else {
        assert [] + tail == tail;
      }
    }
  }

  /** What one receive and one step put on the wire, by destination. */
  lemma StepTraffic(peer: Endpoint, skipped: seq<Event>, own: seq<Sent>, later: seq<Sent>)
    requires forall k :: 0 <= k < |own| ==> own[k].to == peer
    ensures ToPeer(peer, Rebuffs(peer, skipped) + own + later) == own + ToPeer(peer, later)
    ensures ToOthers(peer, Rebuffs(peer, skipped) + own + later)
            == Rebuffs(peer, skipped) + ToOthers(peer, later)
  {
    hide *;
    var rebuffs := Rebuffs(peer, skipped);
    RebuffsGoElsewhere(peer, skipped);
    PeerTraffic(peer, own);
    TrafficSplits(peer, rebuffs, own);
    assert [] + own == own;
    assert rebuffs + [] == rebuffs;
    TrafficSplits(peer, rebuffs + own, later);
  }

  lemma ConsumedSplits(events: seq<Event>, middle: seq<Event>, rest: seq<Event>)
    requires |rest| <= |middle| <= |events| && middle == events[|events| - |middle|..]
    ensures Consumed(events, rest) == Consumed(events, middle) + Consumed(middle, rest)
  {
  }

  /**
   RFC 1350 section 4 for the sender: dropping every foreign and every malformed
   datagram changes neither the outcome nor a byte sent to the peer, and each
   foreign datagram read is answered by exactly one ERROR 5 to its own source.
   */
  lemma {:induction false} SenderIgnoresStrays(
    payload: Bytes, t: Terms, peer: Endpoint, s: Sender, events: seq<Event>)
    ensures var run := SenderToEnd(payload, t, peer, s, events);
      var clean := SenderToEnd(payload, t, peer, s, Clean(peer, events));
      && run.sender == clean.sender
      && ToPeer(peer, run.sent) == ToPeer(peer, clean.sent)
      && ToOthers(peer, run.sent) == Rebuffs(peer, Consumed(events, run.rest))
    decreases |events|, SenderPatienceLeft(t, s)
  {
    hide SenderStep, Classify;
    if s.ending.None? {
      var (reading, rest) := ReceiveLocked(peer, events);
      var (s', blocks) := SenderStep(payload, t, s, reading);
      var own := DataTraffic(payload, t.blockSize, peer, blocks);
      ReceiveCleanly(peer, events);
      SilenceTiresSender(payload, t, s);
      SenderIgnoresStrays(payload, t, peer, s', rest);
      var later := SenderToEnd(payload, t, peer, s', rest);
      StepTraffic(peer, Consumed(events, rest), own, later.sent);
      ConsumedSplits(events, rest, later.rest);
      RebuffsSplit(peer, Consumed(events, rest), Consumed(rest, later.rest));

      var cleaned := Clean(peer, events);
      var cleanRest := Clean(peer, rest);
      var cleanLater := SenderToEnd(payload, t, peer, s', cleanRest);
      StepTraffic(peer, Consumed(cleaned, cleanRest), own, cleanLater.sent);
    }
  }

  /** The same for the receiver: outcome, sink and acknowledgements are untouched. */
  lemma {:induction false} ReceiverIgnoresStrays(t: Terms, peer: Endpoint, r: Receiver, events: seq<Event>)
    ensures var run := ReceiverToEnd(t, peer, r, events);
      var clean := ReceiverToEnd(t, peer, r, Clean(peer, events));
      && run.receiver == clean.receiver
      && ToPeer(peer, run.sent) == ToPeer(peer, clean.sent)
      && ToOthers(peer, run.sent) == Rebuffs(peer, Consumed(events, run.rest))
    decreases |events|, ReceiverPatienceLeft(t, r)
  {
    hide ReceiverStep, Classify;
    if !r.phase.Ended? {
      var (reading, rest) := ReceiveLocked(peer, events);
      var (r', blocks) := ReceiverStep(t, r, reading);
      var own := AckTraffic(peer, blocks);
      ReceiveCleanly(peer, events);
      SilenceTiresReceiver(t, r);
      ReceiverIgnoresStrays(t, peer, r', rest);
      var later := ReceiverToEnd(t, peer, r', rest);
      StepTraffic(peer, Consumed(events, rest), own, later.sent);
      ConsumedSplits(events, rest, later.rest);
      RebuffsSplit(peer, Consumed(events, rest), Consumed(rest, later.rest));

      var cleaned := Clean(peer, events);
      var cleanRest := Clean(peer, rest);
      var cleanLater := ReceiverToEnd(t, peer, r', cleanRest);
      StepTraffic(peer, Consumed(cleaned, cleanRest), own, cleanLater.sent);
    }
  }

  lemma DataTrafficSplits(payload: Bytes, blockSize: Positive, peer: Endpoint, a: seq<nat>, b: seq<nat>)
    ensures DataTraffic(payload, blockSize, peer, a + b)
            == DataTraffic(payload, blockSize, peer, a) + DataTraffic(payload, blockSize, peer, b)
  {
  }

  /** A socket run is the run over its readings, so all of its accounting carries over. */
  lemma {:induction false} SocketRunIsReadingRun(
    payload: Bytes, t: Terms, peer: Endpoint, s: Sender, events: seq<Event>)
    ensures var run := SenderToEnd(payload, t, peer, s, events);
      var (final, blocks) := RunSender(payload, t, s, SenderReadings(payload, t, peer, s, events));
      && run.sender == final && run.sender.ending.Some?
      && ToPeer(peer, run.sent) == DataTraffic(payload, t.blockSize, peer, blocks)
    decreases |events|, SenderPatienceLeft(t, s)
  {
    hide SenderStep, Classify;
    if s.ending.None? {
      var (reading, rest) := ReceiveLocked(peer, events);
      var (s', blocks) := SenderStep(payload, t, s, reading);
      SilenceTiresSender(payload, t, s);
      SocketRunIsReadingRun(payload, t, peer, s', rest);
      var later := SenderToEnd(payload, t, peer, s', rest);
      var readings := SenderReadings(payload, t, peer, s, events);
      assert readings[1..] == SenderReadings(payload, t, peer, s', rest);
      var more := RunSender(payload, t, s', readings[1..]).1;
      StepTraffic(peer, Consumed(events, rest), DataTraffic(payload, t.blockSize, peer, blocks), later.sent);
      DataTrafficSplits(payload, t.blockSize, peer, blocks, more);
    }
  }

  lemma {:induction false} CleanSplits(peer: Endpoint, a: seq<Event>, b: seq<Event>)
    ensures Clean(peer, a + b) == Clean(peer, a) + Clean(peer, b)
  {
    hide Classify;
    if a == [] {
      assert a + b == b;
    } else {
      assert (a + b)[1..] == a[1..] + b;
      CleanSplits(peer, a[1..], b);
    }
  }

  lemma {:induction false} StraysCleanAway(peer: Endpoint, strays: seq<Event>)
    requires forall k :: 0 <= k < |strays| ==> !Classify(peer, strays[k]).Deliver?
    ensures Clean(peer, strays) == []
  {
    hide Classify;
    if strays != [] {
      StraysCleanAway(peer, strays[1..]);
    }
  }

  /** Inserting strays anywhere in the input of either loop is invisible to the peer. */
  lemma InsertedStraysAreInvisible(
    payload: Bytes, t: Terms, peer: Endpoint, s: Sender, r: Receiver,
    before: seq<Event>, strays: seq<Event>, after: seq<Event>)
    requires forall k :: 0 <= k < |strays| ==> !Classify(peer, strays[k]).Deliver?
    ensures var plain := SenderToEnd(payload, t, peer, s, before + after);
      var visited := SenderToEnd(payload, t, peer, s, before + strays + after);
      plain.sender == visited.sender && ToPeer(peer, plain.sent) == ToPeer(peer, visited.sent)
    ensures var plain := ReceiverToEnd(t, peer, r, before + after);
      var visited := ReceiverToEnd(t, peer, r, before + strays + after);
      plain.receiver == visited.receiver && ToPeer(peer, plain.sent) == ToPeer(peer, visited.sent)
  {
    hide *;
    StraysCleanAway(peer, strays);
    CleanSplits(peer, before, after);
    CleanSplits(peer, before + strays, after);
    CleanSplits(peer, before, strays);
    assert Clean(peer, before) + [] == Clean(peer, before);
    SenderIgnoresStrays(payload, t, peer, s, before + after);
    SenderIgnoresStrays(payload, t, peer, s, before + strays + after);
    ReceiverIgnoresStrays(t, peer, r, before + after);
    ReceiverIgnoresStrays(t, peer, r, before + strays + after);
  }
}
