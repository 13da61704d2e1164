/**
 The data loops in the engine's own form
 (adapters/reference/tftp_reference_engine.cpp): a socket object, the
 filtering receive, and the sender and receiver loops over it.  Each loop is
 proved to end exactly as `LockedPeer` says and to send exactly that traffic.
 */
module Engine {
  import opened Basics
  import opened Codec
  import opened DataPlane
  import opened LockedPeer

  /** How one event shows in the results of `receive_from`. */
  predicate Yields(e: Event, received: int, buffer: Bytes, sender: Endpoint) {
    match e
    case Silence => received == 0
    case Fault => received < 0
    case Datagram(source, bytes) => received == |bytes| && buffer == bytes && sender == source
  }

  /** A UDP socket: datagrams still to arrive, and everything sent so far. */
  class UdpSocket {
    var incoming: seq<Event>
    var sent: seq<Sent>

    constructor (script: seq<Event>)
      ensures incoming == script && sent == []
    {
      incoming := script;
      sent := [];
    }

    /** Length received, 0 on timeout, negative on a socket error. */
    method ReceiveFrom() returns (received: int, buffer: Bytes, sender: Endpoint)
      modifies this`incoming
      ensures old(incoming) == [] ==> incoming == [] && received == 0
      ensures old(incoming) != [] ==> incoming == old(incoming)[1..]
      ensures old(incoming) != [] ==> Yields(old(incoming)[0], received, buffer, sender)
    {
      received, buffer, sender := 0, [], Endpoint(0, 0);
      if incoming != [] {
        match incoming[0] {
          case Silence =>
          case Fault => received := -1;
          case Datagram(source, bytes) => received, buffer, sender := |bytes|, bytes, source;
        }
        incoming := incoming[1..];
      }
    }

    method SendTo(bytes: Bytes, to: Endpoint)
      modifies this`sent
      ensures sent == old(sent) + [Sent(to, bytes)]
    {
      sent := sent + [Sent(to, bytes)];
    }
  }

  /** Reading one more event off the front. */
  lemma NextEvent(peer: Endpoint, events: seq<Event>, pending: seq<Event>)
    requires pending != [] && |pending| <= |events| && pending == events[|events| - |pending|..]
    ensures Rebuffs(peer, Consumed(events, pending[1..]))
            == Rebuffs(peer, Consumed(events, pending)) + RebuffOf(peer, pending[0])
    ensures ReceiveLocked(peer, pending)
            == if Classify(peer, pending[0]).Deliver? then (Classify(peer, pending[0]).reading, pending[1..])
               else ReceiveLocked(peer, pending[1..])
  {
    hide Classify, RebuffOf;
    assert Consumed(events, pending[1..]) == Consumed(events, pending) + [pending[0]];
    RebuffsSplit(peer, Consumed(events, pending), [pending[0]]);
    assert Rebuffs(peer, [pending[0]]) == RebuffOf(peer, pending[0]) + [];
  }

  method ReceiveFromLockedPeer(socket: UdpSocket, lockedPeer: Endpoint) returns (reading: Reading)
    modifies socket
    ensures (reading, socket.incoming) == ReceiveLocked(lockedPeer, old(socket.incoming))
    ensures socket.sent == old(socket.sent)
                           + Rebuffs(lockedPeer, Consumed(old(socket.incoming), socket.incoming))
  {
    hide Parse, Encode, Rebuffs, ReceiveLocked;
    ghost var events, before := socket.incoming, socket.sent;
    assert Rebuffs(lockedPeer, Consumed(events, events)) == [] by { EmptyRebuffs(lockedPeer); }
    while true
      invariant |socket.incoming| <= |events|
      invariant socket.incoming == events[|events| - |socket.incoming|..]
      invariant ReceiveLocked(lockedPeer, events) == ReceiveLocked(lockedPeer, socket.incoming)
      invariant socket.sent == before + Rebuffs(lockedPeer, Consumed(events, socket.incoming))
      decreases |socket.incoming|
    {
      ghost var pending := socket.incoming;
      var received, buffer, sender := socket.ReceiveFrom();
      if pending != [] {
        NextEvent(lockedPeer, events, pending);
      }
      if received == 0 {
        return TimedOut;
      }
      if received < 0 {
        return SocketError;
      }
      if sender != lockedPeer {
        socket.SendTo(Encode(Error(UNKNOWN_TRANSFER_ID, "unknown transfer ID")), sender);
        continue;
      }
      var parsed := ParseTftpPacket(buffer);
      if parsed.Ok? {
        return GotPacket(parsed.value);
      }
    }
  }

  lemma EmptyRebuffs(peer: Endpoint)
    ensures Rebuffs(peer, []) == []
  {
  }

  // ------------------------------------------------------------------ Sender

  datatype TransferOutcome = TransferOutcome(
    completedSuccessfully: bool,
    errorCode: Option<U16>,
    errorMessage: string,
    bytesTransferred: nat,
    dataPacketsSent: nat,
    dataPacketsReceived: nat,
    retransmissions: nat,
    timedOut: bool)

  function Report(ending: Ending, role: string, bytes: nat, sent: nat, received: nat, resent: nat): TransferOutcome {
    var failed := TransferOutcome(false, None, "", 0, sent, received, resent, false);
    match ending
    case Completed => failed.(completedSuccessfully := true, bytesTransferred := bytes)
    case GaveUp =>
      failed.(timedOut := true, errorMessage := "gave up after maximum retransmissions (" + role + ")")
    case PeerError(code, message) => failed.(errorCode := Some(code), errorMessage := message)
    case SocketFailed =>
      failed.(errorMessage := if role == "sender" then "socket error while sending"
                              else "socket error while receiving")
  }

  /** What the sender reports of a run that ended so. */
  function SenderOutcome(payload: Bytes, s: Sender): TransferOutcome
    requires s.ending.Some?
  {
    Report(s.ending.value, "sender", |payload|, s.dataPacketsSent, 0, s.retransmissions)
  }

  function ReceiverOutcome(r: Receiver): TransferOutcome
    requires r.phase.Ended?
  {
    Report(r.phase.ending, "receiver", |r.sink|, 0, r.dataPacketsReceived, 0)
  }

  lemma SenderRunTells(payload: Bytes, t: Terms, peer: Endpoint, startingCount: nat, events: seq<Event>)
    ensures var run := SenderToEnd(payload, t, peer, SenderStart(payload, t, startingCount).0, events).sender;
      && run.ending.Some?
      && var outcome := SenderOutcome(payload, run);
         && (outcome.completedSuccessfully <==> run.ending == Some(Completed))
         && (outcome.completedSuccessfully <==> run.lastAcked == SenderTotal(payload, t))
         && (outcome.timedOut <==> run.ending == Some(GaveUp))
         && (match outcome.errorCode
             case Some(code) => run.ending == Some(PeerError(code, outcome.errorMessage))
             case None => !run.ending.value.PeerError?)
         && outcome.bytesTransferred == (if outcome.completedSuccessfully then |payload| else 0)
         && outcome.dataPacketsSent == run.dataPacketsSent == startingCount + run.highestSent
         && outcome.retransmissions == run.retransmissions && outcome.dataPacketsReceived == 0
  {
    hide SenderToEnd, RunSender, SenderReadings, DataTraffic, SenderTotal, ToPeer, SenderStart;
    var start := SenderStart(payload, t, startingCount).0;
    SocketRunIsReadingRun(payload, t, peer, start, events);
    StartCounts(payload, t, startingCount);
    RunKeepsCounts(payload, t, startingCount, start, SenderReadings(payload, t, peer, start, events));
  }

  lemma ReceiverRunTells(t: Terms, peer: Endpoint, start: Receiver, events: seq<Event>)
    ensures var run := ReceiverToEnd(t, peer, start, events).receiver;
      && run.phase.Ended?
      && var outcome := ReceiverOutcome(run);
         && (outcome.completedSuccessfully <==> run.phase == Ended(Completed))
         && (outcome.timedOut <==> run.phase == Ended(GaveUp))
         && (match outcome.errorCode
             case Some(code) => run.phase == Ended(PeerError(code, outcome.errorMessage))
             case None => !run.phase.ending.PeerError?)
         && outcome.bytesTransferred == (if outcome.completedSuccessfully then |run.sink| else 0)
         && outcome.dataPacketsReceived == run.dataPacketsReceived
         && outcome.dataPacketsSent == 0 && outcome.retransmissions == 0
  {
    hide ReceiverToEnd;
    ReceiverEnds(t, peer, start, events);
  }

  /** The texts of a failure that no peer reported; success has none. */
  lemma FailureTexts(payload: Bytes, s: Sender, r: Receiver)
    requires s.ending.Some? && r.phase.Ended?
    ensures var message := SenderOutcome(payload, s).errorMessage;
      && (s.ending == Some(Completed) ==> message == "")
      && (s.ending == Some(GaveUp) ==> message == "gave up after maximum retransmissions (sender)")
      && (s.ending == Some(SocketFailed) ==> message == "socket error while sending")
    ensures var message := ReceiverOutcome(r).errorMessage;
      && (r.phase == Ended(Completed) ==> message == "")
      && (r.phase == Ended(GaveUp) ==> message == "gave up after maximum retransmissions (receiver)")
      && (r.phase == Ended(SocketFailed) ==> message == "socket error while receiving")
  {
    assert "receiver"[0] != "sender"[0];
  }

  /** Sends DATA low + 1 through high and counts them. */
  method SendBlocks(socket: UdpSocket, peer: Endpoint, payload: Bytes, blockSize: Positive,
                    low: nat, high: nat) returns (count: nat)
    modifies socket`sent
    ensures socket.sent == old(socket.sent) + DataTraffic(payload, blockSize, peer, Span(low, high))
    ensures count == |Span(low, high)|
  {
    hide Encode, BlockPayload;
    count := 0;
    var index := low + 1;
    ghost var before := socket.sent;
    ghost var traffic := DataTraffic(payload, blockSize, peer, Span(low, high));
    while index <= high
      invariant index == low + 1 + count && count <= |Span(low, high)|
      invariant socket.sent == before + traffic[..count]
    {
      var data := BlockPayload(payload, index, blockSize);
      socket.SendTo(Encode(Data(WireBlockNumber(index), data)), peer);
      assert traffic[count] == Sent(peer, DataDatagram(payload, blockSize, index));
      assert traffic[..count + 1] == traffic[..count] + [traffic[count]];
      count := count + 1;
      index := index + 1;
    }
    assert traffic[..count] == traffic;
  }

  /** From the top of the sender's loop, with `action` still to be performed. */
  function Resume(payload: Bytes, t: Terms, peer: Endpoint, s: Sender, action: Action,
                  events: seq<Event>): SenderRun
  {
    if s.lastAcked >= SenderTotal(payload, t) then SenderRun(s.(ending := Some(Completed)), [], events)
    else
      var (s', blocks) := Perform(payload, t, s, action);
      var later := SenderToEnd(payload, t, peer, s', events);
      later.(sent := DataTraffic(payload, t.blockSize, peer, blocks) + later.sent)
  }

  function After(sent: seq<Sent>, run: SenderRun): SenderRun {
    run.(sent := sent + run.sent)
  }

  lemma AfterAfter(a: seq<Sent>, b: seq<Sent>, run: SenderRun)
    ensures After(a, After(b, run)) == After(a + b, run)
  {
  }

  lemma HandleEnds(payload: Bytes, t: Terms, s: Sender, reading: Reading)
    requires s.ending.None? && s.lastAcked < SenderTotal(payload, t)
    ensures var h := Handle(payload, t, s, reading).0;
      && (h.ending.None? ==> h.lastAcked < SenderTotal(payload, t))
      && (h.ending == Some(Completed) ==> h.lastAcked >= SenderTotal(payload, t))
  {
  }

  lemma PerformKeeps(payload: Bytes, t: Terms, s: Sender, action: Action)
    ensures var s' := Perform(payload, t, s, action).0;
      s'.ending == s.ending && s'.lastAcked == s.lastAcked
  {
  }

  /** One turn of the loop: perform, receive, handle, and resume. */
  lemma ResumeTurn(payload: Bytes, t: Terms, peer: Endpoint, s: Sender, action: Action, events: seq<Event>)
    requires s.ending.None? && s.lastAcked < SenderTotal(payload, t)
    ensures var (s', blocks) := Perform(payload, t, s, action);
      var (reading, rest) := ReceiveLocked(peer, events);
      var (h, next) := Handle(payload, t, s', reading);
      var sent := DataTraffic(payload, t.blockSize, peer, blocks) + Rebuffs(peer, Consumed(events, rest));
      Resume(payload, t, peer, s, action, events) ==
      if h.ending.Some? && h.ending.value != Completed then SenderRun(h, sent, rest)
      else After(sent, Resume(payload, t, peer, h.(ending := None), next, rest))
  {
    hide ReceiveLocked, Rebuffs, SenderTotal, Handle, Perform, Consumed;
    var (s', blocks) := Perform(payload, t, s, action);
    PerformKeeps(payload, t, s, action);
    var (reading, rest) := ReceiveLocked(peer, events);
    var (h, next) := Handle(payload, t, s', reading);
    HandleEnds(payload, t, s', reading);
    var traffic := DataTraffic(payload, t.blockSize, peer, blocks);
    var rebuffs := Rebuffs(peer, Consumed(events, rest));
    if h.ending.Some? {
      assert SenderStep(payload, t, s', reading) == (h, []);
      assert DataTraffic(payload, t.blockSize, peer, []) == [];
      assert SenderToEnd(payload, t, peer, s', events) == SenderRun(h, rebuffs + [] + [], rest);
      assert traffic + (rebuffs + [] + []) == traffic + rebuffs;
      assert traffic + rebuffs + [] == traffic + rebuffs;
    } else {
      var (u, more) := Perform(payload, t, h, next);
      assert h.(ending := None) == h;
      assert SenderStep(payload, t, s', reading) == (u, more);
      var later := SenderToEnd(payload, t, peer, u, rest);
      var moreTraffic := DataTraffic(payload, t.blockSize, peer, more);
      assert SenderToEnd(payload, t, peer, s', events) ==
             SenderRun(later.sender, rebuffs + moreTraffic + later.sent, later.rest);
      assert traffic + (rebuffs + moreTraffic + later.sent) == traffic + rebuffs + (moreTraffic + later.sent);
    }
  }

  /** The sends at the top of the sender's loop. */
  method PerformAction(socket: UdpSocket, peer: Endpoint, payload: Bytes, t: Terms, s: Sender, action: Action)
    returns (highestSent: nat, dataPacketsSent: nat, retransmissions: nat)
    modifies socket`sent
    ensures var (s', blocks) := Perform(payload, t, s, action);
      && s' == s.(highestSent := highestSent, dataPacketsSent := dataPacketsSent, retransmissions := retransmissions)
      && socket.sent == old(socket.sent) + DataTraffic(payload, t.blockSize, peer, blocks)
  {
    highestSent, dataPacketsSent, retransmissions := s.highestSent, s.dataPacketsSent, s.retransmissions;
    match action {
      case SendNew =>
        var windowEdge := Min(s.lastAcked + Max(t.windowSize, 1), SenderTotal(payload, t));
        var count := SendBlocks(socket, peer, payload, t.blockSize, highestSent, windowEdge);
        dataPacketsSent := dataPacketsSent + count;
        highestSent := Max(highestSent, windowEdge);
      case Rollback =>
        var count := SendBlocks(socket, peer, payload, t.blockSize, s.lastAcked, highestSent);
        retransmissions := retransmissions + count;
      case WaitOnly =>
    }
  }

  /** The top of the sender's loop up to the reading, with what it means for the run. */
  method SenderTurn(socket: UdpSocket, peer: Endpoint, payload: Bytes, t: Terms, s: Sender, action: Action,
                    ghost before: seq<Sent>, ghost sent: seq<Sent>)
    returns (highestSent: nat, dataPacketsSent: nat, retransmissions: nat, reading: Reading,
             ghost sent': seq<Sent>)
    requires s.ending.None? && s.lastAcked < SenderTotal(payload, t) && socket.sent == before + sent
    modifies socket
    ensures reading == ReceiveLocked(peer, old(socket.incoming)).0
    ensures old(socket.incoming) != [] ==> |socket.incoming| < |old(socket.incoming)|
    ensures old(socket.incoming) == [] ==> socket.incoming == [] && reading == TimedOut
    ensures socket.sent == before + sent'
    ensures var s' := s.(highestSent := highestSent, dataPacketsSent := dataPacketsSent,
                         retransmissions := retransmissions);
      var (h, next) := Handle(payload, t, s', reading);
      After(sent, Resume(payload, t, peer, s, action, old(socket.incoming))) ==
      if h.ending.Some? && h.ending.value != Completed then SenderRun(h, sent', socket.incoming)
      else After(sent', Resume(payload, t, peer, h.(ending := None), next, socket.incoming))
  {
    hide ReceiveLocked, Rebuffs, Consumed, SenderToEnd, DataTraffic, Perform, Resume, SenderTotal, Handle;
    ghost var pending := socket.incoming;
    ResumeTurn(payload, t, peer, s, action, pending);
    ghost var (performed, blocks) := Perform(payload, t, s, action);
    highestSent, dataPacketsSent, retransmissions := PerformAction(socket, peer, payload, t, s, action);
    reading := ReceiveFromLockedPeer(socket, peer);
    ghost var turn := DataTraffic(payload, t.blockSize, peer, blocks)
                      + Rebuffs(peer, Consumed(pending, socket.incoming));
    sent' := sent + turn;
    assert socket.sent == before + sent';
    ghost var (h, next) := Handle(payload, t, performed, reading);
    AfterAfter(sent, turn, Resume(payload, t, peer, h.(ending := None), next, socket.incoming));
  }

  method RunDataSender(socket: UdpSocket, peer: Endpoint, payload: Bytes, t: Terms, startingCount: nat)
    returns (outcome: TransferOutcome)
    modifies socket
    ensures var (start, first) := SenderStart(payload, t, startingCount);
      var run := SenderToEnd(payload, t, peer, start, old(socket.incoming));
      && run.sender.ending.Some? && outcome == SenderOutcome(payload, run.sender)
      && (outcome.completedSuccessfully <==> run.sender.ending == Some(Completed))
      && (outcome.completedSuccessfully <==> run.sender.lastAcked == SenderTotal(payload, t))
      && (outcome.timedOut <==> run.sender.ending == Some(GaveUp))
      && (match outcome.errorCode
          case Some(code) => run.sender.ending == Some(PeerError(code, outcome.errorMessage))
          case None => !run.sender.ending.value.PeerError?)
      && outcome.bytesTransferred == (if outcome.completedSuccessfully then |payload| else 0)
      && outcome.dataPacketsSent == run.sender.dataPacketsSent && outcome.dataPacketsReceived == 0
      && outcome.retransmissions == run.sender.retransmissions
      && socket.sent == old(socket.sent) + (DataTraffic(payload, t.blockSize, peer, first) + run.sent)
      && socket.incoming == run.rest
  {
    hide ReceiveLocked, Rebuffs, Consumed, SenderToEnd, DataTraffic, Perform, Resume, SenderTotal, ResolveAck, Report, After;
    SenderRunTells(payload, t, peer, startingCount, socket.incoming);
    var totalBlocks := SenderTotal(payload, t);
    var lastAcked: nat, highestSent: nat, consecutiveTimeouts: nat := 0, 0, 0;
    var dataPacketsSent: nat, retransmissions: nat := startingCount, 0;
    var action := SendNew;

    ghost var before, sent: seq<Sent> := socket.sent, [];
    var s := Sender(0, 0, 0, startingCount, 0, None);
    ghost var goal := Resume(payload, t, peer, s, SendNew, socket.incoming);
    GoalOfRun(payload, t, peer, startingCount, socket.incoming);
    while lastAcked < totalBlocks
      invariant s == Sender(lastAcked, highestSent, consecutiveTimeouts, dataPacketsSent, retransmissions, None)
      invariant socket.sent == before + sent
      invariant goal == After(sent, Resume(payload, t, peer, s, action, socket.incoming))
      decreases |socket.incoming|, totalBlocks - lastAcked,
                t.config.maximumRetransmissions - consecutiveTimeouts
    {
      var reading;
      highestSent, dataPacketsSent, retransmissions, reading, sent :=
        SenderTurn(socket, peer, payload, t, s, action, before, sent);
      match reading {
        case SocketError =>
          return Report(SocketFailed, "sender", |payload|, dataPacketsSent, 0, retransmissions);
        case TimedOut =>
          consecutiveTimeouts := consecutiveTimeouts + 1;
          if consecutiveTimeouts > t.config.maximumRetransmissions {
            return Report(GaveUp, "sender", |payload|, dataPacketsSent, 0, retransmissions);
          }
          action := Rollback;
        case GotPacket(Error(code, message)) =>
          return Report(PeerError(code, message), "sender", |payload|, dataPacketsSent, 0, retransmissions);
        case GotPacket(Acknowledgement(wire)) =>
          var acked := ResolveAckToAbsolute(wire, lastAcked, highestSent);
          if acked > lastAcked {
            lastAcked := acked;
            consecutiveTimeouts := 0;
            action := SendNew;
          } else {
            action := if t.config.quirks.retransmitOnDuplicateAck then Rollback else WaitOnly;
          }
        case GotPacket(_) =>
          action := WaitOnly;
      }
      s := Sender(lastAcked, highestSent, consecutiveTimeouts, dataPacketsSent, retransmissions, None);
    }
    CompletedResume(payload, t, peer, s, action, socket.incoming, sent);
    return Report(Completed, "sender", |payload|, dataPacketsSent, 0, retransmissions);
  }

  lemma GoalOfRun(payload: Bytes, t: Terms, peer: Endpoint, startingCount: nat, events: seq<Event>)
    ensures var (start, first) := SenderStart(payload, t, startingCount);
      var run := SenderToEnd(payload, t, peer, start, events);
      var goal := Resume(payload, t, peer, Sender(0, 0, 0, startingCount, 0, None), SendNew, events);
      && goal == run.(sent := DataTraffic(payload, t.blockSize, peer, first) + run.sent)
      && goal == After([], goal)
  {
    hide SenderToEnd, DataTraffic;
  }

  lemma CompletedResume(payload: Bytes, t: Terms, peer: Endpoint, s: Sender, action: Action, events: seq<Event>,
                        sent: seq<Sent>)
    requires s.lastAcked >= SenderTotal(payload, t)
    ensures After(sent, Resume(payload, t, peer, s, action, events))
            == SenderRun(s.(ending := Some(Completed)), sent, events)
  {
    assert sent + [] == sent;
  }

  // ---------------------------------------------------------------- Receiver

  function Preceded(sent: seq<Sent>, run: ReceiverRun): ReceiverRun {
    run.(sent := sent + run.sent)
  }

  lemma ReceiverTurn(t: Terms, peer: Endpoint, r: Receiver, events: seq<Event>)
    requires !r.phase.Ended?
    ensures var (reading, rest) := ReceiveLocked(peer, events);
      var (r', blocks) := ReceiverStep(t, r, reading);
      ReceiverToEnd(t, peer, r, events) ==
      Preceded(Rebuffs(peer, Consumed(events, rest)) + AckTraffic(peer, blocks),
               ReceiverToEnd(t, peer, r', rest))
  {
    hide ReceiveLocked, Rebuffs, ReceiverStep, Consumed, AckTraffic;
  }

  method SendAck(socket: UdpSocket, peer: Endpoint, index: nat)
    modifies socket`sent
    ensures socket.sent == old(socket.sent) + AckTraffic(peer, [index])
  {
    socket.SendTo(Encode(Acknowledgement(WireBlockNumber(index))), peer);
  }

  /** The state of the receiver's locals between turns, for the specification. */
  function Locals(last: nat, since: nat, timeouts: nat, sink: Bytes, received: nat): Receiver {
    Receiver(last, since, timeouts, sink, received, 0, Receiving)
  }

  /** The receive at the top of the receiver's loops, with what it means for the run. */
  method NextReading(socket: UdpSocket, peer: Endpoint, t: Terms, ghost r: Receiver,
                     ghost before: seq<Sent>, ghost sent: seq<Sent>)
    returns (reading: Reading, ghost sent': seq<Sent>)
    requires !r.phase.Ended? && socket.sent == before + sent
    modifies socket
    ensures reading == ReceiveLocked(peer, old(socket.incoming)).0
    ensures old(socket.incoming) != [] ==> |socket.incoming| < |old(socket.incoming)|
    ensures old(socket.incoming) == [] ==> socket.incoming == [] && reading == TimedOut
    ensures socket.sent == before + sent'
    ensures var (r', blocks) := ReceiverStep(t, r, reading);
      Preceded(sent, ReceiverToEnd(t, peer, r, old(socket.incoming)))
      == Preceded(sent' + AckTraffic(peer, blocks), ReceiverToEnd(t, peer, r', socket.incoming))
  {
    hide *;
    ghost var events := socket.incoming;
    ReceiverTurn(t, peer, r, events);
    reading := ReceiveFromLockedPeer(socket, peer);
    ghost var rebuffs := Rebuffs(peer, Consumed(events, socket.incoming));
    ghost var (r', blocks) := ReceiverStep(t, r, reading);
    PrecededTwice(sent, rebuffs, AckTraffic(peer, blocks), ReceiverToEnd(t, peer, r', socket.incoming));
    assert before + sent + rebuffs == before + (sent + rebuffs);
    sent' := sent + rebuffs;
  }

  /** One DATA packet in the receiver's loop; `final` when it ended the transfer. */
  method TakeData(socket: UdpSocket, peer: Endpoint, t: Terms, r: Receiver, wire: U16, data: Bytes)
    returns (lastInSequence: nat, blocksSinceAck: nat, sink: Bytes, dataPacketsReceived: nat, final: bool)
    requires r.phase == Receiving
    modifies socket`sent
    ensures var (r', acks) := HandleData(t, r, wire, data);
      && r' == r.(lastInSequence := lastInSequence, blocksSinceAck := blocksSinceAck, sink := sink,
                  dataPacketsReceived := dataPacketsReceived, phase := if final then Dallying else Receiving)
      && socket.sent == old(socket.sent) + AckTraffic(peer, acks)
  {
    hide Encode, ResolveData, AckTraffic;
    EmptyAcks(peer);
    lastInSequence, blocksSinceAck, sink, dataPacketsReceived, final :=
      r.lastInSequence, r.blocksSinceAck, r.sink, r.dataPacketsReceived, false;
    var window := Max(t.windowSize, 1);
    var absolute := ResolveDataToAbsolute(wire, lastInSequence, t.windowSize);
    if absolute == lastInSequence + 1 {
      sink := sink + data;
      lastInSequence := lastInSequence + 1;
      dataPacketsReceived := dataPacketsReceived + 1;
      blocksSinceAck := blocksSinceAck + 1;
      if |data| < t.blockSize {
        SendAck(socket, peer, lastInSequence);
        final := true;
      } else if blocksSinceAck >= window {
        SendAck(socket, peer, lastInSequence);
        blocksSinceAck := 0;
      }
    } else if absolute != 0 && absolute <= lastInSequence {
      SendAck(socket, peer, lastInSequence);
      blocksSinceAck := 0;
    } else if t.config.quirks.acceptOutOfSequenceData && absolute != 0 {
      sink := sink + data;
      lastInSequence := absolute;
      dataPacketsReceived := dataPacketsReceived + 1;
      SendAck(socket, peer, lastInSequence);
      final := |data| < t.blockSize;
    } else {
      SendAck(socket, peer, lastInSequence);
      blocksSinceAck := 0;
    }
  }

  /** Linger after the final block: at most four more packets, or until nothing comes. */
  method Dally(socket: UdpSocket, peer: Endpoint, t: Terms, ghost start: Receiver, lastInSequence: nat)
    requires start.phase == Dallying && start.lastInSequence == lastInSequence && start.dallied == 0
    modifies socket
    ensures var run := ReceiverToEnd(t, peer, start, old(socket.incoming));
      && run.receiver == start.(dallied := run.receiver.dallied, phase := Ended(Completed))
      && socket.sent == old(socket.sent) + run.sent
      && socket.incoming == run.rest
  {
    hide ReceiveLocked, Rebuffs, Consumed, ReceiverToEnd, AckTraffic;
    ghost var goal := ReceiverToEnd(t, peer, start, socket.incoming);
    ghost var r, before, sent: seq<Sent> := start, socket.sent, [];
    assert goal == Preceded(sent, goal);
    EmptyAcks(peer);
    var dally := 0;
    while dally < DALLY_LIMIT
      invariant 0 <= dally <= DALLY_LIMIT
      invariant r == start.(dallied := dally, phase := if dally < DALLY_LIMIT then Dallying else Ended(Completed))
      invariant socket.sent == before + sent
      invariant goal == Preceded(sent, ReceiverToEnd(t, peer, r, socket.incoming))
    {
      var reading;
      reading, sent := NextReading(socket, peer, t, r, before, sent);
      ghost var (r', blocks) := ReceiverStep(t, r, reading);
      assert before + sent + AckTraffic(peer, blocks) == before + (sent + AckTraffic(peer, blocks));
      sent := sent + AckTraffic(peer, blocks);
      r := r';
      if !reading.GotPacket? {
        break;
      }
      if reading.packet.Data? {
        SendAck(socket, peer, lastInSequence);
      }
      dally := dally + 1;
    }
    EndedRun(t, peer, r, socket.incoming);
  }

  /** `goal` is what is sent already, followed by the run from here, a primed packet first. */
  ghost predicate StillToRun(t: Terms, peer: Endpoint, r: Receiver, pending: Option<Packet>, sent: seq<Sent>,
                             events: seq<Event>, goal: ReceiverRun)
  {
    match pending
    case None => goal == Preceded(sent, ReceiverToEnd(t, peer, r, events))
    case Some(packet) =>
      var (r', blocks) := ReceiverStep(t, r, GotPacket(packet));
      goal == Preceded(sent + AckTraffic(peer, blocks), ReceiverToEnd(t, peer, r', events))
  }

  /** The primed packet if there is one, else the next reading. */
  method TakeReading(socket: UdpSocket, peer: Endpoint, t: Terms, pending: Option<Packet>, ghost r: Receiver,
                     ghost before: seq<Sent>, ghost sent: seq<Sent>, ghost goal: ReceiverRun)
    returns (reading: Reading, ghost sent': seq<Sent>)
    requires !r.phase.Ended? && socket.sent == before + sent
    requires StillToRun(t, peer, r, pending, sent, socket.incoming, goal)
    modifies socket
    ensures pending.Some? ==> reading == GotPacket(pending.value) && socket.incoming == old(socket.incoming)
    ensures pending.None? && old(socket.incoming) != [] ==> |socket.incoming| < |old(socket.incoming)|
    ensures pending.None? && old(socket.incoming) == [] ==> socket.incoming == [] && reading == TimedOut
    ensures socket.sent == before + sent'
    ensures var (r', blocks) := ReceiverStep(t, r, reading);
      goal == Preceded(sent' + AckTraffic(peer, blocks), ReceiverToEnd(t, peer, r', socket.incoming))
  {
    hide ReceiverStep, ReceiverToEnd, AckTraffic, Preceded;
    if pending.Some? {
      reading, sent' := GotPacket(pending.value), sent;
    } else {
      reading, sent' := NextReading(socket, peer, t, r, before, sent);
    }
  }

  method RunDataReceiver(socket: UdpSocket, peer: Endpoint, t: Terms,
                         firstExpectedBlock: Positive, primed: Option<Packet>)
    returns (outcome: TransferOutcome, sink: Bytes)
    modifies socket
    ensures var (start, acks) := match primed
              case None => (ReceiverStart(firstExpectedBlock), [])
              case Some(packet) => ReceiverStep(t, ReceiverStart(firstExpectedBlock), GotPacket(packet));
      var run := ReceiverToEnd(t, peer, start, old(socket.incoming));
      && run.receiver.phase.Ended?
      && outcome == ReceiverOutcome(run.receiver) && sink == run.receiver.sink
      && (outcome.completedSuccessfully <==> run.receiver.phase == Ended(Completed))
      && (outcome.timedOut <==> run.receiver.phase == Ended(GaveUp))
      && (match outcome.errorCode
          case Some(code) => run.receiver.phase == Ended(PeerError(code, outcome.errorMessage))
          case None => !run.receiver.phase.ending.PeerError?)
      && outcome.bytesTransferred == (if outcome.completedSuccessfully then |sink| else 0)
      && outcome.dataPacketsReceived == run.receiver.dataPacketsReceived
      && outcome.dataPacketsSent == 0 && outcome.retransmissions == 0
      && socket.sent == old(socket.sent) + (AckTraffic(peer, acks) + run.sent)
      && socket.incoming == run.rest
  {
    hide ReceiveLocked, Rebuffs, Consumed, ReceiverToEnd, AckTraffic, HandleData, Preceded, Report, DallyStep;
    sink := [];
    var lastInSequence: nat, blocksSinceAck: nat, consecutiveTimeouts: nat := firstExpectedBlock - 1, 0, 0;
    var dataPacketsReceived: nat := 0;
    var pending := primed;

    ghost var before, sent: seq<Sent> := socket.sent, [];
    ghost var r := ReceiverStart(firstExpectedBlock);
    ghost var (start, acks) := match primed
      case None => (r, [])
      case Some(packet) => ReceiverStep(t, r, GotPacket(packet));
    ghost var goal := Preceded(AckTraffic(peer, acks), ReceiverToEnd(t, peer, start, socket.incoming));
    ReceiverRunTells(t, peer, start, socket.incoming);
    EmptyAcks(peer);
    PrecededParts(AckTraffic(peer, acks), ReceiverToEnd(t, peer, start, socket.incoming));
    assert [] + AckTraffic(peer, acks) == AckTraffic(peer, acks);

    while true
      invariant r == Locals(lastInSequence, blocksSinceAck, consecutiveTimeouts, sink, dataPacketsReceived)
      invariant socket.sent == before + sent
      invariant StillToRun(t, peer, r, pending, sent, socket.incoming, goal)
      decreases pending.Some?, |socket.incoming|, t.config.maximumRetransmissions - consecutiveTimeouts
    {
      var reading;
      reading, sent := TakeReading(socket, peer, t, pending, r, before, sent, goal);
      pending := None;
      ghost var (r', blocks) := ReceiverStep(t, r, reading);
      assert before + sent + AckTraffic(peer, blocks) == before + (sent + AckTraffic(peer, blocks));
      sent := sent + AckTraffic(peer, blocks);
      r := r';
      if r.phase.Ended? {
        EndedRun(t, peer, r, socket.incoming);
        PrecededParts(sent, ReceiverRun(r, [], socket.incoming));
        assert sent + [] == sent;
      }

      match reading {
        case SocketError =>
          return Report(SocketFailed, "receiver", |sink|, 0, dataPacketsReceived, 0), sink;
        case TimedOut =>
          consecutiveTimeouts := consecutiveTimeouts + 1;
          if consecutiveTimeouts > t.config.maximumRetransmissions {
            return Report(GaveUp, "receiver", |sink|, 0, dataPacketsReceived, 0), sink;
          }
          SendAck(socket, peer, lastInSequence);
        case GotPacket(Error(code, message)) =>
          return Report(PeerError(code, message), "receiver", |sink|, 0, dataPacketsReceived, 0), sink;
        case GotPacket(Data(wire, data)) =>
          consecutiveTimeouts := 0;
          var final;
          lastInSequence, blocksSinceAck, sink, dataPacketsReceived, final :=
            TakeData(socket, peer, t,
                     Locals(lastInSequence, blocksSinceAck, consecutiveTimeouts, sink, dataPacketsReceived),
                     wire, data);
          if final {
            break;
          }
        case GotPacket(_) =>
      }
    }
    PrecededParts(sent, ReceiverToEnd(t, peer, r, socket.incoming));
    Dally(socket, peer, t, r, lastInSequence);
    return Report(Completed, "receiver", |sink|, 0, dataPacketsReceived, 0), sink;
  }

  lemma {:induction false} ReceiverEnds(t: Terms, peer: Endpoint, r: Receiver, events: seq<Event>)
    ensures ReceiverToEnd(t, peer, r, events).receiver.phase.Ended?
    decreases |events|, ReceiverPatienceLeft(t, r)
  {
    hide ReceiverStep, Classify;
    if !r.phase.Ended? {
      SilenceTiresReceiver(t, r);
      var (reading, rest) := ReceiveLocked(peer, events);
      ReceiverEnds(t, peer, ReceiverStep(t, r, reading).0, rest);
    }
  }

  lemma PrecededParts(a: seq<Sent>, run: ReceiverRun)
    ensures Preceded(a, run) == ReceiverRun(run.receiver, a + run.sent, run.rest)
  {
  }

  lemma PrecededTwice(a: seq<Sent>, b: seq<Sent>, c: seq<Sent>, run: ReceiverRun)
    ensures Preceded(a, Preceded(b + c, run)) == Preceded(a + b + c, run)
  {
    assert a + (b + c + run.sent) == a + b + c + run.sent;
  }

  lemma EndedRun(t: Terms, peer: Endpoint, r: Receiver, events: seq<Event>)
    requires r.phase.Ended?
    ensures ReceiverToEnd(t, peer, r, events) == ReceiverRun(r, [], events)
  {
  }

  lemma EmptyAcks(peer: Endpoint)
    ensures AckTraffic(peer, []) == []
  {
  }
}
