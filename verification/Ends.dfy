/**
 A joint run and the two loops on their own sockets: what either loop does over
 a schedule, silence to the end included, is what the joint run says.
 */
module Ends {
  import opened Basics
  import opened Codec
  import opened DataPlane
  import opened LockedPeer
  import opened Network
  import opened Delivery
  import Engine

  // ------------------------------------- A schedule as two sockets see it

  /** What the sender's socket delivers, in order, over a schedule. */
  function SenderEvents(link: Link, moves: seq<Move>): seq<Event> {
    if moves == [] then []
    else
      (match moves[0]
       case ToSender(e) => [e]
       case DeliverAck(index, damage) =>
         if OpcodeBit(damage) then [AckEvent(link, index, damage)] else []
       case _ => [])
      + SenderEvents(link, moves[1..])
  }

  /** What the receiver's socket delivers. */
  function ReceiverEvents(link: Link, moves: seq<Move>): seq<Event> {
    if moves == [] then []
    else
      (match moves[0]
       case ToReceiver(e) => [e]
       case DeliverData(index, damage) =>
         if OpcodeBit(damage) then [DataEvent(link, index, damage)] else []
       case _ => [])
      + ReceiverEvents(link, moves[1..])
  }

  function SenderAfterEvent(link: Link, s: Sender, e: Event): Sender {
    match Classify(link.receiverTid, e)
    case Deliver(reading) => SenderStep(link.payload, link.sender, s, reading).0
    case _ => s
  }

  function ReceiverAfterEvent(link: Link, r: Receiver, e: Event): Receiver {
    match Classify(link.senderTid, e)
    case Deliver(reading) => ReceiverStep(link.receiver, r, reading).0
    case _ => r
  }

  /** Where `run_data_sender` ends when these events come in, and then silence. */
  function SenderEnds(link: Link, s: Sender, events: seq<Event>): Sender {
    SenderToEnd(link.payload, link.sender, link.receiverTid, s, events).sender
  }

  /** Where `run_data_receiver` ends. */
  function ReceiverEnds(link: Link, r: Receiver, events: seq<Event>): Receiver {
    ReceiverToEnd(link.receiver, link.senderTid, r, events).receiver
  }

  lemma SenderEndsAfterOne(link: Link, s: Sender, e: Event, events: seq<Event>)
    ensures SenderEnds(link, s, [e] + events) == SenderEnds(link, SenderAfterEvent(link, s, e), events)
  {
    hide Classify, Handle, Perform, Rebuffs, DataTraffic;
    assert ([e] + events)[1..] == events;
  }

  lemma ReceiverEndsAfterOne(link: Link, r: Receiver, e: Event, events: seq<Event>)
    ensures ReceiverEnds(link, r, [e] + events) == ReceiverEnds(link, ReceiverAfterEvent(link, r, e), events)
  {
    hide Classify, ReceivingStep, DallyStep, Rebuffs, AckTraffic;
    assert ([e] + events)[1..] == events;
  }

  lemma OneMoveAtEachEnd(link: Link, j: Joint, m: Move)
    requires Possible(link, j, m)
    ensures var k := Apply(link, j, m);
      && (match m
          case ToSender(e) => k.s == SenderAfterEvent(link, j.s, e) && k.r == j.r
          case ToReceiver(e) => k.r == ReceiverAfterEvent(link, j.r, e) && k.s == j.s
          case DeliverData(index, damage) => k.r == ReceiverAfterEvent(link, j.r, DataEvent(link, index, damage)) && k.s == j.s
          case DeliverAck(index, damage) => k.s == SenderAfterEvent(link, j.s, AckEvent(link, index, damage)) && k.r == j.r)
  {
    hide Classify, SenderStep, ReceiverStep, DataEvent, AckEvent;
  }

  /** A joint run is the sender's own run over what its socket delivered. */
  lemma {:induction false} SenderProjects(link: Link, j: Joint, moves: seq<Move>)
    requires Admissible(link, j, moves)
    ensures SenderEnds(link, j.s, SenderEvents(link, moves)) == SenderEnds(link, Exec(link, j, moves).s, [])
    decreases |moves|
  {
    hide SenderEnds, SenderAfterEvent, ReceiverAfterEvent, AckEvent, DataEvent, Apply;
    if moves != [] {
      OneMoveAtEachEnd(link, j, moves[0]);
      var events := SenderEvents(link, moves[1..]);
      SenderProjects(link, Apply(link, j, moves[0]), moves[1..]);
      match moves[0] {
        case ToSender(e) => SenderEndsAfterOne(link, j.s, e, events);
        case DeliverAck(index, damage) => SenderEndsAfterOne(link, j.s, AckEvent(link, index, damage), events);
        case _ => assert [] + events == events;
      }
    }
  }

  lemma {:induction false} ReceiverProjects(link: Link, j: Joint, moves: seq<Move>)
    requires Admissible(link, j, moves)
    ensures ReceiverEnds(link, j.r, ReceiverEvents(link, moves)) == ReceiverEnds(link, Exec(link, j, moves).r, [])
    decreases |moves|
  {
    hide ReceiverEnds, SenderAfterEvent, ReceiverAfterEvent, AckEvent, DataEvent, Apply;
    if moves != [] {
      OneMoveAtEachEnd(link, j, moves[0]);
      var events := ReceiverEvents(link, moves[1..]);
      ReceiverProjects(link, Apply(link, j, moves[0]), moves[1..]);
      match moves[0] {
        case ToReceiver(e) => ReceiverEndsAfterOne(link, j.r, e, events);
        case DeliverData(index, damage) => ReceiverEndsAfterOne(link, j.r, DataEvent(link, index, damage), events);
        case _ => assert [] + events == events;
      }
    }
  }

  // ---------------------------------------------------- Silence to the end

  lemma OneSilence(link: Link, s: Sender)
    requires s.ending.None?
    ensures SenderEnds(link, s, []) == SenderEnds(link, SenderStep(link.payload, link.sender, s, TimedOut).0, [])
  {
    hide SenderStep, Rebuffs, DataTraffic;
  }

  lemma SilenceOnlyTires(link: Link, s: Sender)
    requires s.ending.None?
    ensures var next := SenderStep(link.payload, link.sender, s, TimedOut).0;
      next.ending.None? || next.ending == Some(GaveUp)
  {
    hide SenderTotal, Span;
  }

  /** A sender left alone gives up; one that has ended stays as it is. */
  lemma {:induction false} SilentSender(link: Link, s: Sender)
    ensures SenderEnds(link, s, []).ending == if s.ending.Some? then s.ending else Some(GaveUp)
    decreases SenderPatienceLeft(link.sender, s)
  {
    hide SenderStep, SenderPatienceLeft, Rebuffs, DataTraffic;
    if s.ending.None? {
      SilenceTiresSender(link.payload, link.sender, s);
      OneSilence(link, s);
      SilenceOnlyTires(link, s);
      SilentSender(link, SenderStep(link.payload, link.sender, s, TimedOut).0);
      hide SenderEnds;
    }
  }

  /** A receiver left alone gives up, or succeeds if it only lingers; it receives nothing more. */
  lemma {:induction false} SilentReceiver(link: Link, r: Receiver)
    ensures var end := ReceiverEnds(link, r, []);
      && end.sink == r.sink
      && end.phase == match r.phase
                      case Receiving => Ended(GaveUp)
                      case Dallying => Ended(Completed)
                      case Ended(_) => r.phase
    decreases ReceiverPatienceLeft(link.receiver, r)
  {
    if !r.phase.Ended? {
      SilenceTiresReceiver(link.receiver, r);
      SilentReceiver(link, ReceiverStep(link.receiver, r, TimedOut).0);
    }
  }

  /** Where `run_data_sender` ends over a schedule, from its own start. */
  function FinalSender(link: Link, moves: seq<Move>): Sender {
    SenderEnds(link, SenderStart(link.payload, link.sender, 0).0, SenderEvents(link, moves))
  }

  function FinalReceiver(link: Link, moves: seq<Move>): Receiver {
    ReceiverEnds(link, ReceiverStart(1), ReceiverEvents(link, moves))
  }

  /** Either loop ends in success exactly if it has succeeded in the joint run, with the sink it has there. */
  lemma FinalsAreReached(link: Link, moves: seq<Move>)
    requires Admissible(link, Start(link), moves)
    ensures var j, s, r := Exec(link, Start(link), moves), FinalSender(link, moves), FinalReceiver(link, moves);
      && (s.ending == Some(Completed) <==> j.s.ending == Some(Completed))
      && (r.phase == Ended(Completed) <==> ReceiverSucceeds(j.r))
      && r.phase.Ended? && s.ending.Some? && r.sink == j.r.sink
  {
    hide *;
    StartsTogether(link);
    SenderProjects(link, Start(link), moves);
    ReceiverProjects(link, Start(link), moves);
    var j := Exec(link, Start(link), moves);
    SilentSender(link, j.s);
    SilentReceiver(link, j.r);
    FinalsUnfolded(link, moves);
    SucceedsInPhase(j.r);
  }

  lemma StartsTogether(link: Link)
    ensures Start(link).s == SenderStart(link.payload, link.sender, 0).0 && Start(link).r == ReceiverStart(1)
  {
  }

  lemma FinalsUnfolded(link: Link, moves: seq<Move>)
    ensures FinalSender(link, moves)
            == SenderEnds(link, SenderStart(link.payload, link.sender, 0).0, SenderEvents(link, moves))
    ensures FinalReceiver(link, moves) == ReceiverEnds(link, ReceiverStart(1), ReceiverEvents(link, moves))
  {
    hide SenderEnds, ReceiverEnds;
  }

  lemma SucceedsInPhase(r: Receiver)
    ensures ReceiverSucceeds(r) <==> r.phase == Dallying || r.phase == Ended(Completed)
  {
  }

  /** What `run_data_sender` reports over a schedule, and what `run_data_receiver` does. */
  function SenderReport(link: Link, moves: seq<Move>): Engine.TransferOutcome
    requires Admissible(link, Start(link), moves)
  {
    FinalsAreReached(link, moves);
    Engine.SenderOutcome(link.payload, FinalSender(link, moves))
  }

  function ReceiverReport(link: Link, moves: seq<Move>): Engine.TransferOutcome
    requires Admissible(link, Start(link), moves)
  {
    FinalsAreReached(link, moves);
    Engine.ReceiverOutcome(FinalReceiver(link, moves))
  }

  lemma ReportsTell(link: Link, moves: seq<Move>)
    requires Admissible(link, Start(link), moves)
    ensures var s, r := SenderReport(link, moves), ReceiverReport(link, moves);
      && (s.completedSuccessfully <==> FinalSender(link, moves).ending == Some(Completed))
      && (r.completedSuccessfully <==> FinalReceiver(link, moves).phase == Ended(Completed))
      && s.bytesTransferred == (if s.completedSuccessfully then |link.payload| else 0)
      && r.bytesTransferred == (if r.completedSuccessfully then |FinalReceiver(link, moves).sink| else 0)
  {
    hide FinalSender, FinalReceiver;
    FinalsAreReached(link, moves);
    FinalsUnfolded(link, moves);
    Engine.SenderRunTells(link.payload, link.sender, link.receiverTid, 0, SenderEvents(link, moves));
    Engine.ReceiverRunTells(link.receiver, link.senderTid, ReceiverStart(1), ReceiverEvents(link, moves));
  }

  /**
   The two loops, each run to its end on its own socket, over any schedule of an
   impaired network: the sink is a prefix of the payload, and all of it when
   either end succeeds; and the sender succeeds only after the receiver if its
   last block ends the receiver.
   */
  lemma EndsAreSafe(link: Link, moves: seq<Move>)
    requires Sound(link) && Covered(link, moves)
    ensures var s, r := FinalSender(link, moves), FinalReceiver(link, moves);
      && r.sink <= link.payload
      && (s.ending == Some(Completed) || r.phase == Ended(Completed) ==> r.sink == link.payload)
      && (LastBlockEnds(link) && s.ending == Some(Completed) ==> r.phase == Ended(Completed))
  {
    hide FinalSender, FinalReceiver, Exec, AllFresh, Sound, Invariant, LastBlockEnds, ReceiverSucceeds;
    StartInvariant(link);
    ExecKeepsInvariant(link, Start(link), moves);
    InvariantIsSafe(link, Exec(link, Start(link), moves));
    FinalsAreReached(link, moves);
    if LastBlockEnds(link) {
      SuccessIsReceiptOn(link, moves);
    }
  }

  /** And so with what they report: an outcome of success means that the payload was delivered, and tells its size. */
  lemma ReportsAreSafe(link: Link, moves: seq<Move>)
    requires Sound(link) && Covered(link, moves)
    ensures SenderReport(link, moves).completedSuccessfully || ReceiverReport(link, moves).completedSuccessfully ==>
              FinalReceiver(link, moves).sink == link.payload
    ensures SenderReport(link, moves).completedSuccessfully ==>
              SenderReport(link, moves).bytesTransferred == |link.payload|
    ensures ReceiverReport(link, moves).completedSuccessfully ==>
              ReceiverReport(link, moves).bytesTransferred == |link.payload|
    ensures LastBlockEnds(link) && SenderReport(link, moves).completedSuccessfully ==>
              ReceiverReport(link, moves).completedSuccessfully
  {
    hide SenderReport, ReceiverReport, FinalSender, FinalReceiver, LastBlockEnds, Sound;
    ReportsTell(link, moves);
    EndsAreSafe(link, moves);
  }

  /** And if its last block does not, on some schedule the sender succeeds and the receiver gives up. */
  lemma SenderMayBeAlone(link: Link) returns (moves: seq<Move>)
    requires Sound(link) && !LastBlockEnds(link)
    ensures Covered(link, moves)
    ensures FinalSender(link, moves).ending == Some(Completed) && FinalReceiver(link, moves).phase != Ended(Completed)
  {
    hide FinalSender, FinalReceiver, Exec, Sound, LastBlockEnds;
    moves := SuccessWithoutReceipt(link);
    FinalsAreReached(link, moves);
  }

  /** Download without options: the DATA that answered the request is the receiver's first event. */
  lemma PrimedIsFirstEvent(link: Link, bytes: Bytes, packet: Packet, events: seq<Event>)
    requires Parse(bytes) == Ok(packet) && bytes != []
    ensures ReceiverEnds(link, ReceiverStep(link.receiver, ReceiverStart(1), GotPacket(packet)).0, events)
            == ReceiverEnds(link, ReceiverStart(1), [Datagram(link.senderTid, bytes)] + events)
  {
    ReceiverEndsAfterOne(link, ReceiverStart(1), Datagram(link.senderTid, bytes), events);
    hide Parse, ReceiverEnds, ReceiverStep;
  }
}
