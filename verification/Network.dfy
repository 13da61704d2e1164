/**
 A sender and a receiver of the reference engine joined by a network that may
 lose, duplicate, reorder, delay and damage the opcode of any DATA or ACK, and
 let anyone else talk to either end.  The logs hold every block and every
 acknowledgement ever emitted, by absolute index; whatever is in a log may be
 delivered at any time and any number of times, or never.  Damage that turns
 another packet into an ACK is the subject of `Phantoms`.
 */
module Network {
  import opened Basics
  import opened Codec
  import opened Corruption
  import opened DataPlane
  import opened LockedPeer

  datatype Link = Link(
    payload: Bytes,
    sender: Terms,
    receiver: Terms,
    senderTid: Endpoint,
    receiverTid: Endpoint,
    handshakeAck: bool)  // an ACK 0 preceded the data (OACK download, or upload)

  datatype Joint = Joint(s: Sender, r: Receiver, dataLog: seq<nat>, ackLog: seq<nat>)

  datatype Move =
    | ToSender(e: Event)
    | ToReceiver(e: Event)
    | DeliverData(index: nat, damage: Option<nat>)
    | DeliverAck(index: nat, damage: Option<nat>)

  function Start(link: Link): Joint {
    var (s, sends) := SenderStart(link.payload, link.sender, 0);
    Joint(s, ReceiverStart(1), sends, if link.handshakeAck then [0] else [])
  }

  function SenderReads(link: Link, j: Joint, e: Event): Joint {
    match Classify(link.receiverTid, e)
    case Deliver(reading) =>
      var (s, sends) := SenderStep(link.payload, link.sender, j.s, reading);
      j.(s := s, dataLog := j.dataLog + sends)
    case _ => j
  }

  function ReceiverReads(link: Link, j: Joint, e: Event): Joint {
    match Classify(link.senderTid, e)
    case Deliver(reading) =>
      var (r, acks) := ReceiverStep(link.receiver, j.r, reading);
      j.(r := r, ackLog := j.ackLog + acks)
    case _ => j
  }

  predicate OpcodeBit(damage: Option<nat>) {
    damage.Some? ==> damage.value < 16
  }

  function Damaged(bytes: Bytes, damage: Option<nat>): Bytes
    requires |bytes| >= 2 && OpcodeBit(damage)
  {
    if damage.None? then bytes else FlipOpcodeBit(bytes, damage.value)
  }

  function DataEvent(link: Link, index: nat, damage: Option<nat>): Event
    requires OpcodeBit(damage)
  {
    var bytes := DataDatagram(link.payload, link.sender.blockSize, index);
    Datagram(link.senderTid, Damaged(bytes, damage))
  }

  function AckEvent(link: Link, index: nat, damage: Option<nat>): Event
    requires OpcodeBit(damage)
  {
    Datagram(link.receiverTid, Damaged(AckDatagram(index), damage))
  }

  predicate IsAck(v: Verdict) {
    v.Deliver? && v.reading.GotPacket? && v.reading.packet.Acknowledgement?
  }

  predicate IsData(v: Verdict) {
    v.Deliver? && v.reading.GotPacket? && v.reading.packet.Data?
  }

  /** The network does not invent the peer's DATA or ACK; everything else may arrive. */
  predicate Possible(link: Link, j: Joint, m: Move) {
    match m
    case ToSender(e) => !IsAck(Classify(link.receiverTid, e))
    case ToReceiver(e) => !IsData(Classify(link.senderTid, e))
    case DeliverData(index, damage) => index in j.dataLog && OpcodeBit(damage)
    case DeliverAck(index, damage) => index in j.ackLog && OpcodeBit(damage)
  }

  /** No intact block reaches a waiting receiver, and no intact ACK the sender, a whole cycle of wire numbers late. */
  predicate Fresh(j: Joint, m: Move) {
    match m
    case DeliverData(index, None) => j.r.phase.Receiving? ==> index + WIRE_NUMBERS > j.r.lastInSequence + 1
    case DeliverAck(index, None) => index + WIRE_NUMBERS > j.s.highestSent
    case _ => true
  }

  function Apply(link: Link, j: Joint, m: Move): Joint
    requires Possible(link, j, m)
  {
    match m
    case ToSender(e) => SenderReads(link, j, e)
    case ToReceiver(e) => ReceiverReads(link, j, e)
    case DeliverData(index, damage) => ReceiverReads(link, j, DataEvent(link, index, damage))
    case DeliverAck(index, damage) => SenderReads(link, j, AckEvent(link, index, damage))
  }

  predicate Admissible(link: Link, j: Joint, moves: seq<Move>)
    decreases |moves|
  {
    moves == [] ||
    (Possible(link, j, moves[0]) && Admissible(link, Apply(link, j, moves[0]), moves[1..]))
  }

  predicate AllFresh(link: Link, j: Joint, moves: seq<Move>)
    requires Admissible(link, j, moves)
    decreases |moves|
  {
    moves == [] ||
    (Fresh(j, moves[0]) && AllFresh(link, Apply(link, j, moves[0]), moves[1..]))
  }

  function Exec(link: Link, j: Joint, moves: seq<Move>): Joint
    requires Admissible(link, j, moves)
    decreases |moves|
  {
    if moves == [] then j else Exec(link, Apply(link, j, moves[0]), moves[1..])
  }

  // ------------------------------------------------------------ The invariant

  function Total(link: Link): (total: nat)
    ensures total >= 1
  {
    SenderTotal(link.payload, link.sender)
  }

  function FinalBlock(link: Link): nat {
    TotalBlockCount(|link.payload|, link.sender.blockSize)
  }

  /** The last block a receiver can hold while it still waits for more. */
  function LastWhileReceiving(link: Link): nat {
    if link.sender.blockSize == link.receiver.blockSize then FinalBlock(link) - 1 else Total(link)
  }

  /** The sender is never two blocks ahead, and no number it reuses lies in the receiver's window. */
  predicate NothingToSkip(link: Link) {
    && (link.sender.windowSize <= 1 || Total(link) == 1)
    && LastWhileReceiving(link) + link.receiver.windowSize <= WIRE_NUMBERS
  }

  /**
   The receiver mistakes no full block for the last one, or there is only one,
   and accepting out of sequence is off or has nothing to accept.  Equal block
   sizes will do for the first.
   */
  predicate Sound(link: Link) {
    && (link.receiver.blockSize <= link.sender.blockSize || |link.payload| <= link.sender.blockSize)
    && (link.receiver.config.quirks.acceptOutOfSequenceData ==>
          link.receiver.windowSize <= 1 || NothingToSkip(link))
  }

  predicate ReceiverSucceeds(r: Receiver) {
    r.phase == Dallying || r.phase == Ended(Completed)
  }

  ghost predicate ReceiverInvariant(link: Link, r: Receiver) {
    && r.sink == Prefix(link.payload, r.lastInSequence, link.sender.blockSize)
    && (ReceiverSucceeds(r) ==> r.sink == link.payload)
    && (link.sender.blockSize == link.receiver.blockSize ==>
          (ReceiverSucceeds(r) <==> r.lastInSequence == FinalBlock(link)))
    && (r.phase.Receiving? ==> r.blocksSinceAck < link.receiver.Window())
  }

  ghost predicate Invariant(link: Link, j: Joint) {
    && SenderInvariant(link.payload, link.sender, j.s)
    && ReceiverInvariant(link, j.r)
    && j.s.lastAcked <= j.r.lastInSequence <= j.s.highestSent
    && (forall i :: i in j.dataLog ==> 1 <= i <= j.s.highestSent)
    && (forall i :: i in j.ackLog ==> i <= j.r.lastInSequence)
  }

  lemma TotalWithinFinal(link: Link)
    ensures Total(link) <= FinalBlock(link)
  {
  }

  lemma StartInvariant(link: Link)
    ensures Invariant(link, Start(link))
  {
    TotalWithinFinal(link);
  }

  /** A delivered ACK is resolved to the block it was sent for, across any wraparound. */
  lemma AckResolvesExactly(index: nat, lastAcked: nat, highestSent: nat)
    requires index <= highestSent < index + WIRE_NUMBERS && highestSent < lastAcked + WIRE_NUMBERS
    ensures ResolveAck(WireBlockNumber(index), lastAcked, highestSent) == Max(lastAcked, index)
  {
    var r := ResolveAck(WireBlockNumber(index), lastAcked, highestSent);
    if r > lastAcked {
      SameWireNumber(r, index);
    }
  }

  lemma SameWireNumber(a: nat, b: nat)
    requires WireBlockNumber(a) == WireBlockNumber(b)
    requires -WIRE_NUMBERS < a - b < WIRE_NUMBERS
    ensures a == b
  {
  }

  /** Numbers behind the next block are not taken for numbers ahead of it. */
  lemma ResolvesNoGap(index: nat, last: nat, window: Positive)
    requires index <= last + 1 && last + window < index + WIRE_NUMBERS
    ensures ResolveData(WireBlockNumber(index), last, window) <= last + 1
  {
    hide WireBlockNumber;
    var wire := WireBlockNumber(index);
    ForwardSearchResult(wire, last, 1, window);
    BackwardSearchResult(wire, last, 0, Min(last, window));
    var found := SearchForward(wire, last, 1, window);
    if found.Some? {
      SameWireNumber(found.value, index);
    }
  }

  /** A delivered block is accepted exactly when it is the next one, across any wraparound. */
  lemma DataAcceptedIffNext(link: Link, j: Joint, index: nat, data: Bytes)
    requires Sound(link) && Invariant(link, j) && j.r.phase.Receiving?
    requires index in j.dataLog && index + WIRE_NUMBERS > j.r.lastInSequence + 1
    ensures var t, r := link.receiver, j.r.(timeouts := 0);
      HandleData(t, r, WireBlockNumber(index), data) ==
      if index == r.lastInSequence + 1 then SimpleHandleData(t, r, WireBlockNumber(index), data)
      else (r.(blocksSinceAck := 0), [r.lastInSequence])
  {
    hide WireBlockNumber, Prefix;
    var t, r, last := link.receiver, j.r.(timeouts := 0), j.r.lastInSequence;
    var wire := WireBlockNumber(index);
    TotalWithinFinal(link);
    ResolveDataIsNextIffWireIsNext(wire, last, t.Window());
    if t.config.quirks.acceptOutOfSequenceData && t.windowSize > 1 {
      ResolvesNoGap(index, last, t.Window());
    }
    HandleDataIsSimple(t, r, wire, data);
    if wire == WireBlockNumber(last + 1) {
      SameWireNumber(index, last + 1);
    }
  }

  lemma IntactEvents(link: Link, index: nat)
    ensures Classify(link.senderTid, DataEvent(link, index, None)) ==
            Deliver(GotPacket(Data(WireBlockNumber(index),
                                   BlockPayload(link.payload, index, link.sender.blockSize))))
    ensures Classify(link.receiverTid, AckEvent(link, index, None)) ==
            Deliver(GotPacket(Acknowledgement(WireBlockNumber(index))))
  {
    WellFormedRoundTrip(Data(WireBlockNumber(index),
                             BlockPayload(link.payload, index, link.sender.blockSize)));
    WellFormedRoundTrip(Acknowledgement(WireBlockNumber(index)));
  }

  /** Opcode damage is loss: the far end reads nothing it acts on. */
  lemma DamageIsLoss(link: Link, j: Joint, index: nat, bit: nat)
    requires bit < 16
    ensures ReceiverReads(link, j, DataEvent(link, index, Some(bit))).(r := j.r) == j
    ensures !j.r.phase.Dallying? ==> ReceiverReads(link, j, DataEvent(link, index, Some(bit))) == j
    ensures SenderReads(link, j, AckEvent(link, index, Some(bit))) == j
    ensures !IsData(Classify(link.senderTid, DataEvent(link, index, Some(bit))))
    ensures !IsAck(Classify(link.receiverTid, AckEvent(link, index, Some(bit))))
  {
    hide Parse, BlockPayload;
    var block := WireBlockNumber(index);
    FlippedDataIsForeignToItsLoop(block, BlockPayload(link.payload, index, link.sender.blockSize), bit);
    FlippedAckNeverParses(block, bit);
    assert j.dataLog + [] == j.dataLog && j.ackLog + [] == j.ackLog;
  }

  lemma SenderKeepsInvariant(link: Link, j: Joint, e: Event)
    requires Invariant(link, j)
    requires IsAck(Classify(link.receiverTid, e)) ==>
      var wire := Classify(link.receiverTid, e).reading.packet.block;
      ResolveAck(wire, j.s.lastAcked, j.s.highestSent) <= j.r.lastInSequence
    ensures Invariant(link, SenderReads(link, j, e))
  {
    hide Classify, ResolveAck;
    match Classify(link.receiverTid, e) {
      case Deliver(reading) =>
        SenderStepKeepsInvariant(link.payload, link.sender, j.s, reading);
        assert SenderStep(link.payload, link.sender, j.s, reading).0.lastAcked <= j.r.lastInSequence;
      case _ =>
    }
  }

  lemma ReceiverKeepsInvariantOnNoise(link: Link, j: Joint, e: Event)
    requires Invariant(link, j) && !IsData(Classify(link.senderTid, e))
    ensures Invariant(link, ReceiverReads(link, j, e))
  {
    hide Classify, HandleData, Prefix;
  }

  /** A block that is short for the receiver completes the payload. */
  lemma ShortBlockCompletes(link: Link, index: nat)
    requires Sound(link) && 1 <= index <= FinalBlock(link)
    requires |BlockPayload(link.payload, index, link.sender.blockSize)| < link.receiver.blockSize
    ensures Prefix(link.payload, index, link.sender.blockSize) == link.payload
  {
    var bs := link.sender.blockSize;
    BlockExtendsPrefix(link.payload, index, bs);
    if link.receiver.blockSize <= bs {
      AllBlocksAreThePayload(link.payload, index, bs);
    } else {
      Multiple(index, bs);
    }
  }

  lemma Multiple(index: nat, blockSize: Positive)
    requires index >= 1
    ensures index * blockSize >= blockSize
  {
  }

  lemma NextBlockKeepsReceiver(link: Link, r: Receiver, index: nat)
    requires Sound(link) && ReceiverInvariant(link, r) && r.phase.Receiving?
    requires index == r.lastInSequence + 1 <= FinalBlock(link)
    ensures var data := BlockPayload(link.payload, index, link.sender.blockSize);
      ReceiverInvariant(link, SimpleHandleData(link.receiver, r.(timeouts := 0), WireBlockNumber(index), data).0)
  {
    var bs := link.sender.blockSize;
    var data := BlockPayload(link.payload, index, bs);
    BlockExtendsPrefix(link.payload, index, bs);
    if |data| < link.receiver.blockSize {
      ShortBlockCompletes(link, index);
    }
    hide Prefix, BlockPayload, WireBlockNumber;
  }

  lemma ReceiverReadsBlock(link: Link, j: Joint, index: nat)
    requires j.r.phase.Receiving?
    ensures var data := BlockPayload(link.payload, index, link.sender.blockSize);
      var (r', acks) := HandleData(link.receiver, j.r.(timeouts := 0), WireBlockNumber(index), data);
      ReceiverReads(link, j, DataEvent(link, index, None)) == j.(r := r', ackLog := j.ackLog + acks)
  {
    IntactEvents(link, index);
    hide Classify, HandleData, BlockPayload, DataEvent, WireBlockNumber;
  }

  lemma ReceiverKeepsInvariantOnData(link: Link, j: Joint, index: nat)
    requires Sound(link) && Invariant(link, j)
    requires index in j.dataLog && Fresh(j, DeliverData(index, None))
    ensures Invariant(link, ReceiverReads(link, j, DataEvent(link, index, None)))
  {
    TotalWithinFinal(link);
    if j.r.phase.Receiving? {
      var data := BlockPayload(link.payload, index, link.sender.blockSize);
      ReceiverReadsBlock(link, j, index);
      DataAcceptedIffNext(link, j, index, data);
      if index == j.r.lastInSequence + 1 {
        NextBlockKeepsReceiver(link, j.r, index);
      }
      hide HandleData, ReceiverReads, DataEvent, Prefix, BlockPayload, SenderInvariant, SenderTotal;
    } else {
      IntactEvents(link, index);
      hide Classify, DataEvent, Prefix, BlockPayload, SenderTotal, SenderInvariant, WireBlockNumber;
    }
  }

  lemma ApplyKeepsInvariant(link: Link, j: Joint, m: Move)
    requires Sound(link) && Invariant(link, j) && Possible(link, j, m) && Fresh(j, m)
    ensures Invariant(link, Apply(link, j, m))
  {
    match m
    case ToSender(e) => SenderKeepsInvariant(link, j, e);
    case ToReceiver(e) => ReceiverKeepsInvariantOnNoise(link, j, e);
    case DeliverData(index, None) => ReceiverKeepsInvariantOnData(link, j, index);
    case DeliverData(index, Some(bit)) =>
      DamageIsLoss(link, j, index, bit);
      ReceiverKeepsInvariantOnNoise(link, j, DataEvent(link, index, Some(bit)));
    case DeliverAck(index, None) =>
      IntactEvents(link, index);
      AckResolvesExactly(index, j.s.lastAcked, j.s.highestSent);
      SenderKeepsInvariant(link, j, AckEvent(link, index, None));
    case DeliverAck(index, Some(bit)) => DamageIsLoss(link, j, index, bit);
  }

  lemma {:induction false} ExecKeepsInvariant(link: Link, j: Joint, moves: seq<Move>)
    requires Sound(link) && Invariant(link, j) && Admissible(link, j, moves)
    requires AllFresh(link, j, moves) || Total(link) < WIRE_NUMBERS
    ensures Invariant(link, Exec(link, j, moves))
    decreases |moves|
  {
    hide Apply, Possible, SenderInvariant, ReceiverInvariant;
    if moves != [] {
      if Total(link) < WIRE_NUMBERS {
        ShortTransfersStayFresh(link, j, moves[0]);
      }
      ApplyKeepsInvariant(link, j, moves[0]);
      ExecKeepsInvariant(link, Apply(link, j, moves[0]), moves[1..]);
    }
  }

  /** With at most 65535 blocks no number is ever reused, so nothing can arrive too late. */
  lemma ShortTransfersStayFresh(link: Link, j: Joint, m: Move)
    requires Invariant(link, j) && Total(link) < WIRE_NUMBERS && Possible(link, j, m)
    ensures Fresh(j, m)
  {
  }

  // ------------------------------------------------------------- Joint safety

  /** What holds between the two ends at every moment of every run. */
  ghost predicate Safe(link: Link, j: Joint) {
    && j.r.sink == link.payload[..Min(j.r.lastInSequence * link.sender.blockSize, |link.payload|)]
    && j.s.lastAcked <= j.r.lastInSequence <= j.s.highestSent <= Total(link)
    && (j.s.ending == Some(Completed) ==> j.r.sink == link.payload)
    && (ReceiverSucceeds(j.r) ==> j.r.sink == link.payload)
  }

  lemma InvariantIsSafe(link: Link, j: Joint)
    requires Sound(link) && Invariant(link, j)
    ensures j.r.lastInSequence * link.sender.blockSize >= 0
    ensures Safe(link, j)
  {
    if j.s.ending == Some(Completed) {
      AllBlocksAreThePayload(link.payload, j.r.lastInSequence, link.sender.blockSize);
    }
  }

  /**
   Joint safety, RFC 1350 and RFC 7440: for transfers of at most 65535 blocks,
   under arbitrary loss, duplication, reordering, delay, opcode damage and
   interference, what has been received is a prefix of the payload and success
   at either end means that all of it was delivered.
   */
  lemma JointSafety(link: Link, moves: seq<Move>)
    requires Sound(link) && Total(link) < WIRE_NUMBERS
    requires Admissible(link, Start(link), moves)
    ensures Safe(link, Exec(link, Start(link), moves))
  {
    StartInvariant(link);
    ExecKeepsInvariant(link, Start(link), moves);
    InvariantIsSafe(link, Exec(link, Start(link), moves));
  }

  /** The same for transfers of any length, through every wraparound, on a fresh network. */
  lemma WraparoundSafety(link: Link, moves: seq<Move>)
    requires Sound(link)
    requires Admissible(link, Start(link), moves) && AllFresh(link, Start(link), moves)
    ensures Safe(link, Exec(link, Start(link), moves))
  {
    StartInvariant(link);
    ExecKeepsInvariant(link, Start(link), moves);
    InvariantIsSafe(link, Exec(link, Start(link), moves));
  }

  /** A sender that omits the terminating block leaves its receiver waiting for ever. */
  lemma OmittedTerminatorNeverCompletes(link: Link, moves: seq<Move>)
    requires Sound(link) && link.sender.blockSize == link.receiver.blockSize
    requires link.sender.config.quirks.omitTerminatingEmptyBlock
    requires link.payload != [] && |link.payload| % link.sender.blockSize == 0
    requires Admissible(link, Start(link), moves)
    requires AllFresh(link, Start(link), moves) || Total(link) < WIRE_NUMBERS
    ensures !ReceiverSucceeds(Exec(link, Start(link), moves).r)
  {
    StartInvariant(link);
    ExecKeepsInvariant(link, Start(link), moves);
    assert Total(link) < FinalBlock(link);
  }
}
