/**
 What the sender's success says of the receiver.  The file is saved only if the
 receiver ends in success, so a delivered payload is not yet a saved file.
 */
module Delivery {
  import opened Basics
  import opened DataPlane
  import opened LockedPeer
  import opened Network
  import opened Progress

  /** The last block the sender sends is one the receiver takes for the last. */
  predicate LastBlockEnds(link: Link) {
    EndsReceiver(link, Total(link))
  }

  predicate EndsReceiver(link: Link, index: nat) {
    |BlockPayload(link.payload, index, link.sender.blockSize)| < link.receiver.blockSize
  }

  // ------------------------------------------- Success that means delivery

  /** The receiver has succeeded exactly if the last block it holds is short. */
  ghost predicate HoldsWholeBlocks(link: Link, r: Receiver) {
    r.lastInSequence >= 1 && EndsReceiver(link, r.lastInSequence) ==> ReceiverSucceeds(r)
  }

  ghost predicate Accountable(link: Link, j: Joint) {
    Invariant(link, j) && HoldsWholeBlocks(link, j.r)
  }

  /** Nothing but an intact block moves a receiver on, and nothing undoes its success. */
  lemma NoiseMovesNothing(link: Link, j: Joint, e: Event)
    requires !IsData(Classify(link.senderTid, e)) || !j.r.phase.Receiving?
    ensures var r := ReceiverReads(link, j, e).r;
      && r.lastInSequence == j.r.lastInSequence
      && (ReceiverSucceeds(j.r) ==> ReceiverSucceeds(r))
  {
    hide Classify, HandleData;
  }

  lemma AccountableStays(link: Link, j: Joint, m: Move)
    requires Sound(link) && Accountable(link, j) && Possible(link, j, m) && Fresh(j, m)
    ensures Accountable(link, Apply(link, j, m))
  {
    ApplyKeepsInvariant(link, j, m);
    hide Classify, Invariant, SenderStep, ReceiverReads, DataEvent, AckEvent, EndsReceiver, Sound;
    match m
    case ToSender(_) =>
    case DeliverAck(_, _) =>
    case ToReceiver(e) => NoiseMovesNothing(link, j, e);
    case DeliverData(index, Some(bit)) =>
      DamageIsLoss(link, j, index, bit);
      NoiseMovesNothing(link, j, DataEvent(link, index, Some(bit)));
    case DeliverData(index, None) =>
      if j.r.phase.Receiving? {
        BlockTaken(link, j, index);
      } else {
        NoiseMovesNothing(link, j, DataEvent(link, index, None));
      }
  }

  lemma BlockTaken(link: Link, j: Joint, index: nat)
    requires Sound(link) && Accountable(link, j) && Possible(link, j, DeliverData(index, None))
    requires j.r.phase.Receiving? && Fresh(j, DeliverData(index, None))
    ensures HoldsWholeBlocks(link, Apply(link, j, DeliverData(index, None)).r)
  {
    BlockDelivered(link, j, index);
    hide Apply, Invariant, Sound, BlockPayload;
  }

  lemma {:induction false} AccountableThroughout(link: Link, j: Joint, moves: seq<Move>)
    requires Sound(link) && Accountable(link, j) && Admissible(link, j, moves)
    requires AllFresh(link, j, moves) || Total(link) < WIRE_NUMBERS
    ensures Accountable(link, Exec(link, j, moves))
    decreases |moves|
  {
    hide Apply, Possible, HoldsWholeBlocks, Invariant, Sound;
    if moves != [] {
      if Total(link) < WIRE_NUMBERS {
        ShortTransfersStayFresh(link, j, moves[0]);
      }
      AccountableStays(link, j, moves[0]);
      AccountableThroughout(link, Apply(link, j, moves[0]), moves[1..]);
    }
  }

  lemma AccountableStart(link: Link)
    ensures Accountable(link, Start(link))
  {
    StartInvariant(link);
  }

  /** When the sender has succeeded the receiver holds its last block, and so has succeeded if that ends it. */
  lemma CompletedIsReceived(link: Link, j: Joint)
    requires Accountable(link, j) && LastBlockEnds(link) && j.s.ending == Some(Completed)
    ensures ReceiverSucceeds(j.r)
  {
    hide EndsReceiver;
  }

  // ------------------------------------------- Success that does not

  /** Everything up to block i has been received and acknowledged, and the window beyond it sent. */
  ghost predicate Chained(link: Link, j: Joint, i: nat) {
    && Invariant(link, j) && j.s.lastAcked == i == j.r.lastInSequence
    && (i < Total(link) ==> j.s.ending.None?)
    && (forall b :: 1 <= b <= j.s.highestSent ==> b in j.dataLog)
  }

  lemma ChainStart(link: Link)
    ensures Chained(link, Start(link), 0) && Start(link).r.phase.Receiving?
  {
    StartInvariant(link);
    SpanHolds(0, Start(link).s.highestSent);
  }

  /** The next block delivered, and again if that drew no ACK: an ACK of it is out. */
  lemma BlockAnswered(link: Link, j: Joint, i: nat) returns (moves: seq<Move>, k: Joint)
    requires Sound(link) && Chained(link, j, i) && i < Total(link) && j.r.phase.Receiving?
    ensures Leads(link, j, moves, k)
    ensures Invariant(link, k) && k.s == j.s && k.dataLog == j.dataLog && k.r.lastInSequence == i + 1
    ensures i + 1 in k.ackLog
    ensures k.r.phase == if EndsReceiver(link, i + 1) then Dallying else Receiving
  {
    hide Apply, Possible, Fresh, Invariant, Sound, Leads, Chained, BlockPayload, Total;
    var m := DeliverData(i + 1, None);
    ChainHasNext(link, j, i);
    BlockDelivered(link, j, i + 1);
    OneMove(link, j, m);
    var once := Apply(link, j, m);
    if once.r.phase.Receiving? {
      BlockDelivered(link, once, i + 1);
      OneMove(link, once, m);
      k := Apply(link, once, m);
      moves := [m] + [m];
      LeadsAppend(link, j, [m], once, [m], k);
    } else {
      moves, k := [m], once;
    }
  }

  lemma ChainHasNext(link: Link, j: Joint, i: nat)
    requires Chained(link, j, i) && i < Total(link)
    ensures j.s.highestSent >= i + 1 && i + 1 in j.dataLog
    ensures Invariant(link, j) && j.r.lastInSequence == i && j.s.ending.None?
  {
  }

  /** That ACK delivered: the chain is one longer. */
  lemma AnswerTaken(link: Link, j: Joint, i: nat)
    requires Sound(link) && Invariant(link, j) && j.s.ending.None?
    requires j.s.lastAcked == i && j.r.lastInSequence == i + 1 && i + 1 in j.ackLog
    requires forall b :: 1 <= b <= j.s.highestSent ==> b in j.dataLog
    ensures var m := DeliverAck(i + 1, None);
      && Possible(link, j, m) && Fresh(j, m)
      && var k := Apply(link, j, m);
         && Chained(link, k, i + 1) && k.r == j.r
         && (i + 1 == Total(link) ==> k.s.ending == Some(Completed))
  {
    var m := DeliverAck(i + 1, None);
    InvariantOrders(link, j);
    ApplyKeepsInvariant(link, j, m);
    IntactEvents(link, i + 1);
    AckResolvesExactly(i + 1, j.s.lastAcked, j.s.highestSent);
    SpanHolds(j.s.highestSent, Apply(link, j, m).s.highestSent);
    hide Classify, AckEvent, ResolveAck, ReceiverInvariant, Total;
  }

  lemma ChainGrows(link: Link, j: Joint, i: nat) returns (moves: seq<Move>, k: Joint)
    requires Sound(link) && Chained(link, j, i) && i < Total(link) && j.r.phase.Receiving?
    ensures Leads(link, j, moves, k) && Chained(link, k, i + 1)
    ensures k.r.phase == if EndsReceiver(link, i + 1) then Dallying else Receiving
    ensures i + 1 == Total(link) ==> k.s.ending == Some(Completed)
  {
    hide Apply, Possible, Fresh, Invariant, Sound, Leads, EndsReceiver;
    var answered;
    moves, answered := BlockAnswered(link, j, i);
    AnswerTaken(link, answered, i);
    var m := DeliverAck(i + 1, None);
    OneMove(link, answered, m);
    k := Apply(link, answered, m);
    LeadsAppend(link, j, moves, answered, [m], k);
    moves := moves + [m];
  }

  /** As long as no block ends the receiver, one block after another can be taken and acknowledged. */
  lemma {:induction false} ChainReaches(link: Link, i: nat) returns (moves: seq<Move>, k: Joint)
    requires Sound(link) && i <= Total(link)
    requires forall b :: 1 <= b < i ==> !EndsReceiver(link, b)
    ensures Leads(link, Start(link), moves, k) && Chained(link, k, i)
    ensures k.r.phase == if i >= 1 && EndsReceiver(link, i) then Dallying else Receiving
    ensures i == Total(link) ==> k.s.ending == Some(Completed)
  {
    hide Leads, Chained, EndsReceiver, Sound;
    if i == 0 {
      moves, k := [], Start(link);
      ChainStart(link);
      NoMoves(link, k);
    } else {
      var before, j := ChainReaches(link, i - 1);
      var more;
      more, k := ChainGrows(link, j, i - 1);
      moves := before + more;
      LeadsAppend(link, Start(link), before, j, more, k);
    }
  }

  /** On sound terms a block before the last is short only in a payload of one block. */
  lemma EarlierBlocksAreWhole(link: Link, b: nat)
    requires Sound(link) && 1 <= b < Total(link) && !LastBlockEnds(link)
    ensures !EndsReceiver(link, b)
  {
    TotalWithinFinal(link);
    BlockExtendsPrefix(link.payload, b, link.sender.blockSize);
  }

  /** If its last block does not end the receiver, the sender can succeed while the receiver waits for more. */
  lemma SuccessWithoutReceipt(link: Link) returns (moves: seq<Move>)
    requires Sound(link) && !LastBlockEnds(link)
    ensures Covered(link, moves)
    ensures var j := Exec(link, Start(link), moves);
      j.s.ending == Some(Completed) && j.r.phase.Receiving?
  {
    forall b | 1 <= b < Total(link)
      ensures !EndsReceiver(link, b)
    {
      EarlierBlocksAreWhole(link, b);
    }
    hide EndsReceiver, Sound;
    var k;
    moves, k := ChainReaches(link, Total(link));
  }

  /** The schedules joint safety speaks of: all of them up to 65535 blocks, beyond that the fresh ones. */
  ghost predicate Covered(link: Link, moves: seq<Move>) {
    && Admissible(link, Start(link), moves)
    && (AllFresh(link, Start(link), moves) || Total(link) < WIRE_NUMBERS)
  }

  /** On every such schedule the sender's success comes with the receiver's. */
  ghost predicate SuccessIsReceipt(link: Link) {
    forall moves :: Covered(link, moves) ==>
      (Exec(link, Start(link), moves).s.ending == Some(Completed) ==>
         ReceiverSucceeds(Exec(link, Start(link), moves).r))
  }

  lemma SuccessIsReceiptOn(link: Link, moves: seq<Move>)
    requires Sound(link) && LastBlockEnds(link) && Covered(link, moves)
    ensures Exec(link, Start(link), moves).s.ending == Some(Completed) ==>
              ReceiverSucceeds(Exec(link, Start(link), moves).r)
  {
    hide Sound, LastBlockEnds, ReceiverSucceeds;
    AccountableStart(link);
    AccountableThroughout(link, Start(link), moves);
    var j := Exec(link, Start(link), moves);
    if j.s.ending == Some(Completed) {
      CompletedIsReceived(link, j);
    }
  }

  /**
   The sender's success means the receiver's, on every schedule of a sound link,
   if and only if the last block sent is short for the receiver.
   */
  lemma SuccessIsReceiptIff(link: Link)
    requires Sound(link)
    ensures SuccessIsReceipt(link) <==> LastBlockEnds(link)
  {
    hide Sound, LastBlockEnds, ReceiverSucceeds;
    if LastBlockEnds(link) {
      forall moves | Covered(link, moves)
        ensures Exec(link, Start(link), moves).s.ending == Some(Completed) ==>
                ReceiverSucceeds(Exec(link, Start(link), moves).r)
      {
        SuccessIsReceiptOn(link, moves);
      }
    } else {
      var moves := SuccessWithoutReceipt(link);
      WaitingIsNoSuccess(Exec(link, Start(link), moves).r);
    }
  }

  lemma WaitingIsNoSuccess(r: Receiver)
    requires r.phase.Receiving?
    ensures !ReceiverSucceeds(r)
  {
  }

  // --------------------------------- A receiver that expects larger blocks

  /** The terms of an upload whose OACK went unheard: the first block is short for the receiver, and not the last. */
  predicate TakesFirstForLast(link: Link) {
    && link.sender.blockSize < link.receiver.blockSize && link.sender.blockSize < |link.payload|
    && !link.receiver.config.quirks.acceptOutOfSequenceData
    && Total(link) < WIRE_NUMBERS
  }

  function FirstBlock(link: Link): Bytes {
    BlockPayload(link.payload, 1, link.sender.blockSize)
  }

  ghost predicate TruncatedReceiver(link: Link, r: Receiver) {
    if ReceiverSucceeds(r) then r.lastInSequence == 1 && r.sink == FirstBlock(link)
    else r.lastInSequence == 0 && r.sink == []
  }

  ghost predicate Truncated(link: Link, j: Joint) {
    && SenderInvariant(link.payload, link.sender, j.s) && TruncatedReceiver(link, j.r)
    && j.s.lastAcked <= j.r.lastInSequence <= j.s.highestSent
    && (forall i :: i in j.dataLog ==> 1 <= i <= j.s.highestSent)
    && (forall i :: i in j.ackLog ==> i <= j.r.lastInSequence)
  }

  lemma TruncatedSender(link: Link, j: Joint, e: Event)
    requires TakesFirstForLast(link) && Truncated(link, j)
    requires IsAck(Classify(link.receiverTid, e)) ==>
      var wire := Classify(link.receiverTid, e).reading.packet.block;
      ResolveAck(wire, j.s.lastAcked, j.s.highestSent) <= j.r.lastInSequence
    ensures Truncated(link, SenderReads(link, j, e))
  {
    hide Classify, ResolveAck;
    match Classify(link.receiverTid, e) {
      case Deliver(reading) =>
        SenderStepKeepsInvariant(link.payload, link.sender, j.s, reading);
        assert SenderStep(link.payload, link.sender, j.s, reading).0.lastAcked <= j.r.lastInSequence;
      case _ =>
    }
  }

  lemma TruncatedNoise(link: Link, j: Joint, e: Event)
    requires Truncated(link, j) && (!IsData(Classify(link.senderTid, e)) || !j.r.phase.Receiving?)
    ensures Truncated(link, ReceiverReads(link, j, e))
  {
    hide Classify, HandleData, FirstBlock, SenderInvariant;
  }

  lemma FirstTaken(link: Link, r: Receiver, index: nat)
    requires TakesFirstForLast(link) && TruncatedReceiver(link, r) && r.phase.Receiving? && 1 <= index < WIRE_NUMBERS
    ensures var data := BlockPayload(link.payload, index, link.sender.blockSize);
      var (r', acks) := SimpleHandleData(link.receiver, r, WireBlockNumber(index), data);
      && TruncatedReceiver(link, r') && r'.lastInSequence == (if index == 1 then 1 else 0)
      && acks == [r'.lastInSequence]
  {
    var data := BlockPayload(link.payload, index, link.sender.blockSize);
    assert [] + data == data;
    FirstBlockIsShort(link);
    hide BlockPayload;
  }

  lemma TruncatedData(link: Link, j: Joint, index: nat)
    requires TakesFirstForLast(link) && Truncated(link, j) && index in j.dataLog && j.r.phase.Receiving?
    ensures Truncated(link, ReceiverReads(link, j, DataEvent(link, index, None)))
  {
    var data := BlockPayload(link.payload, index, link.sender.blockSize);
    ReceiverReadsBlock(link, j, index);
    HandleDataIsSimple(link.receiver, j.r.(timeouts := 0), WireBlockNumber(index), data);
    FirstTaken(link, j.r.(timeouts := 0), index);
    hide HandleData, SimpleHandleData, ReceiverReads, DataEvent, BlockPayload, SenderInvariant, WireBlockNumber, FirstBlock;
  }

  lemma FirstBlockIsShort(link: Link)
    requires TakesFirstForLast(link)
    ensures |FirstBlock(link)| < link.receiver.blockSize && FirstBlock(link) == link.payload[..link.sender.blockSize]
    ensures Total(link) >= 2
  {
    var bs := link.sender.blockSize;
    BlockExtendsPrefix(link.payload, 1, bs);
    if |link.payload| % bs == 0 {
      assert |link.payload| / bs * bs == |link.payload|;
    }
  }

  lemma TruncatedStays(link: Link, j: Joint, m: Move)
    requires TakesFirstForLast(link) && Truncated(link, j) && Possible(link, j, m)
    ensures Truncated(link, Apply(link, j, m))
  {
    hide TakesFirstForLast, Classify;
    match m
    case ToSender(e) => TruncatedSender(link, j, e);
    case ToReceiver(e) => TruncatedNoise(link, j, e);
    case DeliverData(index, Some(bit)) =>
      DamageIsLoss(link, j, index, bit);
      TruncatedNoise(link, j, DataEvent(link, index, Some(bit)));
    case DeliverData(index, None) =>
      if j.r.phase.Receiving? {
        TruncatedData(link, j, index);
      } else {
        TruncatedNoise(link, j, DataEvent(link, index, None));
      }
    case DeliverAck(index, Some(bit)) => DamageIsLoss(link, j, index, bit);
    case DeliverAck(index, None) =>
      ShortNumbers(link, j);
      IntactEvents(link, index);
      AckResolvesExactly(index, j.s.lastAcked, j.s.highestSent);
      TruncatedSender(link, j, AckEvent(link, index, None));
  }

  lemma ShortNumbers(link: Link, j: Joint)
    requires TakesFirstForLast(link) && Truncated(link, j)
    ensures j.s.lastAcked <= j.r.lastInSequence <= j.s.highestSent < WIRE_NUMBERS
  {
    FirstBlockIsShort(link);
  }

  lemma {:induction false} TruncatedThroughout(link: Link, j: Joint, moves: seq<Move>)
    requires TakesFirstForLast(link) && Truncated(link, j) && Admissible(link, j, moves)
    ensures Truncated(link, Exec(link, j, moves))
    decreases |moves|
  {
    hide Apply, Possible, Truncated, TakesFirstForLast;
    if moves != [] {
      TruncatedStays(link, j, moves[0]);
      TruncatedThroughout(link, Apply(link, j, moves[0]), moves[1..]);
    }
  }

  /** On every schedule of such a link the sender never succeeds, and a receiver that does holds the first block alone. */
  lemma AlwaysTruncated(link: Link, moves: seq<Move>)
    requires TakesFirstForLast(link) && Admissible(link, Start(link), moves)
    ensures var j := Exec(link, Start(link), moves);
      && j.s.ending != Some(Completed)
      && (ReceiverSucceeds(j.r) ==> j.r.sink == link.payload[..link.sender.blockSize])
  {
    FirstBlockIsShort(link);
    SenderInvariantHolds(link.payload, link.sender, 0);
    TruncatedStart(link);
    TruncatedThroughout(link, Start(link), moves);
    hide Exec, Admissible, FirstBlock;
  }

  lemma TruncatedStart(link: Link)
    ensures Truncated(link, Start(link))
  {
  }
}
