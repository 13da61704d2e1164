/**
 The TFTP data plane of the reference engine
 (adapters/reference/tftp_reference_engine.cpp) as two step functions over the
 readings of a socket.  A sender or receiver state is the state at a receive
 point; a step handles one reading and returns the blocks sent on the way to
 the next receive point, named by their absolute index.
 */
module DataPlane {
  import opened Basics
  import opened Codec

  datatype EngineQuirks = EngineQuirks(
    retransmitOnDuplicateAck: bool,
    omitTerminatingEmptyBlock: bool,
    acceptOutOfSequenceData: bool)

  datatype EngineConfig = EngineConfig(
    defaultBlockSize: U32,
    maximumRetransmissions: int,
    supportOptionNegotiation: bool,
    supportBlockSizeOption: bool,
    supportTimeoutOption: bool,
    supportTransferSizeOption: bool,
    supportWindowSizeOption: bool,
    quirks: EngineQuirks)

  /** What one end of a transfer runs under: negotiated sizes and its own policy. */
  datatype Terms = Terms(blockSize: Positive, windowSize: U16, config: EngineConfig) {
    function Window(): (w: Positive)
      ensures w < 0x1_0000
    {
      Max(windowSize, 1)
    }
  }

  // ------------------------------------------------------------------ Blocks

  const WIRE_NUMBERS := 0x1_0000

  function WireBlockNumber(index: nat): U16 {
    index % WIRE_NUMBERS
  }

  function TotalBlockCount(payloadSize: nat, blockSize: Positive): nat {
    payloadSize / blockSize + 1
  }

  /** Blocks count from 1; an index past the payload carries nothing. */
  function BlockPayload(payload: Bytes, index: nat, blockSize: Positive): Bytes {
    if index == 0 then []
    else
      var start := (index - 1) * blockSize;
      assert start >= 0;
      if start >= |payload| then []
      else payload[start..start + Min(blockSize, |payload| - start)]
  }

  /** The first `blocks` blocks of the payload, run together. */
  function Prefix(payload: Bytes, blocks: nat, blockSize: Positive): Bytes {
    assert blocks * blockSize >= 0;
    payload[..Min(blocks * blockSize, |payload|)]
  }

  /** A block continues the prefix before it, and is short exactly when it is the last. */
  lemma BlockExtendsPrefix(payload: Bytes, index: nat, blockSize: Positive)
    requires 1 <= index <= TotalBlockCount(|payload|, blockSize)
    ensures Prefix(payload, index - 1, blockSize) + BlockPayload(payload, index, blockSize)
            == Prefix(payload, index, blockSize)
    ensures |BlockPayload(payload, index, blockSize)| < blockSize
            <==> index == TotalBlockCount(|payload|, blockSize)
  {
    BlockBounds(|payload|, blockSize, index);
    var start := (index - 1) * blockSize;
    var edge := index * blockSize;
    assert edge == start + blockSize;
    if edge <= |payload| {
      assert payload[..start] + payload[start..edge] == payload[..edge];
    } else {
      assert payload[..start] + payload[start..] == payload;
    }
  }

  /** Where a block lies in a payload of this size. */
  lemma BlockBounds(size: nat, blockSize: Positive, index: nat)
    requires 1 <= index <= TotalBlockCount(size, blockSize)
    ensures 0 <= (index - 1) * blockSize <= size
    ensures index * blockSize == (index - 1) * blockSize + blockSize
    ensures index * blockSize <= size <==> index < TotalBlockCount(size, blockSize)
  {
    var full := size / blockSize;
    assert full * blockSize <= size < (full + 1) * blockSize;
    OrderedMultiples(index - 1, full, blockSize);
    OrderedMultiples(index, full, blockSize);
    OrderedMultiples(full + 1, index, blockSize);
  }

  lemma OrderedMultiples(a: nat, b: nat, blockSize: Positive)
    ensures a <= b ==> a * blockSize <= b * blockSize
    ensures a * blockSize >= 0
  {
  }

  lemma AllBlocksAreThePayload(payload: Bytes, blocks: nat, blockSize: Positive)
    requires blocks >= TotalBlockCount(|payload|, blockSize)
          || (blocks == |payload| / blockSize && |payload| % blockSize == 0)
    ensures Prefix(payload, blocks, blockSize) == payload
  {
    var full := |payload| / blockSize;
    assert full * blockSize <= |payload| < (full + 1) * blockSize;
    if blocks >= full + 1 {
      assert blocks * blockSize >= (full + 1) * blockSize;
    } else {
      assert |payload| == full * blockSize;
    }
  }

  /** Indices low + 1, ..., high. */
  function Span(low: nat, high: nat): (s: seq<nat>)
    ensures |s| == Max(high - low, 0)
    ensures forall k :: 0 <= k < |s| ==> s[k] == low + 1 + k
  {
    seq(Max(high - low, 0), k requires 0 <= k => low + 1 + k)
  }

  // --------------------------------------------- Resolving 16-bit wire numbers

  /** The highest index in (lastAcked, highestSent] with this wire number, else lastAcked. */
  function ResolveAck(wire: U16, lastAcked: nat, highestSent: nat): (r: nat)
    ensures r == lastAcked ||
            (lastAcked < r <= highestSent && WireBlockNumber(r) == wire)
    ensures forall i :: lastAcked < i <= highestSent && WireBlockNumber(i) == wire ==> i <= r
  {
    if highestSent <= lastAcked then lastAcked
    else if WireBlockNumber(highestSent) == wire then highestSent
    else ResolveAck(wire, lastAcked, highestSent - 1)
  }

  method ResolveAckToAbsolute(wire: U16, lastAcked: nat, highestSent: nat) returns (r: nat)
    ensures r == ResolveAck(wire, lastAcked, highestSent)
  {
    var candidate := highestSent;
    while candidate > lastAcked
      invariant candidate >= 0
      invariant ResolveAck(wire, lastAcked, highestSent) == ResolveAck(wire, lastAcked, candidate)
    {
      if WireBlockNumber(candidate) == wire {
        return candidate;
      }
      candidate := candidate - 1;
    }
    return lastAcked;
  }

  function SearchForward(wire: U16, last: nat, offset: nat, span: nat): Option<nat>
    decreases span - offset
  {
    if offset > span then None
    else if WireBlockNumber(last + offset) == wire then Some(last + offset)
    else SearchForward(wire, last, offset + 1, span)
  }

  function SearchBackward(wire: U16, last: nat, offset: nat, span: nat): Option<nat>
    requires span <= last
    decreases span - offset
  {
    if offset > span then None
    else if WireBlockNumber(last - offset) == wire then Some(last - offset)
    else SearchBackward(wire, last, offset + 1, span)
  }

  /** Forward through a window, then back through one; 0 when the block cannot be placed. */
  function ResolveData(wire: U16, last: nat, window: Positive): nat {
    match SearchForward(wire, last, 1, window)
    case Some(index) => index
    case None =>
      match SearchBackward(wire, last, 0, Min(last, window))
      case Some(index) => index
      case None => 0
  }

  method ResolveDataToAbsolute(wire: U16, last: nat, windowSize: U16) returns (r: nat)
    ensures r == ResolveData(wire, last, Max(windowSize, 1))
  {
    var forwardSpan := Max(windowSize, 1);
    var offset := 1;
    while offset <= forwardSpan
      invariant 1 <= offset
      invariant SearchForward(wire, last, 1, forwardSpan) == SearchForward(wire, last, offset, forwardSpan)
    {
      if WireBlockNumber(last + offset) == wire {
        return last + offset;
      }
      offset := offset + 1;
    }
    var backwardSpan := Min(last, forwardSpan);
    offset := 0;
    while offset <= backwardSpan
      invariant 0 <= offset
      invariant SearchBackward(wire, last, 0, backwardSpan)
                == SearchBackward(wire, last, offset, backwardSpan)
    {
      if WireBlockNumber(last - offset) == wire {
        return last - offset;
      }
      offset := offset + 1;
    }
    return 0;
  }

  lemma {:induction false} ForwardSearchResult(wire: U16, last: nat, offset: nat, span: nat)
    requires offset >= 1
    ensures var r := SearchForward(wire, last, offset, span);
      r.Some? ==> last + offset <= r.value <= last + span && WireBlockNumber(r.value) == wire
    decreases span - offset
  {
    if offset <= span {
      ForwardSearchResult(wire, last, offset + 1, span);
    }
  }

  lemma {:induction false} BackwardSearchResult(wire: U16, last: nat, offset: nat, span: nat)
    requires span <= last
    ensures var r := SearchBackward(wire, last, offset, span);
      r.Some? ==> last - span <= r.value <= last && WireBlockNumber(r.value) == wire
    decreases span - offset
  {
    if offset <= span {
      BackwardSearchResult(wire, last, offset + 1, span);
    }
  }

  /** The two-way search finds "the next block" exactly when the wire number says so. */
  lemma ResolveDataIsNextIffWireIsNext(wire: U16, last: nat, window: Positive)
    ensures ResolveData(wire, last, window) == last + 1 <==> wire == WireBlockNumber(last + 1)
    ensures ResolveData(wire, last, window) <= last + window
  {
    ForwardSearchResult(wire, last, 1, window);
    BackwardSearchResult(wire, last, 0, Min(last, window));
  }

  // ---------------------------------------------------------------- Readings

  /** What receive_from_locked_peer hands to a data loop. */
  datatype Reading = TimedOut | SocketError | GotPacket(packet: Packet)

  datatype Ending =
    | Completed
    | GaveUp
    | PeerError(code: U16, message: Text)
    | SocketFailed

  // ------------------------------------------------------------------ Sender

  datatype Sender = Sender(
    lastAcked: nat,
    highestSent: nat,
    timeouts: nat,
    dataPacketsSent: nat,
    retransmissions: nat,
    ending: Option<Ending>)

  datatype Action = SendNew | Rollback | WaitOnly

  /** Blocks the sender means to send, less the omitted terminator under that quirk. */
  function SenderTotal(payload: Bytes, t: Terms): (total: nat)
    ensures total >= 1
  {
    var total := TotalBlockCount(|payload|, t.blockSize);
    if t.config.quirks.omitTerminatingEmptyBlock && payload != [] && |payload| % t.blockSize == 0
    then
      assert |payload| / t.blockSize * t.blockSize == |payload|;
      total - 1
    else total
  }

  /** The sends at the top of the loop. */
  function Perform(payload: Bytes, t: Terms, s: Sender, action: Action): (Sender, seq<nat>) {
    match action
    case SendNew =>
      var edge := Min(s.lastAcked + t.Window(), SenderTotal(payload, t));
      var sends := Span(s.highestSent, edge);
      (s.(highestSent := Max(s.highestSent, edge), dataPacketsSent := s.dataPacketsSent + |sends|), sends)
    case Rollback =>
      var sends := Span(s.lastAcked, s.highestSent);
      (s.(retransmissions := s.retransmissions + |sends|), sends)
    case WaitOnly => (s, [])
  }

  function Handle(payload: Bytes, t: Terms, s: Sender, reading: Reading): (Sender, Action) {
    match reading
    case SocketError => (s.(ending := Some(SocketFailed)), WaitOnly)
    case TimedOut =>
      var s' := s.(timeouts := s.timeouts + 1);
      if s'.timeouts > t.config.maximumRetransmissions then (s'.(ending := Some(GaveUp)), WaitOnly)
      else (s', Rollback)
    case GotPacket(Error(code, message)) => (s.(ending := Some(PeerError(code, message))), WaitOnly)
    case GotPacket(Acknowledgement(wire)) =>
      var acked := ResolveAck(wire, s.lastAcked, s.highestSent);
      if acked > s.lastAcked then
        (s.(lastAcked := acked, timeouts := 0,
            ending := if acked < SenderTotal(payload, t) then None else Some(Completed)), SendNew)
      else (s, if t.config.quirks.retransmitOnDuplicateAck then Rollback else WaitOnly)
    case GotPacket(_) => (s, WaitOnly)
  }

  function SenderStart(payload: Bytes, t: Terms, startingCount: nat): (Sender, seq<nat>) {
    Perform(payload, t, Sender(0, 0, 0, startingCount, 0, None), SendNew)
  }

  function SenderStep(payload: Bytes, t: Terms, s: Sender, reading: Reading): (Sender, seq<nat>) {
    if s.ending.Some? then (s, [])
    else
      var (s', action) := Handle(payload, t, s, reading);
      if s'.ending.Some? then (s', []) else Perform(payload, t, s', action)
  }

  // ---------------------------------------------------------------- Receiver

  datatype Phase = Receiving | Dallying | Ended(ending: Ending)

  datatype Receiver = Receiver(
    lastInSequence: nat,
    blocksSinceAck: nat,
    timeouts: nat,
    sink: Bytes,
    dataPacketsReceived: nat,
    dallied: nat,
    phase: Phase)

  const DALLY_LIMIT := 4

  function ReceiverStart(firstExpectedBlock: Positive): Receiver {
    Receiver(firstExpectedBlock - 1, 0, 0, [], 0, 0, Receiving)
  }

  /** Take `data` as block `index`. */
  function Accept(r: Receiver, index: nat, data: Bytes): Receiver {
    r.(sink := r.sink + data, lastInSequence := index, dataPacketsReceived := r.dataPacketsReceived + 1)
  }

  function HandleData(t: Terms, r: Receiver, wire: U16, data: Bytes): (Receiver, seq<nat>) {
    var absolute := ResolveData(wire, r.lastInSequence, t.Window());
    if absolute == r.lastInSequence + 1 then
      var r' := Accept(r, absolute, data).(blocksSinceAck := r.blocksSinceAck + 1);
      if |data| < t.blockSize then (r'.(phase := Dallying), [absolute])
      else if r'.blocksSinceAck >= t.Window() then (r'.(blocksSinceAck := 0), [absolute])
      else (r', [])
    else if absolute != 0 && absolute <= r.lastInSequence then
      (r.(blocksSinceAck := 0), [r.lastInSequence])
    else if t.config.quirks.acceptOutOfSequenceData && absolute != 0 then
      var r' := Accept(r, absolute, data);
      (if |data| < t.blockSize then r'.(phase := Dallying) else r', [absolute])
    else
      (r.(blocksSinceAck := 0), [r.lastInSequence])
  }

  function ReceivingStep(t: Terms, r: Receiver, reading: Reading): (Receiver, seq<nat>) {
    match reading
    case SocketError => (r.(phase := Ended(SocketFailed)), [])
    case TimedOut =>
      var r' := r.(timeouts := r.timeouts + 1);
      if r'.timeouts > t.config.maximumRetransmissions then (r'.(phase := Ended(GaveUp)), [])
      else (r', [r.lastInSequence])
    case GotPacket(Error(code, message)) => (r.(phase := Ended(PeerError(code, message))), [])
    case GotPacket(Data(wire, data)) => HandleData(t, r.(timeouts := 0), wire, data)
    case GotPacket(_) => (r, [])
  }

  /** After the final block: re-acknowledge up to four packets, then succeed. */
  function DallyStep(r: Receiver, reading: Reading): (Receiver, seq<nat>) {
    if !reading.GotPacket? then (r.(phase := Ended(Completed)), [])
    else
      var r' := r.(dallied := r.dallied + 1);
      (if r'.dallied >= DALLY_LIMIT then r'.(phase := Ended(Completed)) else r',
       if reading.packet.Data? then [r.lastInSequence] else [])
  }

  function ReceiverStep(t: Terms, r: Receiver, reading: Reading): (Receiver, seq<nat>) {
    match r.phase
    case Receiving => ReceivingStep(t, r, reading)
    case Dallying => DallyStep(r, reading)
    case Ended(_) => (r, [])
  }

  // ----------------------------------------------- Receiver refinement theorems

  /** The textbook receiver: take the next wire number, otherwise repeat the last ACK. */
  function SimpleHandleData(t: Terms, r: Receiver, wire: U16, data: Bytes): (Receiver, seq<nat>) {
    var next := r.lastInSequence + 1;
    if wire == WireBlockNumber(next) then
      var due := |data| < t.blockSize || r.blocksSinceAck + 1 >= t.Window();
      (Receiver(next, if due && |data| >= t.blockSize then 0 else r.blocksSinceAck + 1, r.timeouts,
                r.sink + data, r.dataPacketsReceived + 1, r.dallied,
                if |data| < t.blockSize then Dallying else r.phase),
       if due then [next] else [])
    else (r.(blocksSinceAck := 0), [r.lastInSequence])
  }

  function SimpleReceiverStep(t: Terms, r: Receiver, reading: Reading): (Receiver, seq<nat>) {
    if r.phase.Receiving? && reading.GotPacket? && reading.packet.Data? then
      SimpleHandleData(t, r.(timeouts := 0), reading.packet.block, reading.packet.data)
    else ReceiverStep(t, r, reading)
  }

  /** Even the out-of-sequence defect shows only where a number is placed beyond the next block. */
  lemma HandleDataIsSimple(t: Terms, r: Receiver, wire: U16, data: Bytes)
    requires t.config.quirks.acceptOutOfSequenceData ==>
               ResolveData(wire, r.lastInSequence, t.Window()) <= r.lastInSequence + 1
    ensures HandleData(t, r, wire, data) == SimpleHandleData(t, r, wire, data)
  {
    ResolveDataIsNextIffWireIsNext(wire, r.lastInSequence, t.Window());
  }

  /** A run: the final state and everything acknowledged, in order. */
  function RunReceiver(t: Terms, r: Receiver, readings: seq<Reading>): (Receiver, seq<nat>)
    decreases |readings|
  {
    if readings == [] then (r, [])
    else
      var (r', acks) := ReceiverStep(t, r, readings[0]);
      var (final, more) := RunReceiver(t, r', readings[1..]);
      (final, acks + more)
  }

  function RunSimpleReceiver(t: Terms, r: Receiver, readings: seq<Reading>): (Receiver, seq<nat>)
    decreases |readings|
  {
    if readings == [] then (r, [])
    else
      var (r', acks) := SimpleReceiverStep(t, r, readings[0]);
      var (final, more) := RunSimpleReceiver(t, r', readings[1..]);
      (final, acks + more)
  }

  /**
   On every input sequence the two-way window search behaves as the textbook
   receiver; with a window of one even the out-of-sequence quirk changes nothing.
   */
  lemma {:induction false} ReceiverRefinesSimple(t: Terms, r: Receiver, readings: seq<Reading>)
    requires !t.config.quirks.acceptOutOfSequenceData || t.windowSize <= 1
    ensures RunReceiver(t, r, readings) == RunSimpleReceiver(t, r, readings)
    decreases |readings|
  {
    if readings != [] {
      if r.phase.Receiving? && readings[0].GotPacket? && readings[0].packet.Data? {
        ResolveDataIsNextIffWireIsNext(readings[0].packet.block, r.lastInSequence, t.Window());
        HandleDataIsSimple(t, r.(timeouts := 0), readings[0].packet.block, readings[0].packet.data);
      }
      var (r', acks) := ReceiverStep(t, r, readings[0]);
      ReceiverRefinesSimple(t, r', readings[1..]);
    }
  }

  // -------------------------------------------------------- Sender accounting

  function RunSender(payload: Bytes, t: Terms, s: Sender, readings: seq<Reading>): (Sender, seq<nat>)
    decreases |readings|
  {
    if readings == [] then (s, [])
    else
      var (s', sends) := SenderStep(payload, t, s, readings[0]);
      var (final, more) := RunSender(payload, t, s', readings[1..]);
      (final, sends + more)
  }

  /** Timeouts a run actually waits out: those read before it ends. */
  function TimeoutsTaken(payload: Bytes, t: Terms, s: Sender, readings: seq<Reading>): nat
    decreases |readings|
  {
    if readings == [] || s.ending.Some? then 0
    else (if readings[0].TimedOut? then 1 else 0) +
         TimeoutsTaken(payload, t, SenderStep(payload, t, s, readings[0]).0, readings[1..])
  }

  /** What every receive point satisfies. */
  ghost predicate SenderInvariant(payload: Bytes, t: Terms, s: Sender) {
    var total := SenderTotal(payload, t);
    && s.lastAcked <= s.highestSent <= total
    && s.highestSent <= s.lastAcked + t.Window()
    && (s.ending.None? ==> s.highestSent == Min(s.lastAcked + t.Window(), total))
    && (s.ending == Some(Completed) <==> s.lastAcked == total)
  }

  lemma SenderInvariantHolds(payload: Bytes, t: Terms, startingCount: nat)
    ensures SenderInvariant(payload, t, SenderStart(payload, t, startingCount).0)
  {
  }

  /** RFC 7440 discipline at every receive point, whatever is read and whatever the quirks. */
  lemma SenderStepKeepsInvariant(payload: Bytes, t: Terms, s: Sender, reading: Reading)
    requires SenderInvariant(payload, t, s)
    ensures SenderInvariant(payload, t, SenderStep(payload, t, s, reading).0)
    ensures s.lastAcked <= SenderStep(payload, t, s, reading).0.lastAcked
    ensures s.highestSent <= SenderStep(payload, t, s, reading).0.highestSent
    ensures forall i :: i in SenderStep(payload, t, s, reading).1 ==>
              1 <= i <= SenderStep(payload, t, s, reading).0.highestSent
  {
  }

  /**
   RFC 1123 section 4.2.3.1: an ACK that does not advance leaves a correct sender
   untouched and silent; the quirk resends the whole outstanding window, which is
   never empty.
   */
  lemma StaleAckResponse(payload: Bytes, t: Terms, s: Sender, wire: U16)
    requires SenderInvariant(payload, t, s) && s.ending.None?
    requires ResolveAck(wire, s.lastAcked, s.highestSent) == s.lastAcked
    ensures var (s', sends) := SenderStep(payload, t, s, GotPacket(Acknowledgement(wire)));
      if t.config.quirks.retransmitOnDuplicateAck then
        sends == Span(s.lastAcked, s.highestSent) && |sends| >= 1 &&
        s' == s.(retransmissions := s.retransmissions + |sends|)
      else sends == [] && s' == s
  {
  }

  function Patience(t: Terms): nat {
    Max(t.config.maximumRetransmissions, 0)
  }

  ghost predicate SenderCounts(payload: Bytes, t: Terms, startingCount: nat, s: Sender) {
    && SenderInvariant(payload, t, s)
    && s.dataPacketsSent == startingCount + s.highestSent
    && (s.ending.None? ==> s.timeouts <= Patience(t))
  }

  /** Blocks sent between two sender states: the new ones, and as many more as were counted resent. */
  ghost predicate SentBetween(s: Sender, s': Sender, sends: seq<nat>) {
    && s.highestSent <= s'.highestSent
    && |sends| == s'.highestSent - s.highestSent + s'.retransmissions - s.retransmissions
    && (forall i :: i in sends ==> 1 <= i <= s'.highestSent)
    && (forall i :: s.highestSent < i <= s'.highestSent ==> i in sends)
  }

  lemma SpanHolds(low: nat, high: nat)
    ensures forall i :: low < i <= high ==> i in Span(low, high)
  {
    forall i | low < i <= high
      ensures i in Span(low, high)
    {
      assert Span(low, high)[i - low - 1] == i;
    }
  }

  lemma StepKeepsCounts(payload: Bytes, t: Terms, startingCount: nat, s: Sender, reading: Reading)
    requires SenderCounts(payload, t, startingCount, s)
    ensures SenderCounts(payload, t, startingCount, SenderStep(payload, t, s, reading).0)
    ensures SentBetween(s, SenderStep(payload, t, s, reading).0, SenderStep(payload, t, s, reading).1)
  {
    SenderStepKeepsInvariant(payload, t, s, reading);
    SpanHolds(s.highestSent, SenderStep(payload, t, s, reading).0.highestSent);
  }

  lemma {:induction false} RunKeepsCounts(
    payload: Bytes, t: Terms, startingCount: nat, s: Sender, readings: seq<Reading>)
    requires SenderCounts(payload, t, startingCount, s)
    ensures SenderCounts(payload, t, startingCount, RunSender(payload, t, s, readings).0)
    ensures SentBetween(s, RunSender(payload, t, s, readings).0, RunSender(payload, t, s, readings).1)
    decreases |readings|
  {
    hide SenderStep, SenderCounts;
    if readings != [] {
      StepKeepsCounts(payload, t, startingCount, s, readings[0]);
      RunKeepsCounts(payload, t, startingCount, SenderStep(payload, t, s, readings[0]).0, readings[1..]);
    }
  }

  lemma StepBoundsRetransmissions(payload: Bytes, t: Terms, s: Sender, reading: Reading)
    requires SenderInvariant(payload, t, s) && !t.config.quirks.retransmitOnDuplicateAck
    ensures SenderStep(payload, t, s, reading).0.retransmissions
            <= s.retransmissions + if reading.TimedOut? && s.ending.None? then t.Window() else 0
  {
  }

  lemma {:induction false} RunBoundsRetransmissions(
    payload: Bytes, t: Terms, s: Sender, readings: seq<Reading>)
    requires SenderInvariant(payload, t, s) && !t.config.quirks.retransmitOnDuplicateAck
    ensures RunSender(payload, t, s, readings).0.retransmissions
            <= s.retransmissions + Times(t.Window(), TimeoutsTaken(payload, t, s, readings))
    decreases |readings|
  {
    hide SenderInvariant;
    if readings != [] {
      SenderStepKeepsInvariant(payload, t, s, readings[0]);
      StepBoundsRetransmissions(payload, t, s, readings[0]);
      var s' := SenderStep(payload, t, s, readings[0]).0;
      RunBoundsRetransmissions(payload, t, s', readings[1..]);
      if s.ending.Some? {
        NoTimeoutsOnceEnded(payload, t, s, readings[1..]);
      }
      hide SenderStep;
    }
  }

  lemma NoTimeoutsOnceEnded(payload: Bytes, t: Terms, s: Sender, readings: seq<Reading>)
    requires s.ending.Some?
    ensures TimeoutsTaken(payload, t, s, readings) == 0
  {
  }

  /** Timeouts a running sender can still wait out. */
  function TimeoutBudget(total: nat, patience: nat, s: Sender): int {
    Times(patience, total - s.lastAcked - 1) + patience + 1 - s.timeouts
  }

  lemma StepSpendsBudget(payload: Bytes, t: Terms, s: Sender, reading: Reading)
    requires SenderInvariant(payload, t, s) && s.ending.None? && s.timeouts <= Patience(t)
    ensures var s' := SenderStep(payload, t, s, reading).0;
      var spent := if reading.TimedOut? then 1 else 0;
      var total := SenderTotal(payload, t);
      && spent <= TimeoutBudget(total, Patience(t), s)
      && (s'.ending.None? ==>
            spent + TimeoutBudget(total, Patience(t), s') <= TimeoutBudget(total, Patience(t), s))
  {
    var s' := SenderStep(payload, t, s, reading).0;
    SenderStepKeepsInvariant(payload, t, s, reading);
    if s'.lastAcked > s.lastAcked && s'.ending.None? {
      var total := SenderTotal(payload, t);
      TimesGrows(Patience(t), total - s'.lastAcked - 1, total - s.lastAcked - 1);
    }
  }

  lemma {:induction false} RunBoundsTimeouts(
    payload: Bytes, t: Terms, startingCount: nat, s: Sender, readings: seq<Reading>)
    requires SenderCounts(payload, t, startingCount, s) && s.ending.None?
    ensures TimeoutsTaken(payload, t, s, readings)
            <= TimeoutBudget(SenderTotal(payload, t), Patience(t), s)
    decreases |readings|
  {
    if readings == [] {
      StepSpendsBudget(payload, t, s, TimedOut);
    } else {
      StepSpendsBudget(payload, t, s, readings[0]);
      SenderStepKeepsInvariant(payload, t, s, readings[0]);
      var s' := SenderStep(payload, t, s, readings[0]).0;
      if s'.ending.Some? {
        NoTimeoutsOnceEnded(payload, t, s', readings[1..]);
      } else {
        RunBoundsTimeouts(payload, t, startingCount, s', readings[1..]);
      }
    }
  }

  /** Everything the sender put on the wire, its first window included. */
  function AllSends(payload: Bytes, t: Terms, startingCount: nat, readings: seq<Reading>): seq<nat> {
    var (start, first) := SenderStart(payload, t, startingCount);
    first + RunSender(payload, t, start, readings).1
  }

  function SenderAfter(payload: Bytes, t: Terms, startingCount: nat, readings: seq<Reading>): Sender {
    RunSender(payload, t, SenderStart(payload, t, startingCount).0, readings).0
  }

  /** In every run the blocks sent are exactly 1, ..., highestSent, each at least once. */
  lemma SendsCoverExactly(payload: Bytes, t: Terms, startingCount: nat, readings: seq<Reading>)
    ensures var sends := AllSends(payload, t, startingCount, readings);
      var s := SenderAfter(payload, t, startingCount, readings);
      && (forall i :: i in sends <==> 1 <= i <= s.highestSent)
      && |sends| == s.highestSent + s.retransmissions
  {
    var (start, first) := SenderStart(payload, t, startingCount);
    RunKeepsCounts(payload, t, startingCount, start, readings);
    SpanHolds(0, start.highestSent);
    var later := RunSender(payload, t, start, readings).1;
    assert forall i :: i in first + later <==> i in first || i in later;
  }

  /**
   Exact accounting over every run of the sender, from start to any point:
   first transmissions are counted by the highest block sent, and timeouts bound
   both the retransmissions and the run.
   */
  lemma SenderAccounting(payload: Bytes, t: Terms, startingCount: nat, readings: seq<Reading>)
    ensures var s := SenderAfter(payload, t, startingCount, readings);
      var timeouts := TimeoutsTaken(payload, t, SenderStart(payload, t, startingCount).0, readings);
      && s.dataPacketsSent == startingCount + s.highestSent
      && (s.ending == Some(Completed) ==>
            s.dataPacketsSent == startingCount + SenderTotal(payload, t))
      && timeouts <= Patience(t) * SenderTotal(payload, t) + 1
      && (!t.config.quirks.retransmitOnDuplicateAck ==> s.retransmissions <= t.Window() * timeouts)
  {
    hide RunSender, TimeoutsTaken, SenderTotal, Times, SenderStart, TimeoutBudget, Patience;
    var start := SenderStart(payload, t, startingCount).0;
    var timeouts := TimeoutsTaken(payload, t, start, readings);
    StartCounts(payload, t, startingCount);
    RunKeepsCounts(payload, t, startingCount, start, readings);
    RunBoundsTimeouts(payload, t, startingCount, start, readings);
    if !t.config.quirks.retransmitOnDuplicateAck {
      RunBoundsRetransmissions(payload, t, start, readings);
    }
    TimesIsProduct(Patience(t), SenderTotal(payload, t));
    TimesIsProduct(t.Window(), timeouts);
  }

  lemma StartCounts(payload: Bytes, t: Terms, startingCount: nat)
    ensures var start := SenderStart(payload, t, startingCount).0;
      && SenderCounts(payload, t, startingCount, start)
      && start.ending.None? && start.retransmissions == 0
      && TimeoutBudget(SenderTotal(payload, t), Patience(t), start)
         == Times(Patience(t), SenderTotal(payload, t)) + 1
  {
  }
}
