/**
 The instrument against known ground truth: on every run of the engine's
 sender, correct or defective, the observer's verdicts agree with what the
 sender did.
 */
module SelfVerification {
  import opened Basics
  import opened Codec
  import opened DataPlane
  import opened Observer
  import opened Recording

  /** The proxy saw just the DATA this run of the sender emitted, whatever else passed and whatever became of any of it. */
  ghost predicate Records(x: Transfer, sights: seq<Sight>, t: Terms, startingCount: nat, readings: seq<Reading>) {
    && (forall i :: 0 <= i < |sights| ==> Plausible(sights[i]))
    && x.blockSize == t.blockSize
    && BlocksSent(sights) == AllSends(x.payload, t, startingCount, readings)
  }

  /** What the observer reports of the recorded trace. */
  function Observed(x: Transfer, sights: seq<Sight>): Report {
    Measured(Trace(x, sights), ContextOf(x))
  }

  function WireNumbers(high: nat): set<U16> {
    set i | 1 <= i <= high :: WireBlockNumber(i)
  }

  /** Up to 65536 consecutive blocks carry distinct wire numbers. */
  lemma {:induction false} WireNumbersDistinct(high: nat)
    requires high <= WIRE_NUMBERS
    ensures |WireNumbers(high)| == high
  {
    if high == 0 {
      assert WireNumbers(0) == {};
    } else {
      WireNumbersDistinct(high - 1);
      assert WireBlockNumber(high) !in WireNumbers(high - 1);
      assert WireNumbers(high) == WireNumbers(high - 1) + {WireBlockNumber(high)};
    }
  }

  lemma BlocksEmitted(x: Transfer, sends: seq<nat>, high: nat)
    requires forall i :: i in sends <==> 1 <= i <= high
    ensures Blocks(DataPackets(x, sends)) == WireNumbers(high)
  {
    var data := DataPackets(x, sends);
    forall b | b in WireNumbers(high)
      ensures b in Blocks(data)
    {
      var i :| 1 <= i <= high && WireBlockNumber(i) == b;
      assert i in sends;
      var k :| 0 <= k < |sends| && sends[k] == i;
      assert data[k].block == b;
    }
    forall b | b in Blocks(data)
      ensures b in WireNumbers(high)
    {
      var k :| 0 <= k < |data| && data[k].block == b;
      assert sends[k] in sends;
    }
  }

  /**
   The observer counts exactly: at any point of any run of any sender, defects
   included, the DATA packets sent are its first transmissions and its
   retransmissions, the distinct ones the blocks up to the highest, and the
   difference its own count.
   */
  lemma ObserverCountsSends(x: Transfer, sights: seq<Sight>, t: Terms, startingCount: nat, readings: seq<Reading>)
    requires Records(x, sights, t, startingCount, readings) && SenderTotal(x.payload, t) <= WIRE_NUMBERS
    ensures var report, s := Observed(x, sights), SenderAfter(x.payload, t, startingCount, readings);
      && report.dataPacketsSent == s.dataPacketsSent - startingCount + s.retransmissions
      && report.distinctDataBlocks == s.highestSent
      && report.retransmittedDataPackets == s.retransmissions
  {
    var sends := AllSends(x.payload, t, startingCount, readings);
    var s := SenderAfter(x.payload, t, startingCount, readings);
    SendsCoverExactly(x.payload, t, startingCount, readings);
    RunKeepsCounts(x.payload, t, startingCount, SenderStart(x.payload, t, startingCount).0, readings);
    BlocksEmitted(x, sends, s.highestSent);
    WireNumbersDistinct(s.highestSent);
    ObserverFindsAll(x, sights);
    hide AllSends, SenderAfter, SenderTotal, Blocks, WireNumbers, Trace, ContextOf, RequestTid, ServerTid;
  }

  /** The last block of the payload, and no other, is short. */
  predicate IsShortBlock(x: Transfer, index: nat) {
    |BlockPayload(x.payload, index, x.blockSize)| < x.blockSize
  }

  lemma ObservedShort(x: Transfer, sights: seq<Sight>)
    requires forall i :: 0 <= i < |sights| ==> Plausible(sights[i])
    ensures Observed(x, sights).terminatingShortBlockPresent <==> exists i :: i in BlocksSent(sights) && IsShortBlock(x, i)
  {
    hide BlockPayload, Trace, RequestTid, ServerTid, Blocks, Highest, Wraps, Plausible;
    ObserverFindsAll(x, sights);
    var sends := BlocksSent(sights);
    var data := DataPackets(x, sends);
    if Short(data, x.blockSize) {
      var k :| 0 <= k < |data| && |data[k].data| < x.blockSize;
      assert sends[k] in sends && IsShortBlock(x, sends[k]);
    }
    if i :| i in sends && IsShortBlock(x, i) {
      var k :| 0 <= k < |sends| && sends[k] == i;
      assert |data[k].data| < x.blockSize;
    }
  }

  /** The terminating short block is seen exactly when the last block of the payload was sent. */
  lemma TerminatorSeenIffSent(x: Transfer, sights: seq<Sight>, t: Terms, startingCount: nat, readings: seq<Reading>)
    requires Records(x, sights, t, startingCount, readings)
    ensures Observed(x, sights).terminatingShortBlockPresent <==>
            SenderAfter(x.payload, t, startingCount, readings).highestSent
            == TotalBlockCount(|x.payload|, t.blockSize)
  {
    var high := SenderAfter(x.payload, t, startingCount, readings).highestSent;
    var final := TotalBlockCount(|x.payload|, t.blockSize);
    SendsCoverExactly(x.payload, t, startingCount, readings);
    RunKeepsCounts(x.payload, t, startingCount, SenderStart(x.payload, t, startingCount).0, readings);
    assert high <= final;
    FinalIsABlock(x.payload, t);
    ObservedShort(x, sights);
    hide Observed, AllSends, SenderAfter, SenderTotal, TotalBlockCount, BlockPayload, BlocksSent, SenderInvariant, Plausible;
    forall i | 1 <= i <= final
      ensures IsShortBlock(x, i) <==> i == final
    {
      BlockExtendsPrefix(x.payload, i, t.blockSize);
    }
    hide IsShortBlock;
    if high == final {
      assert final in BlocksSent(sights) && IsShortBlock(x, final);
    }
  }

  lemma FinalIsABlock(payload: Bytes, t: Terms)
    ensures 1 <= TotalBlockCount(|payload|, t.blockSize)
  {
  }

  /**
   RFC 1350 section 2: an omitting sender never shows the short block, at any
   point of any run, and a correct one that has completed always does.
   */
  lemma FinalBlockVerdict(x: Transfer, sights: seq<Sight>, t: Terms, startingCount: nat, readings: seq<Reading>)
    requires Records(x, sights, t, startingCount, readings)
    ensures var omits := t.config.quirks.omitTerminatingEmptyBlock && x.payload != [] && |x.payload| % t.blockSize == 0;
      && (omits ==> !Observed(x, sights).terminatingShortBlockPresent)
      && (!omits && SenderAfter(x.payload, t, startingCount, readings).ending == Some(Completed) ==>
            Observed(x, sights).terminatingShortBlockPresent)
  {
    TerminatorSeenIffSent(x, sights, t, startingCount, readings);
    RunKeepsCounts(x.payload, t, startingCount, SenderStart(x.payload, t, startingCount).0, readings);
    hide Observed;
  }

  // ------------------------------------------- Sorcerer's Apprentice verdict

  predicate IsStaleAck(s: Sender, reading: Reading) {
    && s.ending.None? && reading.GotPacket? && reading.packet.Acknowledgement?
    && ResolveAck(reading.packet.block, s.lastAcked, s.highestSent) == s.lastAcked
  }

  /** Some duplicate or stale ACK is read before the run ends. */
  predicate ReadsStaleAck(payload: Bytes, t: Terms, s: Sender, readings: seq<Reading>)
    decreases |readings|
  {
    readings != [] &&
    (IsStaleAck(s, readings[0]) ||
     ReadsStaleAck(payload, t, SenderStep(payload, t, s, readings[0]).0, readings[1..]))
  }

  lemma StepAmplifies(payload: Bytes, t: Terms, s: Sender, reading: Reading)
    requires SenderInvariant(payload, t, s) && (s.ending.None? ==> !reading.TimedOut?)
    ensures var s' := SenderStep(payload, t, s, reading).0;
      && s'.retransmissions >= s.retransmissions
      && (s'.retransmissions > s.retransmissions
          <==> t.config.quirks.retransmitOnDuplicateAck && IsStaleAck(s, reading))
  {
    hide SenderTotal;
  }

  lemma {:induction false} RunAmplifies(payload: Bytes, t: Terms, s: Sender, readings: seq<Reading>)
    requires SenderInvariant(payload, t, s) && TimeoutsTaken(payload, t, s, readings) == 0
    ensures var final := RunSender(payload, t, s, readings).0;
      && final.retransmissions >= s.retransmissions
      && (final.retransmissions > s.retransmissions
          <==> t.config.quirks.retransmitOnDuplicateAck && ReadsStaleAck(payload, t, s, readings))
    decreases |readings|
  {
    hide SenderStep, SenderInvariant, IsStaleAck;
    if readings != [] {
      StepAmplifies(payload, t, s, readings[0]);
      SenderStepKeepsInvariant(payload, t, s, readings[0]);
      var s' := SenderStep(payload, t, s, readings[0]).0;
      if s.ending.Some? {
        EndedStays(payload, t, s, readings[0]);
        NoTimeoutsOnceEnded(payload, t, s', readings[1..]);
      }
      RunAmplifies(payload, t, s', readings[1..]);
    }
  }

  lemma EndedStays(payload: Bytes, t: Terms, s: Sender, reading: Reading)
    requires s.ending.Some?
    ensures SenderStep(payload, t, s, reading).0 == s
  {
  }

  /**
   RFC 1123 section 4.2.3.1: over every run without timeouts the observer sees a
   retransmission if and only if the sender has the Sorcerer's Apprentice defect
   and some duplicate ACK reached it.
   */
  lemma AmplificationVerdict(x: Transfer, sights: seq<Sight>, t: Terms, startingCount: nat, readings: seq<Reading>)
    requires Records(x, sights, t, startingCount, readings) && SenderTotal(x.payload, t) <= WIRE_NUMBERS
    requires TimeoutsTaken(x.payload, t, SenderStart(x.payload, t, startingCount).0, readings) == 0
    ensures Observed(x, sights).retransmittedDataPackets > 0 <==>
            t.config.quirks.retransmitOnDuplicateAck
            && ReadsStaleAck(x.payload, t, SenderStart(x.payload, t, startingCount).0, readings)
  {
    ObserverCountsSends(x, sights, t, startingCount, readings);
    SenderInvariantHolds(x.payload, t, startingCount);
    RunAmplifies(x.payload, t, SenderStart(x.payload, t, startingCount).0, readings);
    hide Observed, RunSender, ReadsStaleAck, TimeoutsTaken, Records;
  }

  // --------------------------------------------------------- The sink's ACKs

  lemma AckOfStep(t: Terms, r: Receiver, reading: Reading)
    ensures var (next, acks) := ReceiverStep(t, r, reading);
      && r.lastInSequence <= next.lastInSequence && |acks| <= 1
      && (forall k :: 0 <= k < |acks| ==> acks[k] == next.lastInSequence)
  {
    hide ResolveData;
  }

  /** A receiver never acknowledges less than before, nor beyond what it has come to. */
  lemma {:induction false} AcksAscend(t: Terms, r: Receiver, readings: seq<Reading>)
    ensures var (final, acks) := RunReceiver(t, r, readings);
      && Ascending(acks) && r.lastInSequence <= final.lastInSequence
      && forall k :: 0 <= k < |acks| ==> r.lastInSequence <= acks[k] <= final.lastInSequence
    decreases |readings|
  {
    hide ReceiverStep;
    if readings != [] {
      AckOfStep(t, r, readings[0]);
      var (next, acks) := ReceiverStep(t, r, readings[0]);
      AcksAscend(t, next, readings[1..]);
      var later := RunReceiver(t, next, readings[1..]).1;
      forall i, j | 0 <= i < j < |acks + later|
        ensures (acks + later)[i] <= (acks + later)[j]
      {
        if i >= |acks| {
          assert later[i - |acks|] <= later[j - |acks|];
        }
      }
    }
  }

  /**
   On every run of any receiver the ACKs reported are those it sent, the handshake's
   included, and up to block 65535 the duplicates reported are exactly its repetitions.
   */
  lemma ObserverCountsAcks(x: Transfer, sights: seq<Sight>, t: Terms, handshake: bool, readings: seq<Reading>)
    requires forall i :: 0 <= i < |sights| ==> Plausible(sights[i])
    requires BlocksAcknowledged(sights) == (if handshake then [0] else []) + RunReceiver(t, ReceiverStart(1), readings).1
    ensures var acks, report := BlocksAcknowledged(sights), Observed(x, sights);
      && report.acknowledgementsSent == |RunReceiver(t, ReceiverStart(1), readings).1| + (if handshake then 1 else 0)
      && (RunReceiver(t, ReceiverStart(1), readings).0.lastInSequence < WIRE_NUMBERS ==>
            report.duplicateAcknowledgements == |acks| - |Distinct(acks)|)
  {
    hide RunReceiver, Trace, ContextOf, Duplicates, Highest;
    ObserverFindsAll(x, sights);
    AcksAscend(t, ReceiverStart(1), readings);
    var acks := BlocksAcknowledged(sights);
    assert Ascending(acks);
    if RunReceiver(t, ReceiverStart(1), readings).0.lastInSequence < WIRE_NUMBERS {
      DuplicatesAreRepeats(acks);
    }
  }

  // ------------------------------------------------------ Wraparound verdict

  /** Each block sent is the one after the last, or the start of a window sent again. */
  ghost predicate Follows(window: nat, previous: nat, next: nat) {
    next == previous + 1 || (next <= previous < next + window)
  }

  ghost predicate InOrder(window: nat, sends: seq<nat>) {
    forall k :: 0 < k < |sends| ==> Follows(window, sends[k - 1], sends[k])
  }

  lemma StepInOrder(payload: Bytes, t: Terms, s: Sender, reading: Reading)
    requires SenderInvariant(payload, t, s)
    ensures var (next, sends) := SenderStep(payload, t, s, reading);
      && InOrder(t.Window(), [s.highestSent] + sends)
      && next.highestSent == ([s.highestSent] + sends)[|sends|]
  {
  }

  lemma {:induction false} RunInOrder(payload: Bytes, t: Terms, s: Sender, readings: seq<Reading>)
    requires SenderInvariant(payload, t, s)
    ensures var (final, sends) := RunSender(payload, t, s, readings);
      && InOrder(t.Window(), [s.highestSent] + sends)
      && final.highestSent == ([s.highestSent] + sends)[|sends|]
    decreases |readings|
  {
    hide SenderStep, SenderInvariant, Follows;
    if readings != [] {
      StepInOrder(payload, t, s, readings[0]);
      SenderStepKeepsInvariant(payload, t, s, readings[0]);
      var (next, sends) := SenderStep(payload, t, s, readings[0]);
      RunInOrder(payload, t, next, readings[1..]);
      OrderJoins(t.Window(), s.highestSent, sends, next.highestSent, RunSender(payload, t, next, readings[1..]).1);
    }
  }

  lemma OrderJoins(window: nat, first: nat, a: seq<nat>, middle: nat, b: seq<nat>)
    requires InOrder(window, [first] + a) && InOrder(window, [middle] + b) && middle == ([first] + a)[|a|]
    ensures InOrder(window, [first] + (a + b))
    ensures ([first] + (a + b))[|a + b|] == ([middle] + b)[|b|]
  {
    hide Follows;
    var all := [first] + (a + b);
    forall k | 0 < k < |all|
      ensures Follows(window, all[k - 1], all[k])
    {
      if k <= |a| {
        assert all[k - 1] == ([first] + a)[k - 1] && all[k] == ([first] + a)[k];
      } else {
        assert all[k - 1] == ([middle] + b)[k - 1 - |a|] && all[k] == ([middle] + b)[k - |a|];
      }
    }
  }

  lemma AllSendsInOrder(payload: Bytes, t: Terms, startingCount: nat, readings: seq<Reading>)
    ensures var sends := AllSends(payload, t, startingCount, readings);
      && sends != [] && sends[0] == 1 && InOrder(t.Window(), sends)
      && sends[|sends| - 1] == SenderAfter(payload, t, startingCount, readings).highestSent
  {
    var (start, first) := SenderStart(payload, t, startingCount);
    SenderInvariantHolds(payload, t, startingCount);
    RunInOrder(payload, t, start, readings);
    assert first == Span(0, start.highestSent) && start.highestSent >= 1;
    assert InOrder(t.Window(), [0] + first) && ([0] + first)[|first|] == start.highestSent;
    var later := RunSender(payload, t, start, readings).1;
    OrderJoins(t.Window(), 0, first, start.highestSent, later);
    hide SenderStart, RunSender, SenderInvariant, Follows;
    var sends := first + later;
    forall k | 0 < k < |sends|
      ensures Follows(t.Window(), sends[k - 1], sends[k])
    {
      assert ([0] + sends)[k] == sends[k - 1] && ([0] + sends)[k + 1] == sends[k];
    }
    assert ([0] + sends)[|sends|] == sends[|sends| - 1];
  }

  /** The report's fields about single DATA packets, in terms of the blocks sent. */
  lemma ObservedBlocks(x: Transfer, sights: seq<Sight>)
    requires forall i :: 0 <= i < |sights| ==> Plausible(sights[i])
    ensures var report, sends := Observed(x, sights), BlocksSent(sights);
      && report.finalDataBlockLength
         == (if sends == [] then 0 else |BlockPayload(x.payload, sends[|sends| - 1], x.blockSize)|)
      && report.highestBlockNumber == Highest(WireNumbersOf(sends))
      && (report.blockNumberWrapped <==> exists k :: WrapsAt(sends, k))
  {
    hide BlockPayload, Trace, ContextOf, RequestTid, ServerTid, Short, Blocks, Highest, Plausible;
    ObserverFindsAll(x, sights);
    var sends := BlocksSent(sights);
    var data := DataPackets(x, sends);
    assert BlockNumbers(data) == WireNumbersOf(sends);
    WrapsSomewhere(data, sends);
    hide Wraps, WrapsAt;
  }

  /** The number behind 65535 is seen to be small. */
  predicate WrapsAt(sends: seq<nat>, k: int) {
    0 < k < |sends| && WireBlockNumber(sends[k - 1]) == 65535 && WireBlockNumber(sends[k]) < 100
  }

  lemma WrapsSomewhere(data: seq<Packet>, sends: seq<nat>)
    requires |data| == |sends|
    requires forall k :: 0 <= k < |data| ==> data[k].Data? && data[k].block == WireBlockNumber(sends[k])
    ensures Wraps(data) <==> exists k :: WrapsAt(sends, k)
  {
    if Wraps(data) {
      var k :| 0 < k < |data| && data[k - 1].block == 0xFFFF && data[k].block < WRAP_CEILING;
      assert WrapsAt(sends, k);
    }
    if k :| WrapsAt(sends, k) {
      assert data[k - 1].block == 0xFFFF && data[k].block < WRAP_CEILING;
    }
  }

  lemma HighestOfBlocks(sends: seq<nat>)
    requires sends != [] && forall k :: 0 <= k < |sends| ==> sends[k] <= sends[|sends| - 1] < WIRE_NUMBERS
    ensures Highest(WireNumbersOf(sends)) == sends[|sends| - 1]
  {
    var numbers := WireNumbersOf(sends);
    assert numbers[|sends| - 1] == sends[|sends| - 1];
    assert forall k :: 0 <= k < |numbers| ==> numbers[k] == sends[k];
  }

  /** The last DATA seen is the highest block sent; its length is reported, and up to block 65535 its number. */
  lemma LastBlockReported(x: Transfer, sights: seq<Sight>, t: Terms, startingCount: nat, readings: seq<Reading>)
    requires Records(x, sights, t, startingCount, readings)
    ensures var report, high := Observed(x, sights), SenderAfter(x.payload, t, startingCount, readings).highestSent;
      && report.finalDataBlockLength == |BlockPayload(x.payload, high, x.blockSize)|
      && (high < WIRE_NUMBERS ==> report.highestBlockNumber == high)
  {
    hide AllSends, SenderAfter, Observed, Follows, BlockPayload, WrapsAt, Highest, Plausible, BlocksSent;
    var sends := AllSends(x.payload, t, startingCount, readings);
    AllSendsInOrder(x.payload, t, startingCount, readings);
    NoneHigher(x.payload, t, startingCount, readings);
    ObservedBlocks(x, sights);
    if SenderAfter(x.payload, t, startingCount, readings).highestSent < WIRE_NUMBERS {
      HighestOfBlocks(sends);
    }
  }

  lemma NoneHigher(payload: Bytes, t: Terms, startingCount: nat, readings: seq<Reading>)
    ensures var sends := AllSends(payload, t, startingCount, readings);
      forall k :: 0 <= k < |sends| ==> sends[k] <= SenderAfter(payload, t, startingCount, readings).highestSent
  {
    SendsCoverExactly(payload, t, startingCount, readings);
    hide AllSends, SenderAfter;
    var sends := AllSends(payload, t, startingCount, readings);
    forall k | 0 <= k < |sends|
      ensures sends[k] <= SenderAfter(payload, t, startingCount, readings).highestSent
    {
      assert sends[k] in sends;
    }
  }

  lemma {:induction false} FirstBeyond(sends: seq<nat>, bound: nat) returns (k: nat)
    requires sends != [] && sends[|sends| - 1] >= bound
    ensures k < |sends| && sends[k] >= bound && forall i :: 0 <= i < k ==> sends[i] < bound
  {
    k := 0;
    while sends[k] < bound
      invariant k < |sends| && forall i :: 0 <= i < k ==> sends[i] < bound
      decreases |sends| - k
    {
      k := k + 1;
    }
  }

  /** Less than 65436 below a block numbered 65535 no number is below 100. */
  lemma NumbersInCycle(previous: nat, next: nat)
    requires next <= previous < next + 65436 && WireBlockNumber(previous) == 65535
    ensures WireBlockNumber(next) >= 100
  {
    assert WireBlockNumber(next) == 65535 - (previous - next);
  }

  lemma WrapsIffBeyond(window: nat, sends: seq<nat>)
    requires window <= 65436 && sends != [] && sends[0] == 1 && InOrder(window, sends)
    requires forall k :: 0 <= k < |sends| ==> sends[k] <= sends[|sends| - 1]
    ensures (exists k :: WrapsAt(sends, k)) <==> sends[|sends| - 1] >= 65536
  {
    if k :| WrapsAt(sends, k) {
      assert Follows(window, sends[k - 1], sends[k]);
      if sends[k] != sends[k - 1] + 1 {
        NumbersInCycle(sends[k - 1], sends[k]);
      }
    }
    if sends[|sends| - 1] >= 65536 {
      var k := FirstBeyond(sends, 65536);
      assert Follows(window, sends[k - 1], sends[k]);
      StepsToWrap(window, sends[k - 1], sends[k]);
      assert WrapsAt(sends, k);
    }
  }

  /** With windows of up to 65436 a wraparound is reported exactly when the block numbers have wrapped round. */
  lemma WraparoundVerdict(x: Transfer, sights: seq<Sight>, t: Terms, startingCount: nat, readings: seq<Reading>)
    requires Records(x, sights, t, startingCount, readings) && t.Window() <= 65436
    ensures Observed(x, sights).blockNumberWrapped <==>
            SenderAfter(x.payload, t, startingCount, readings).highestSent >= 65536
  {
    hide AllSends, SenderAfter, Observed, Follows, BlockPayload, WrapsAt, Highest, Plausible, BlocksSent, InOrder;
    var sends := AllSends(x.payload, t, startingCount, readings);
    AllSendsInOrder(x.payload, t, startingCount, readings);
    NoneHigher(x.payload, t, startingCount, readings);
    ObservedBlocks(x, sights);
    WrapsIffBeyond(t.Window(), sends);
  }

  lemma StepsToWrap(window: nat, previous: nat, next: nat)
    requires Follows(window, previous, next) && previous < 65536 <= next
    ensures previous == 65535 && next == 65536
    ensures WireBlockNumber(previous) == 65535 && WireBlockNumber(next) == 0
  {
  }

  /** With larger ones it is also reported when a window ending in block 65535 is sent again from one below 100. */
  lemma FalseWraparound(payload: Bytes, t: Terms) returns (readings: seq<Reading>)
    requires t.Window() > 65436 && SenderTotal(payload, t) >= 65535 && t.config.maximumRetransmissions >= 1
    ensures SenderAfter(payload, t, 0, readings).highestSent == 65535
    ensures forall x: Transfer, sights :: x.payload == payload && Records(x, sights, t, 0, readings) ==>
              Observed(x, sights).blockNumberWrapped
  {
    var acked := 65535 - t.Window();
    readings := (if acked == 0 then [] else [GotPacket(Acknowledgement(acked))]) + [TimedOut];
    WindowSentAgain(payload, t, acked, readings);
    var sends := AllSends(payload, t, 0, readings);
    assert WrapsAt(sends, 65535);
    hide AllSends, SenderAfter, WrapsAt, Observed;
    forall x: Transfer, sights | x.payload == payload && Records(x, sights, t, 0, readings)
      ensures Observed(x, sights).blockNumberWrapped
    {
      ObservedBlocks(x, sights);
    }
  }

  /** Blocks 1 to 65535, and then again from the first one not acknowledged. */
  lemma WindowSentAgain(payload: Bytes, t: Terms, acked: nat, readings: seq<Reading>)
    requires t.Window() > 65436 && SenderTotal(payload, t) >= 65535 && t.config.maximumRetransmissions >= 1
    requires acked == 65535 - t.Window()
    requires readings == (if acked == 0 then [] else [GotPacket(Acknowledgement(acked))]) + [TimedOut]
    ensures SenderAfter(payload, t, 0, readings).highestSent == 65535
    ensures var sends := AllSends(payload, t, 0, readings);
      |sends| > 65535 && sends[65534] == 65535 && sends[65535] == acked + 1
  {
    hide SenderTotal;
    var (start, first) := SenderStart(payload, t, 0);
    if acked == 0 {
      assert readings == [TimedOut];
      OneReading(payload, t, start, TimedOut);
    } else {
      var ack := GotPacket(Acknowledgement(acked));
      assert readings == [ack] + [TimedOut];
      var resolved := ResolveAck(acked, 0, t.Window());
      assert WireBlockNumber(acked) == acked && WireBlockNumber(resolved) == resolved;
      assert resolved == acked;
      var (next, second) := SenderStep(payload, t, start, ack);
      assert readings[1..] == [TimedOut];
      OneReading(payload, t, next, TimedOut);
      hide ResolveAck;
    }
  }

  lemma OneReading(payload: Bytes, t: Terms, s: Sender, reading: Reading)
    ensures RunSender(payload, t, s, [reading]) == SenderStep(payload, t, s, reading)
  {
    hide SenderStep;
    assert [reading][1..] == [];
    var sends := SenderStep(payload, t, s, reading).1;
    assert sends + [] == sends;
  }
}
