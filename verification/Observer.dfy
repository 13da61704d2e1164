/**
 The packet observer (src/verify/packet_observer.cpp): what it measures over a
 trace, stated outright, and the single pass that measures it.
 */
module Observer {
  import opened Basics
  import opened Codec

  datatype Disposition = Delivered | Dropped | Corrupted | Injected

  datatype TraceRecord = TraceRecord(
    direction: Direction,
    sourceTid: U16,
    destinationTid: U16,
    packet: Option<Packet>,  // None when the datagram did not parse
    disposition: Disposition,
    note: string)

  datatype TransferDirection = Download | Upload
  datatype Context = Context(direction: TransferDirection, blockSize: nat)

  datatype Report = Report(
    totalRecords: nat,
    dataPacketsSent: nat,
    distinctDataBlocks: nat,
    retransmittedDataPackets: nat,
    finalDataBlockLength: nat,
    terminatingShortBlockPresent: bool,
    acknowledgementsSent: nat,
    duplicateAcknowledgements: nat,
    datagramsDropped: nat,
    datagramsCorrupted: nat,
    datagramsInjected: nat,
    strayTidReplies: nat,
    strayTidReplyWasError5: bool,
    serverSelectedFreshTid: bool,
    requestDestinationTid: U16,
    serverSourceTid: U16,
    highestBlockNumber: U16,
    blockNumberWrapped: bool)

  function DataDirection(d: TransferDirection): Direction {
    if d.Download? then ServerToClient else ClientToServer
  }

  function AckDirection(d: TransferDirection): Direction {
    if d.Download? then ClientToServer else ServerToClient
  }

  predicate IsPeerSend(r: TraceRecord) {
    !r.disposition.Injected?
  }

  // ------------------------------------------------ What the trace contains

  predicate IsDataSend(r: TraceRecord, c: Context) {
    r.direction == DataDirection(c.direction) && IsPeerSend(r) && r.packet.Some? && r.packet.value.Data?
  }

  predicate IsAckSend(r: TraceRecord, c: Context) {
    r.direction == AckDirection(c.direction) && IsPeerSend(r) && r.packet.Some?
    && r.packet.value.Acknowledgement?
  }

  /** The peer's DATA packets, in order. */
  function DataSends(trace: seq<TraceRecord>, c: Context): (d: seq<Packet>)
    ensures forall k :: 0 <= k < |d| ==> d[k].Data?
    ensures |d| <= |trace|
  {
    if trace == [] then []
    else
      var last := trace[|trace| - 1];
      DataSends(trace[..|trace| - 1], c) + if IsDataSend(last, c) then [last.packet.value] else []
  }

  /** The block numbers of the peer's ACK packets, in order. */
  function AckSends(trace: seq<TraceRecord>, c: Context): seq<U16> {
    if trace == [] then []
    else
      var last := trace[|trace| - 1];
      AckSends(trace[..|trace| - 1], c) + if IsAckSend(last, c) then [last.packet.value.block] else []
  }

  function Blocks(data: seq<Packet>): set<U16>
    requires forall k :: 0 <= k < |data| ==> data[k].Data?
  {
    set k | 0 <= k < |data| :: data[k].block
  }

  function Highest(numbers: seq<U16>): (h: U16)
    ensures forall k :: 0 <= k < |numbers| ==> numbers[k] <= h
    ensures if numbers == [] then h == 0 else h in numbers
  {
    if numbers == [] then 0
    else
      var before := Highest(numbers[..|numbers| - 1]);
      Max(before, numbers[|numbers| - 1])
  }

  /** ACKs that repeat the highest number acknowledged before them. */
  function Duplicates(acks: seq<U16>): nat {
    if |acks| <= 1 then 0
    else
      Duplicates(acks[..|acks| - 1])
      + if acks[|acks| - 1] == Highest(acks[..|acks| - 1]) then 1 else 0
  }

  function BlockNumbers(data: seq<Packet>): (n: seq<U16>)
    requires forall k :: 0 <= k < |data| ==> data[k].Data?
    ensures |n| == |data|
  {
    seq(|data|, k requires 0 <= k < |data| => data[k].block)
  }

  predicate Short(data: seq<Packet>, blockSize: nat)
    requires forall k :: 0 <= k < |data| ==> data[k].Data?
  {
    exists k :: 0 <= k < |data| && |data[k].data| < blockSize
  }

  const WRAP_CEILING := 100

  predicate Wraps(data: seq<Packet>)
    requires forall k :: 0 <= k < |data| ==> data[k].Data?
  {
    exists k :: 0 < k < |data| && data[k - 1].block == 0xFFFF && data[k].block < WRAP_CEILING
  }

  function Handled(trace: seq<TraceRecord>, d: Disposition): nat {
    if trace == [] then 0
    else Handled(trace[..|trace| - 1], d) + if trace[|trace| - 1].disposition == d then 1 else 0
  }

  predicate Mentions(note: string, phrase: string) {
    exists i {:trigger note[i..]} :: 0 <= i <= |note| && phrase <= note[i..]
  }

  predicate IsStrayReply(r: TraceRecord) {
    r.disposition.Injected? && Mentions(r.note, "reply to stray TID")
  }

  predicate IsError5(r: TraceRecord) {
    r.packet.Some? && r.packet.value.Error? && r.packet.value.code == 5
  }

  function StrayReplies(trace: seq<TraceRecord>): nat {
    if trace == [] then 0
    else StrayReplies(trace[..|trace| - 1]) + if IsStrayReply(trace[|trace| - 1]) then 1 else 0
  }

  predicate SomeStrayReplyIsError5(trace: seq<TraceRecord>) {
    exists k :: 0 <= k < |trace| && IsStrayReply(trace[k]) && IsError5(trace[k])
  }

  predicate IsRequest(r: TraceRecord) {
    IsPeerSend(r) && r.packet.Some? && (r.packet.value.ReadRequest? || r.packet.value.WriteRequest?)
  }

  predicate ShowsServerTid(r: TraceRecord) {
    IsPeerSend(r) && r.direction.ServerToClient? && r.sourceTid != 0 && r.packet.Some?
    && (r.packet.value.Data? || r.packet.value.OptionAcknowledgement?)
  }

  /** Where the first request was sent. */
  function RequestTid(trace: seq<TraceRecord>): Option<U16> {
    if trace == [] then None
    else
      var before := RequestTid(trace[..|trace| - 1]);
      if before.Some? then before
      else if IsRequest(trace[|trace| - 1]) then Some(trace[|trace| - 1].destinationTid)
      else None
  }

  /** The port the server first answered from, 0 while it has not. */
  function ServerTid(trace: seq<TraceRecord>): U16 {
    if trace == [] then 0
    else
      var before := ServerTid(trace[..|trace| - 1]);
      if before != 0 then before
      else if ShowsServerTid(trace[|trace| - 1]) then trace[|trace| - 1].sourceTid
      else 0
  }

  /** Both are told by the first record that shows them. */
  lemma {:induction false} FirstRecordTells(trace: seq<TraceRecord>) returns (request: nat, server: nat)
    ensures request <= |trace| && server <= |trace|
    ensures forall k :: 0 <= k < request ==> !IsRequest(trace[k])
    ensures forall k :: 0 <= k < server ==> !ShowsServerTid(trace[k])
    ensures if request == |trace| then RequestTid(trace) == None
            else IsRequest(trace[request]) && RequestTid(trace) == Some(trace[request].destinationTid)
    ensures if server == |trace| then ServerTid(trace) == 0
            else ShowsServerTid(trace[server]) && ServerTid(trace) == trace[server].sourceTid != 0
  {
    hide IsRequest, ShowsServerTid;
    request, server := 0, 0;
    if trace != [] {
      var n := |trace| - 1;
      request, server := FirstRecordTells(trace[..n]);
      ShownIsNotZero(trace[n]);
      if request == n && !IsRequest(trace[n]) {
        request := |trace|;
      }
      if server == n && !ShowsServerTid(trace[n]) {
        server := |trace|;
      }
    }
  }

  lemma ShownIsNotZero(r: TraceRecord)
    ensures ShowsServerTid(r) ==> r.sourceTid != 0
  {
  }

  lemma {:induction false} DistinctWithinSent(data: seq<Packet>)
    requires forall k :: 0 <= k < |data| ==> data[k].Data?
    ensures |Blocks(data)| <= |data|
  {
    if data != [] {
      var n := |data| - 1;
      DistinctWithinSent(data[..n]);
      assert Blocks(data) == Blocks(data[..n]) + {data[n].block};
    }
  }

  /** Everything the observer reports, as facts about the trace. */
  function Measured(trace: seq<TraceRecord>, c: Context): Report {
    var data, acks := DataSends(trace, c), AckSends(trace, c);
    var request, server := RequestTid(trace), ServerTid(trace);
    DistinctWithinSent(data);
    Report(
      |trace|,
      |data|,
      |Blocks(data)|,
      |data| - |Blocks(data)|,
      if data == [] then 0 else |data[|data| - 1].data|,
      Short(data, c.blockSize),
      |acks|,
      Duplicates(acks),
      Handled(trace, Dropped),
      Handled(trace, Corrupted),
      Handled(trace, Injected),
      StrayReplies(trace),
      SomeStrayReplyIsError5(trace),
      request.Some? && server != 0 && server != request.value,
      if request.Some? then request.value else 0,
      server,
      Highest(BlockNumbers(data)),
      Wraps(data))
  }

  // --------------------------------------------------------- The single pass

  /** DATA-direction accounting, one more packet. */
  lemma OneMoreData(data: seq<Packet>, p: Packet, blockSize: nat)
    requires (forall k :: 0 <= k < |data| ==> data[k].Data?) && p.Data?
    ensures var more := data + [p];
      && Blocks(more) == Blocks(data) + {p.block}
      && (Short(more, blockSize) <==> Short(data, blockSize) || |p.data| < blockSize)
      && Highest(BlockNumbers(more)) == Max(Highest(BlockNumbers(data)), p.block)
      && (Wraps(more) <==>
            (Wraps(data) || (data != [] && data[|data| - 1].block == 0xFFFF && p.block < WRAP_CEILING)))
  {
    var more, n := data + [p], |data|;
    assert more[n] == p;
    assert BlockNumbers(more)[..n] == BlockNumbers(data);
    forall k | 0 <= k < n
      ensures more[k] == data[k]
    {
    }
    if n > 0 && data[n - 1].block == 0xFFFF && p.block < WRAP_CEILING {
      assert more[n - 1].block == 0xFFFF && more[n].block < WRAP_CEILING;
    }
    if Wraps(data) {
      var k :| 0 < k < |data| && data[k - 1].block == 0xFFFF && data[k].block < WRAP_CEILING;
      assert more[k - 1].block == 0xFFFF && more[k].block < WRAP_CEILING;
    }
    if Short(data, blockSize) {
      var k :| 0 <= k < |data| && |data[k].data| < blockSize;
      assert |more[k].data| < blockSize;
    }
  }

  lemma OneMoreAck(acks: seq<U16>, a: U16)
    ensures Highest(acks + [a]) == Max(Highest(acks), a)
    ensures Duplicates(acks + [a]) ==
            Duplicates(acks) + if acks != [] && a == Highest(acks) then 1 else 0
  {
    assert (acks + [a])[..|acks|] == acks;
  }

  /** The observer's locals for the DATA direction. */
  datatype DataTally = DataTally(
    sent: nat,
    distinct: set<U16>,
    lastLength: nat,
    previousBlock: U16,
    highest: U16,
    wrapped: bool,
    short: bool)

  function TallyOf(data: seq<Packet>, blockSize: nat): DataTally
    requires forall k :: 0 <= k < |data| ==> data[k].Data?
  {
    DataTally(|data|, Blocks(data),
              if data == [] then 0 else |data[|data| - 1].data|,
              if data == [] then 0 else data[|data| - 1].block,
              Highest(BlockNumbers(data)), Wraps(data), Short(data, blockSize))
  }

  method TallyData(t: DataTally, p: Packet, blockSize: nat, ghost data: seq<Packet>) returns (t': DataTally)
    requires (forall k :: 0 <= k < |data| ==> data[k].Data?) && p.Data?
    requires t == TallyOf(data, blockSize)
    ensures t' == TallyOf(data + [p], blockSize)
  {
    OneMoreData(data, p, blockSize);
    hide Blocks, Highest, Wraps, Short, BlockNumbers;
    t' := t.(sent := t.sent + 1, distinct := t.distinct + {p.block}, lastLength := |p.data|,
             previousBlock := p.block, highest := Max(t.highest, p.block));
    if t.sent > 0 && t.previousBlock == 0xFFFF && p.block < WRAP_CEILING {
      t' := t'.(wrapped := true);
    }
    if |p.data| < blockSize {
      t' := t'.(short := true);
    }
  }

  datatype AckTally = AckTally(sent: nat, duplicates: nat, highest: U16)

  method TallyAck(t: AckTally, number: U16, ghost acks: seq<U16>) returns (t': AckTally)
    requires t == AckTally(|acks|, Duplicates(acks), Highest(acks))
    ensures t' == AckTally(|acks| + 1, Duplicates(acks + [number]), Highest(acks + [number]))
  {
    OneMoreAck(acks, number);
    t' := t.(sent := t.sent + 1);
    if t.sent > 0 && number == t.highest {
      t' := t'.(duplicates := t.duplicates + 1);
    }
    if t.sent == 0 || number > t.highest {
      t' := t'.(highest := number);
    }
  }

  datatype SessionTally = SessionTally(
    dropped: nat,
    corrupted: nat,
    injected: nat,
    strayReplies: nat,
    strayError5: bool,
    request: Option<U16>,
    serverTid: U16)

  function SessionOf(trace: seq<TraceRecord>): SessionTally {
    SessionTally(Handled(trace, Dropped), Handled(trace, Corrupted), Handled(trace, Injected),
                 StrayReplies(trace), SomeStrayReplyIsError5(trace), RequestTid(trace), ServerTid(trace))
  }

  method TallySession(t: SessionTally, trace: seq<TraceRecord>, i: nat) returns (t': SessionTally)
    requires i < |trace| && t == SessionOf(trace[..i])
    ensures t' == SessionOf(trace[..i + 1])
  {
    hide Mentions, SomeStrayReplyIsError5;
    StrayError5Grows(trace, i);
    assert trace[..i + 1][..i] == trace[..i];
    var record := trace[i];
    t' := t;
    match record.disposition {
      case Dropped => t' := t'.(dropped := t.dropped + 1);
      case Corrupted => t' := t'.(corrupted := t.corrupted + 1);
      case Injected => t' := t'.(injected := t.injected + 1);
      case Delivered =>
    }
    if t.request.None? && IsRequest(record) {
      t' := t'.(request := Some(record.destinationTid));
    }
    if t.serverTid == 0 && IsPeerSend(record) && record.direction.ServerToClient? && record.packet.Some? &&
       (record.packet.value.Data? || record.packet.value.OptionAcknowledgement?) {
      t' := t'.(serverTid := record.sourceTid);
    }
    if record.disposition.Injected? && Mentions(record.note, "reply to stray TID") {
      t' := t'.(strayReplies := t.strayReplies + 1);
      if IsError5(record) {
        t' := t'.(strayError5 := true);
      }
    }
  }

  method Observe(trace: seq<TraceRecord>, c: Context) returns (report: Report)
    ensures report == Measured(trace, c)
  {
    hide IsDataSend, IsAckSend, SessionOf, TallyOf, Duplicates, Highest;
    EmptyTallies(c.blockSize);
    var session := SessionTally(0, 0, 0, 0, false, None, 0);
    var dataTally, ackTally := DataTally(0, {}, 0, 0, 0, false, false), AckTally(0, 0, 0);
    for i := 0 to |trace|
      invariant session == SessionOf(trace[..i])
      invariant dataTally == TallyOf(DataSends(trace[..i], c), c.blockSize)
      invariant var acks := AckSends(trace[..i], c);
        ackTally == AckTally(|acks|, Duplicates(acks), Highest(acks))
    {
      var record := trace[i];
      assert trace[..i + 1][..i] == trace[..i];
      session := TallySession(session, trace, i);
      if IsDataSend(record, c) {
        dataTally := TallyData(dataTally, DataOf(record, c), c.blockSize, DataSends(trace[..i], c));
      } else {
        assert DataSends(trace[..i + 1], c) == DataSends(trace[..i], c);
      }
      if IsAckSend(record, c) {
        ackTally := TallyAck(ackTally, AckOf(record, c), AckSends(trace[..i], c));
      } else {
        assert AckSends(trace[..i + 1], c) == AckSends(trace[..i], c);
      }
    }
    assert trace[..|trace|] == trace;
    report := Finish(|trace|, trace, c, session, dataTally, ackTally);
  }

  function DataOf(r: TraceRecord, c: Context): (p: Packet)
    requires IsDataSend(r, c)
    ensures r.packet == Some(p) && p.Data?
  {
    r.packet.value
  }

  function AckOf(r: TraceRecord, c: Context): (a: U16)
    requires IsAckSend(r, c)
    ensures r.packet == Some(Acknowledgement(a))
  {
    r.packet.value.block
  }

  lemma EmptyTallies(blockSize: nat)
    ensures SessionOf([]) == SessionTally(0, 0, 0, 0, false, None, 0)
    ensures TallyOf([], blockSize) == DataTally(0, {}, 0, 0, 0, false, false)
    ensures Duplicates([]) == 0 && Highest([]) == 0
  {
  }

  /** The report fields the observer fills in after its loop. */
  method Finish(records: nat, ghost trace: seq<TraceRecord>, c: Context, session: SessionTally,
                dataTally: DataTally, ackTally: AckTally) returns (report: Report)
    requires session == SessionOf(trace) && dataTally == TallyOf(DataSends(trace, c), c.blockSize)
    requires var acks := AckSends(trace, c);
      ackTally == AckTally(|acks|, Duplicates(acks), Highest(acks))
    requires records == |trace|
    ensures report == Measured(trace, c)
  {
    hide Handled, StrayReplies, SomeStrayReplyIsError5, RequestTid, ServerTid, DataSends, AckSends,
         Blocks, BlockNumbers, Highest, Wraps, Short, Duplicates;
    DistinctWithinSent(DataSends(trace, c));
    var request := if session.request.Some? then session.request.value else 0;
    report := Report(
      records, dataTally.sent, |dataTally.distinct|, dataTally.sent - |dataTally.distinct|,
      dataTally.lastLength, dataTally.short,
      ackTally.sent, ackTally.duplicates,
      session.dropped, session.corrupted, session.injected,
      session.strayReplies, session.strayError5,
      session.request.Some? && session.serverTid != 0 && session.serverTid != request,
      request, session.serverTid, dataTally.highest, dataTally.wrapped);
  }

  lemma StrayError5Grows(trace: seq<TraceRecord>, i: nat)
    requires i < |trace|
    ensures SomeStrayReplyIsError5(trace[..i + 1]) <==>
            SomeStrayReplyIsError5(trace[..i]) || (IsStrayReply(trace[i]) && IsError5(trace[i]))
  {
    hide Mentions;
    if SomeStrayReplyIsError5(trace[..i]) {
      var k :| 0 <= k < i && IsStrayReply(trace[..i][k]) && IsError5(trace[..i][k]);
      assert trace[..i + 1][k] == trace[..i][k];
    }
    assert trace[..i + 1][i] == trace[i];
    assert forall k :: 0 <= k < i ==> trace[..i + 1][k] == trace[..i][k];
  }
}
