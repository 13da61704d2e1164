/**
 The trace of a transfer as the proxy records it (src/net/impairment_proxy.cpp,
 `observe_and_relay` and the stray sockets of `relay_loop`): one record for each
 datagram that passes, made outright from who sent it, and what the observer makes
 of such a trace.
 */
module Recording {
  import opened Basics
  import opened Codec
  import opened DataPlane
  import opened Observer

  /** Who transfers what to whom. */
  datatype Transfer = Transfer(
    download: bool,
    payload: Bytes,
    blockSize: Positive,
    clientTid: U16,
    listenTid: U16,  // where the server takes requests
    serverTid: U16)  // where it answers from

  datatype Fate = WasDelivered | WasDropped | WasCorrupted

  /** One thing the proxy sees, in the order in which it sees them. */
  datatype Sight =
    | RequestSeen(request: Packet, fate: Fate, note: string)
    | OackSeen(options: seq<TftpOption>, fate: Fate, note: string)
    | DataSeen(index: nat, fate: Fate, note: string)
    | AckSeen(index: nat, fate: Fate, note: string)
    | ErrorSeen(fromClient: bool, code: U16, message: Text, fate: Fate, note: string)
    | GarbageSeen(fromClient: bool, fate: Fate, note: string)
    | StrayReplySeen(sourceTid: U16, destinationTid: U16, packet: Option<Packet>)
    | InjectionSeen(towardClient: bool, sourceTid: U16, destinationTid: U16, packet: Option<Packet>, note: string)

  /** Requests are requests, and no injection is described as a reply to a stray. */
  predicate Plausible(sight: Sight) {
    match sight
    case RequestSeen(request, _, _) => request.ReadRequest? || request.WriteRequest?
    case InjectionSeen(_, _, _, _, note) => !Mentions(note, "reply to stray TID")
    case _ => true
  }

  function FateDisposition(fate: Fate): Disposition {
    match fate
    case WasDelivered => Delivered
    case WasDropped => Dropped
    case WasCorrupted => Corrupted
  }

  function FromClient(x: Transfer, destination: U16, packet: Option<Packet>, fate: Fate, note: string): TraceRecord {
    TraceRecord(ClientToServer, x.clientTid, destination, packet, FateDisposition(fate), note)
  }

  function FromServer(x: Transfer, packet: Option<Packet>, fate: Fate, note: string): TraceRecord {
    TraceRecord(ServerToClient, x.serverTid, x.clientTid, packet, FateDisposition(fate), note)
  }

  /** Sent by the end that has the file, or by the one that wants it. */
  function FromSource(x: Transfer, packet: Packet, fate: Fate, note: string): TraceRecord {
    if x.download then FromServer(x, Some(packet), fate, note)
    else FromClient(x, x.serverTid, Some(packet), fate, note)
  }

  function FromSink(x: Transfer, packet: Packet, fate: Fate, note: string): TraceRecord {
    if x.download then FromClient(x, x.serverTid, Some(packet), fate, note)
    else FromServer(x, Some(packet), fate, note)
  }

  function DataPacket(x: Transfer, index: nat): Packet {
    Data(WireBlockNumber(index), BlockPayload(x.payload, index, x.blockSize))
  }

  function RecordOf(x: Transfer, sight: Sight): TraceRecord {
    match sight
    case RequestSeen(request, fate, note) => FromClient(x, x.listenTid, Some(request), fate, note)
    case OackSeen(options, fate, note) => FromServer(x, Some(OptionAcknowledgement(options)), fate, note)
    case DataSeen(index, fate, note) => FromSource(x, DataPacket(x, index), fate, note)
    case AckSeen(index, fate, note) => FromSink(x, Acknowledgement(WireBlockNumber(index)), fate, note)
    case ErrorSeen(true, code, message, fate, note) => FromClient(x, x.serverTid, Some(Error(code, message)), fate, note)
    case ErrorSeen(false, code, message, fate, note) => FromServer(x, Some(Error(code, message)), fate, note)
    case GarbageSeen(true, fate, note) => FromClient(x, x.serverTid, None, fate, note)
    case GarbageSeen(false, fate, note) => FromServer(x, None, fate, note)
    case StrayReplySeen(source, destination, packet) =>
      TraceRecord(ClientToServer, source, destination, packet, Injected, "reply to stray TID (dropped by proxy)")
    case InjectionSeen(towardClient, source, destination, packet, note) =>
      TraceRecord(if towardClient then ServerToClient else ClientToServer, source, destination, packet, Injected, note)
  }

  function Trace(x: Transfer, sights: seq<Sight>): (trace: seq<TraceRecord>)
    ensures |trace| == |sights|
  {
    if sights == [] then [] else Trace(x, sights[..|sights| - 1]) + [RecordOf(x, sights[|sights| - 1])]
  }

  /** What the observer is told about the transfer. */
  function ContextOf(x: Transfer): Context {
    Context(if x.download then Download else Upload, x.blockSize)
  }

  // ------------------------------------------------------ DATA and ACKs in it

  /** The blocks sent, in order, whatever became of them. */
  function BlocksSent(sights: seq<Sight>): seq<nat> {
    if sights == [] then []
    else
      var last := sights[|sights| - 1];
      BlocksSent(sights[..|sights| - 1]) + if last.DataSeen? then [last.index] else []
  }

  /** The blocks acknowledged, in order. */
  function BlocksAcknowledged(sights: seq<Sight>): seq<nat> {
    if sights == [] then []
    else
      var last := sights[|sights| - 1];
      BlocksAcknowledged(sights[..|sights| - 1]) + if last.AckSeen? then [last.index] else []
  }

  function DataPackets(x: Transfer, blocks: seq<nat>): (d: seq<Packet>)
    ensures |d| == |blocks| && forall k :: 0 <= k < |d| ==> d[k] == DataPacket(x, blocks[k])
  {
    seq(|blocks|, k requires 0 <= k < |blocks| => DataPacket(x, blocks[k]))
  }

  function WireNumbersOf(blocks: seq<nat>): (n: seq<U16>)
    ensures |n| == |blocks| && forall k :: 0 <= k < |n| ==> n[k] == WireBlockNumber(blocks[k])
  {
    seq(|blocks|, k requires 0 <= k < |blocks| => WireBlockNumber(blocks[k]))
  }

  lemma OneRecord(x: Transfer, sight: Sight)
    requires Plausible(sight)
    ensures var r := RecordOf(x, sight);
      && (IsDataSend(r, ContextOf(x)) <==> sight.DataSeen?)
      && (sight.DataSeen? ==> r.packet == Some(DataPacket(x, sight.index)))
      && (IsAckSend(r, ContextOf(x)) <==> sight.AckSeen?)
      && (sight.AckSeen? ==> r.packet == Some(Acknowledgement(WireBlockNumber(sight.index))))
  {
  }

  /** The observer finds every DATA the source sent and every ACK the sink sent, and takes nothing else for one. */
  lemma {:induction false} ObserverFindsAll(x: Transfer, sights: seq<Sight>)
    requires forall i :: 0 <= i < |sights| ==> Plausible(sights[i])
    ensures DataSends(Trace(x, sights), ContextOf(x)) == DataPackets(x, BlocksSent(sights))
    ensures AckSends(Trace(x, sights), ContextOf(x)) == WireNumbersOf(BlocksAcknowledged(sights))
  {
    hide RecordOf, ContextOf, IsDataSend, IsAckSend;
    if sights != [] {
      var front, last := sights[..|sights| - 1], sights[|sights| - 1];
      ObserverFindsAll(x, front);
      OneRecord(x, last);
      assert Trace(x, sights)[..|sights| - 1] == Trace(x, front);
    }
  }

  // ------------------------------------------------- What became of datagrams

  /** How many of the datagrams met with this; injections and replies to strays do not count. */
  function Met(sights: seq<Sight>, fate: Fate): nat {
    if sights == [] then 0
    else
      var last := sights[|sights| - 1];
      Met(sights[..|sights| - 1], fate)
      + if !last.StrayReplySeen? && !last.InjectionSeen? && last.fate == fate then 1 else 0
  }

  function Injections(sights: seq<Sight>): nat {
    if sights == [] then 0
    else
      var last := sights[|sights| - 1];
      Injections(sights[..|sights| - 1]) + if last.StrayReplySeen? || last.InjectionSeen? then 1 else 0
  }

  lemma {:induction false} FatesCounted(x: Transfer, sights: seq<Sight>)
    ensures Handled(Trace(x, sights), Dropped) == Met(sights, WasDropped)
    ensures Handled(Trace(x, sights), Corrupted) == Met(sights, WasCorrupted)
    ensures Handled(Trace(x, sights), Injected) == Injections(sights)
  {
    if sights != [] {
      var front := sights[..|sights| - 1];
      FatesCounted(x, front);
      assert Trace(x, sights)[..|sights| - 1] == Trace(x, front);
    }
  }

  // -------------------------------------------------- Transfer IDs and strays

  /** A datagram from which the observer learns the server's transfer ID. */
  predicate ShowsServer(x: Transfer, sight: Sight) {
    sight.OackSeen? || (sight.DataSeen? && x.download)
  }

  lemma OneIdentity(x: Transfer, sight: Sight)
    requires Plausible(sight)
    ensures var r := RecordOf(x, sight);
      && (IsRequest(r) <==> sight.RequestSeen?) && (sight.RequestSeen? ==> r.destinationTid == x.listenTid)
      && (ShowsServerTid(r) <==> ShowsServer(x, sight) && x.serverTid != 0)
      && (ShowsServerTid(r) ==> r.sourceTid == x.serverTid)
      && (IsStrayReply(r) <==> sight.StrayReplySeen?)
      && (sight.StrayReplySeen? ==> r.packet == sight.packet)
  {
    hide Mentions;
    ReplyIsMentioned();
  }

  lemma ReplyIsMentioned()
    ensures Mentions("reply to stray TID (dropped by proxy)", "reply to stray TID")
  {
    var note := "reply to stray TID (dropped by proxy)";
    assert note[0..] == note && "reply to stray TID" <= note[0..];
  }

  /** The observer learns both transfer IDs from the datagrams that show them. */
  lemma {:induction false} IdentitiesLearnt(x: Transfer, sights: seq<Sight>)
    requires forall i :: 0 <= i < |sights| ==> Plausible(sights[i])
    ensures RequestTid(Trace(x, sights)) ==
            if exists i :: 0 <= i < |sights| && sights[i].RequestSeen? then Some(x.listenTid) else None
    ensures ServerTid(Trace(x, sights)) ==
            if exists i :: 0 <= i < |sights| && ShowsServer(x, sights[i]) then x.serverTid else 0
  {
    hide RecordOf, IsRequest, ShowsServerTid, ShowsServer, IsStrayReply;
    if sights != [] {
      var front, last := sights[..|sights| - 1], sights[|sights| - 1];
      IdentitiesLearnt(x, front);
      OneIdentity(x, last);
      assert Trace(x, sights)[..|sights| - 1] == Trace(x, front);
      assert sights == front + [last];
    }
  }

  /**
   RFC 1350 section 4: a fresh transfer ID is reported exactly if the server took one
   and a request and an OACK or DATA of the server were seen; of an upload without
   options neither is sent.
   */
  lemma FreshTidVerdict(x: Transfer, sights: seq<Sight>)
    requires forall i :: 0 <= i < |sights| ==> Plausible(sights[i])
    ensures Measured(Trace(x, sights), ContextOf(x)).serverSelectedFreshTid <==>
            && x.serverTid != 0 && x.serverTid != x.listenTid
            && (exists i :: 0 <= i < |sights| && sights[i].RequestSeen?)
            && (exists i :: 0 <= i < |sights| && (sights[i].OackSeen? || (sights[i].DataSeen? && x.download)))
  {
    hide Trace, ContextOf;
    IdentitiesLearnt(x, sights);
    assert (exists i :: 0 <= i < |sights| && ShowsServer(x, sights[i])) <==>
      (exists i :: 0 <= i < |sights| && (sights[i].OackSeen? || (sights[i].DataSeen? && x.download)));
  }

  function StrayRepliesSeen(sights: seq<Sight>): nat {
    if sights == [] then 0
    else StrayRepliesSeen(sights[..|sights| - 1]) + if sights[|sights| - 1].StrayReplySeen? then 1 else 0
  }

  /** And the replies to strays are counted, with the verdict that one of them was an ERROR 5. */
  lemma {:induction false} StrayReplyVerdict(x: Transfer, sights: seq<Sight>)
    requires forall i :: 0 <= i < |sights| ==> Plausible(sights[i])
    ensures StrayReplies(Trace(x, sights)) == StrayRepliesSeen(sights)
    ensures SomeStrayReplyIsError5(Trace(x, sights)) <==>
            exists i, message :: 0 <= i < |sights| && sights[i].StrayReplySeen? && sights[i].packet == Some(Error(5, message))
  {
    hide RecordOf, IsStrayReply;
    if sights != [] {
      var front, last := sights[..|sights| - 1], sights[|sights| - 1];
      StrayReplyVerdict(x, front);
      OneIdentity(x, last);
      var trace := Trace(x, sights);
      assert trace[..|sights| - 1] == Trace(x, front);
      StrayError5Grows(trace, |sights| - 1);
      assert trace[..|sights|] == trace;
      assert sights == front + [last];
      LastReply(front, last);
    }
  }

  lemma LastReply(front: seq<Sight>, last: Sight)
    ensures (exists i, message :: 0 <= i < |front + [last]| && (front + [last])[i].StrayReplySeen?
                                  && (front + [last])[i].packet == Some(Error(5, message))) <==>
            (exists i, message :: 0 <= i < |front| && front[i].StrayReplySeen? && front[i].packet == Some(Error(5, message)))
            || (last.StrayReplySeen? && last.packet.Some? && last.packet.value.Error? && last.packet.value.code == 5)
  {
    var all := front + [last];
    assert all[|front|] == last;
    assert forall i :: 0 <= i < |front| ==> all[i] == front[i];
    if last.StrayReplySeen? && last.packet.Some? && last.packet.value.Error? && last.packet.value.code == 5 {
      assert all[|front|].packet == Some(Error(5, last.packet.value.message));
    }
  }

  // ------------------------------------------------------- ACKs of the sink

  predicate Ascending(blocks: seq<nat>) {
    forall i, j :: 0 <= i < j < |blocks| ==> blocks[i] <= blocks[j]
  }

  function Distinct(blocks: seq<nat>): set<nat> {
    set k | 0 <= k < |blocks| :: blocks[k]
  }

  /** ACKs sent in order without a wraparound: what is repeated is what is counted twice. */
  lemma {:induction false} DuplicatesAreRepeats(blocks: seq<nat>)
    requires Ascending(blocks) && forall i :: 0 <= i < |blocks| ==> blocks[i] < WIRE_NUMBERS
    ensures Duplicates(WireNumbersOf(blocks)) == |blocks| - |Distinct(blocks)|
    ensures blocks != [] ==> Highest(WireNumbersOf(blocks)) == blocks[|blocks| - 1]
  {
    hide Duplicates, Highest, Ascending;
    EmptyTallies(1);
    if blocks != [] {
      var front, last := blocks[..|blocks| - 1], blocks[|blocks| - 1];
      assert blocks == front + [last];
      OneMoreBlock(front, last);
      DuplicatesAreRepeats(front);
      assert WireNumbersOf(blocks) == WireNumbersOf(front) + [last];
      OneMoreAck(WireNumbersOf(front), last);
    } else {
      assert WireNumbersOf(blocks) == [] && Distinct(blocks) == {};
    }
  }

  lemma OneMoreBlock(front: seq<nat>, last: nat)
    requires Ascending(front + [last])
    ensures |Distinct(front + [last])| ==
            |Distinct(front)| + if front != [] && last == front[|front| - 1] then 0 else 1
    ensures Ascending(front) && (front != [] ==> front[|front| - 1] <= last)
  {
    var all := front + [last];
    assert all[|front|] == last;
    assert forall i :: 0 <= i < |front| ==> all[i] == front[i];
    assert Distinct(all) == Distinct(front) + {last};
    assert last in Distinct(front) <==> front != [] && last == front[|front| - 1];
  }
}
