/**
 The whole chain: negotiation fixes the terms, the two data loops run on their
 sockets over an impaired network, and the content oracle judges the file.
 */
module EndToEnd {
  import opened Basics
  import opened Codec
  import opened Corruption
  import opened DataPlane
  import opened LockedPeer
  import opened Network
  import opened Negotiation
  import opened Delivery
  import opened Ends
  import Decimal
  import Limits
  import Lossless
  import Phantoms
  import Netascii
  import ContentOracle
  import Impairments

  // --------------------------------------------------- From request to verdict

  datatype Session = Session(
    download: bool,  // the client reads; otherwise it writes
    oackHeard: bool,  // on an upload: the client's first reply was the OACK, not a repeated ACK 0
    file: Bytes,
    netascii: bool,
    client: EngineConfig,
    server: EngineConfig,
    requested: ClientRequestedOptions,
    clientTid: Endpoint,
    serverTid: Endpoint)

  function Payload(session: Session): Bytes {
    if session.netascii then Netascii.Encode(session.file) else session.file
  }

  function Decoded(session: Session, sink: Bytes): Bytes {
    if session.netascii then Netascii.Decode(sink) else sink
  }

  /** The receiving end writes a file only if its own loop ended in success. */
  function Saved(session: Session, r: Receiver): Option<Bytes> {
    if r.phase == Ended(Completed) then Some(Decoded(session, r.sink)) else None
  }

  function Wanted(session: Session): Bytes {
    ContentOracle.Reference(session.file, session.netascii)
  }

  predicate LegalDefaults(session: Session) {
    && session.client.defaultBlockSize == session.server.defaultBlockSize
    && MINIMUM_BLOCK_SIZE <= session.server.defaultBlockSize <= MAXIMUM_BLOCK_SIZE
    && |Payload(session)| < WORDS
  }

  /** What the server grants; on a download it knows the size. */
  function ServerGrant(session: Session): Grant
    requires LegalDefaults(session)
  {
    Negotiate(session.server, if session.download then Some(|Payload(session)|) else None, Defaults(session.server),
              BuildRequestedOptionList(session.requested, session.client))
  }

  /** What the client works out: the OACK if it hears one, else its own defaults. */
  function ClientParameters(session: Session): (p: NegotiatedParameters)
    requires LegalDefaults(session)
    ensures LegalSizes(p)
    ensures session.download || session.oackHeard ==> p == ServerGrant(session).params
    ensures !session.download && !session.oackHeard ==> p == Defaults(session.client)
  {
    NegotiationAgrees(session.client, session.server,
                      if session.download then Some(|Payload(session)|) else None, session.requested);
    if session.download || session.oackHeard then
      ApplyOack(session.requested, Defaults(session.client), ServerGrant(session).oack).params
    else Defaults(session.client)
  }

  /** The link the two ends run on, each under the terms it worked out for itself. */
  function LinkOf(session: Session): (link: Link)
    requires LegalDefaults(session)
    ensures link.payload == Payload(session)
    ensures session.download || session.oackHeard ==>
              link.sender.blockSize == link.receiver.blockSize && link.sender.windowSize == link.receiver.windowSize
    ensures link.receiver.config == if session.download then session.client else session.server
  {
    NegotiationAgrees(session.client, session.server,
                      if session.download then Some(|Payload(session)|) else None, session.requested);
    var grant, seen := ServerGrant(session), ClientParameters(session);
    var server := Terms(grant.params.blockSize, grant.params.windowSize, session.server);
    var client := Terms(seen.blockSize, seen.windowSize, session.client);
    if session.download then
      Link(Payload(session), server, client, session.serverTid, session.clientTid, grant.oack != [])
    else
      Link(Payload(session), client, server, session.clientTid, session.serverTid, grant.oack == [])
  }

  /** No full block will be mistaken for the last: the OACK was heard, or what it granted is no larger, or there is one block. */
  predicate Reliable(session: Session)
    requires LegalDefaults(session)
  {
    session.download || session.oackHeard
    || ServerGrant(session).params.blockSize <= session.client.defaultBlockSize
    || |Payload(session)| <= session.client.defaultBlockSize
  }

  /** For a correct receiver those are the sound terms. */
  lemma SoundIffReliable(session: Session)
    requires LegalDefaults(session) && !LinkOf(session).receiver.config.quirks.acceptOutOfSequenceData
    ensures Sound(LinkOf(session)) <==> Reliable(session)
    ensures !Reliable(session) && Total(LinkOf(session)) < WIRE_NUMBERS ==> TakesFirstForLast(LinkOf(session))
  {
    hide Negotiate, ApplyOack, BuildRequestedOptionList, Netascii.Encode;
  }

  lemma WholePayloadIsWanted(session: Session)
    ensures Decoded(session, Payload(session)) == Wanted(session)
  {
    Netascii.DecodeEncode(session.file);
  }

  /**
   End to end: a client and a server with equal legal defaults, any options, any
   file, octet or netascii, any schedule of an impaired network.  The receiving
   end's success means that the file is saved and matches; without it there is no
   file; and the sending end's success means the same if its last block ends the receiver.
   */
  lemma SuccessMeansMatch(session: Session, moves: seq<Move>)
    requires LegalDefaults(session) && Sound(LinkOf(session)) && Covered(LinkOf(session), moves)
    ensures var link := LinkOf(session);
      var s, r := FinalSender(link, moves), FinalReceiver(link, moves);
      var verdict := ContentOracle.Verdict(Some(session.file), Saved(session, r), session.netascii);
      && (r.phase == Ended(Completed) ==> Saved(session, r) == Some(Wanted(session)) && verdict == ContentOracle.Match)
      && (r.phase != Ended(Completed) ==> verdict == ContentOracle.MissingArtifact)
      && (s.ending == Some(Completed) && LastBlockEnds(link) ==> r.phase == Ended(Completed))
  {
    hide LinkOf, FinalSender, FinalReceiver, Covered, Sound, LastBlockEnds, Decoded, ContentOracle.Reference, Payload;
    EndsAreSafe(LinkOf(session), moves);
    WholePayloadIsWanted(session);
  }

  // ------------------------------------ Exactly when success can be believed

  /** On every schedule, success reported at either end means that the file saved is the one wanted. */
  ghost predicate Believable(session: Session)
    requires LegalDefaults(session)
  {
    forall moves :: Covered(LinkOf(session), moves) ==> BelievableOn(session, moves)
  }

  ghost predicate BelievableOn(session: Session, moves: seq<Move>)
    requires LegalDefaults(session)
  {
    var s, r := FinalSender(LinkOf(session), moves), FinalReceiver(LinkOf(session), moves);
    s.ending == Some(Completed) || r.phase == Ended(Completed) ==> Saved(session, r) == Some(Wanted(session))
  }

  /** On sound terms: if and only if the sender's last block ends the receiver. */
  lemma SoundBelievableIff(session: Session)
    requires LegalDefaults(session) && Sound(LinkOf(session))
    ensures Believable(session) <==> LastBlockEnds(LinkOf(session))
  {
    hide LinkOf, FinalSender, FinalReceiver, Covered, Sound, LastBlockEnds, Decoded, Wanted;
    if LastBlockEnds(LinkOf(session)) {
      forall moves | Covered(LinkOf(session), moves)
        ensures BelievableOn(session, moves)
      {
        SuccessMeansMatch(session, moves);
      }
    } else {
      var moves := SenderMayBeAlone(LinkOf(session));
      assert !BelievableOn(session, moves);
    }
  }

  /** All that the first block lacks is the NUL of a final CR, which is dropped in decoding. */
  predicate LacksOnlyANul(session: Session)
    requires LegalDefaults(session)
  {
    && session.netascii && Netascii.EndsInCrNul(Payload(session))
    && |Payload(session)| == LinkOf(session).sender.blockSize + 1
  }

  /** The first block saved alone is the file wanted only in that case. */
  lemma FirstBlockIsWantedIff(session: Session)
    requires LegalDefaults(session) && LinkOf(session).sender.blockSize < |Payload(session)|
    ensures Decoded(session, Payload(session)[..LinkOf(session).sender.blockSize]) == Wanted(session)
            <==> LacksOnlyANul(session)
  {
    hide LinkOf, Netascii.Encode, Netascii.Decode, Netascii.EndsInCrNul;
    WholePayloadIsWanted(session);
    if session.netascii {
      Netascii.CutDecodesTheSameIff(session.file, LinkOf(session).sender.blockSize);
    }
    hide Wanted;
  }

  /** On the other terms: if and only if the first block is as good as all of it. */
  lemma UnreliableBelievableIff(session: Session)
    requires LegalDefaults(session) && TakesFirstForLast(LinkOf(session))
    ensures Believable(session) <==> LacksOnlyANul(session)
  {
    var link := LinkOf(session);
    FirstBlockIsWantedIff(session);
    hide LinkOf, FinalSender, FinalReceiver, Decoded, Wanted, LacksOnlyANul, Payload, Exec, Admissible;
    if LacksOnlyANul(session) {
      forall moves | Covered(link, moves)
        ensures BelievableOn(session, moves)
      {
        AlwaysTruncated(link, moves);
        FinalsAreReached(link, moves);
      }
    } else {
      Limits.SmallBlocksTruncate(link);
      var moves := [DeliverData(1, None)];
      FinalsAreReached(link, moves);
      assert Covered(link, moves);
      assert !BelievableOn(session, moves);
    }
  }

  /**
   With a correct receiver and at most 65535 blocks, success at either end can be
   believed on every schedule if and only if the terms are reliable and the
   sender's last block ends the receiver, or all that gets lost is a redundant NUL.
   */
  lemma BelievableIff(session: Session)
    requires LegalDefaults(session) && !LinkOf(session).receiver.config.quirks.acceptOutOfSequenceData
    requires Total(LinkOf(session)) < WIRE_NUMBERS
    ensures Believable(session) <==>
            if Reliable(session) then LastBlockEnds(LinkOf(session)) else LacksOnlyANul(session)
  {
    hide LinkOf, Reliable, Sound, TakesFirstForLast, LastBlockEnds, LacksOnlyANul, Believable, Total;
    SoundIffReliable(session);
    if Reliable(session) {
      SoundBelievableIff(session);
    } else {
      UnreliableBelievableIff(session);
    }
  }

  // -------------------------------------------- Negotiation over the wire

  lemma DigitsAreNulFree(n: nat)
    ensures NulFree(Decimal.Digits(n))
  {
    hide Decimal.Digits;
    var t := Decimal.Digits(n);
    assert forall i :: 0 <= i < |t| ==> Decimal.IsDigit(t[i]);
  }

  lemma OptionNamesAreWellFormed(value: Text)
    requires NulFree(value)
    ensures OptionsWellFormed([TftpOption(BLKSIZE, value)]) && OptionsWellFormed([TftpOption(TIMEOUT, value)])
    ensures OptionsWellFormed([TftpOption(TSIZE, value)]) && OptionsWellFormed([TftpOption(WINDOWSIZE, value)])
  {
  }

  lemma WellFormedJoin(a: seq<TftpOption>, b: seq<TftpOption>)
    requires OptionsWellFormed(a) && OptionsWellFormed(b)
    ensures OptionsWellFormed(a + b)
  {
    hide NulFree;
  }

  lemma GrantedEntryIsWellFormed(config: EngineConfig, fileSize: Option<U64>, g: Grant, o: TftpOption)
    requires NulFree(o.value) && OptionsWellFormed(g.oack)
    ensures OptionsWellFormed(GrantOption(config, fileSize, g, o).oack)
  {
    hide Stoul, EqualsIgnoreCase, ClampBlockSize, Decimal.Digits, OptionsWellFormed, NulFree;
    var g' := GrantOption(config, fileSize, g, o);
    if g' != g {
      forall n: nat ensures NulFree(Decimal.Digits(n)) {
        DigitsAreNulFree(n);
      }
      var value := g'.oack[|g.oack|].value;
      OptionNamesAreWellFormed(value);
      WellFormedJoin(g.oack, [g'.oack[|g.oack|]]);
    }
  }

  /** The server's OACK to any parsed request survives the wire. */
  lemma {:induction false} GrantsAreWellFormed(config: EngineConfig, fileSize: Option<U64>,
                                               params: NegotiatedParameters, options: seq<TftpOption>)
    requires OptionsWellFormed(options)
    ensures OptionsWellFormed(GrantAll(config, fileSize, Grant(params, []), options).oack)
  {
    hide GrantOption, NulFree;
    if options != [] {
      var last := |options| - 1;
      GrantsAreWellFormed(config, fileSize, params, options[..last]);
      GrantedEntryIsWellFormed(config, fileSize, GrantAll(config, fileSize, Grant(params, []), options[..last]), options[last]);
    }
  }

  lemma BuiltListIsWellFormed(requested: ClientRequestedOptions, config: EngineConfig)
    ensures OptionsWellFormed(BuildRequestedOptionList(requested, config))
  {
    hide OptionsWellFormed, NulFree, Decimal.Digits;
    forall n: nat ensures NulFree(Decimal.Digits(n)) {
      DigitsAreNulFree(n);
    }
    forall value: Text | NulFree(value)
      ensures OptionsWellFormed([TftpOption(BLKSIZE, value)]) && OptionsWellFormed([TftpOption(TIMEOUT, value)])
      ensures OptionsWellFormed([TftpOption(TSIZE, value)]) && OptionsWellFormed([TftpOption(WINDOWSIZE, value)])
    {
      OptionNamesAreWellFormed(value);
    }
    forall a: seq<TftpOption>, b: seq<TftpOption> | OptionsWellFormed(a) && OptionsWellFormed(b)
      ensures OptionsWellFormed(a + b)
    {
      WellFormedJoin(a, b);
    }
    NoOptions();
  }

  lemma NoOptions()
    ensures OptionsWellFormed([])
  {
  }

  /** The request reads back with the options the client listed, and the OACK with those the server granted. */
  lemma NegotiationCrossesTheWire(session: Session, filename: Text, mode: Text)
    requires LegalDefaults(session) && NulFree(filename) && NulFree(mode)
    ensures var options := BuildRequestedOptionList(session.requested, session.client);
      && Parse(Encode(ReadRequest(filename, mode, options))) == Ok(ReadRequest(filename, mode, options))
      && Parse(Encode(WriteRequest(filename, mode, options))) == Ok(WriteRequest(filename, mode, options))
    ensures var oack := OptionAcknowledgement(ServerGrant(session).oack);
      Parse(Encode(oack)) == Ok(oack)
  {
    hide BuildRequestedOptionList, GrantAll, NulFree, OptionsWellFormed, Parse, Encode, Netascii.Encode;
    var options := BuildRequestedOptionList(session.requested, session.client);
    BuiltListIsWellFormed(session.requested, session.client);
    WellFormedRoundTrip(ReadRequest(filename, mode, options));
    WellFormedRoundTrip(WriteRequest(filename, mode, options));
    GrantsAreWellFormed(session.server, if session.download then Some(|Payload(session)|) else None,
                        Defaults(session.server), options);
    NoOptions();
    WellFormedRoundTrip(OptionAcknowledgement(ServerGrant(session).oack));
  }

  // ----------------------------------------------- A damaged OACK in flight

  predicate IsOptionName(name: Text) {
    name == BLKSIZE || name == TIMEOUT || name == TSIZE || name == WINDOWSIZE
  }

  predicate AllNamed(options: seq<TftpOption>) {
    forall i :: 0 <= i < |options| ==> IsOptionName(options[i].name)
  }

  lemma GrantIsNamed(config: EngineConfig, fileSize: Option<U64>, g: Grant, o: TftpOption)
    requires AllNamed(g.oack)
    ensures AllNamed(GrantOption(config, fileSize, g, o).oack)
  {
    hide Stoul, EqualsIgnoreCase, Decimal.Digits, ClampBlockSize, IsOptionName;
    KnownNames();
  }

  lemma {:induction false} GrantsAreNamed(config: EngineConfig, fileSize: Option<U64>,
                                          params: NegotiatedParameters, options: seq<TftpOption>)
    ensures AllNamed(GrantAll(config, fileSize, Grant(params, []), options).oack)
  {
    hide GrantOption;
    if options != [] {
      var last := |options| - 1;
      GrantsAreNamed(config, fileSize, params, options[..last]);
      GrantIsNamed(config, fileSize, GrantAll(config, fileSize, Grant(params, []), options[..last]), options[last]);
    }
  }

  lemma KnownNames()
    ensures IsOptionName(BLKSIZE) && IsOptionName(TIMEOUT) && IsOptionName(TSIZE) && IsOptionName(WINDOWSIZE)
  {
  }

  /** "bl", "ti", "ts" and "wi" as block numbers. */
  lemma NameNumbers(name: Text)
    requires IsOptionName(name)
    ensures name != []
    ensures NameNumber(name) in {25196, 29801, 29811, 30569}
  {
  }

  /**
   On an upload whose server granted options, the OACK with a flipped opcode bit can
   turn into an ACK of one of four numbers; every schedule is safe from that too if
   and only if the transfer has fewer blocks, and always below 25196 of them.
   */
  lemma SafeFromOackDamageIff(session: Session)
    requires LegalDefaults(session) && !session.download && ServerGrant(session).oack != []
    requires Sound(LinkOf(session)) && Total(LinkOf(session)) < WIRE_NUMBERS
    ensures var oack := OptionAcknowledgement(ServerGrant(session).oack);
      && IsControl(oack)
      && AckNumber(oack) in {25196, 29801, 29811, 30569}
      && (Phantoms.SafeUnderDamage(LinkOf(session), {oack}) <==> Total(LinkOf(session)) < AckNumber(oack))
  {
    hide LinkOf, Sound, Phantoms.SafeUnderDamage, GrantAll, BuildRequestedOptionList, IsOptionName, Total, NameNumber,
         Netascii.Encode;
    var options := BuildRequestedOptionList(session.requested, session.client);
    var fileSize := if session.download then Some(|Payload(session)|) else None;
    BuiltListIsWellFormed(session.requested, session.client);
    GrantsAreWellFormed(session.server, fileSize, Defaults(session.server), options);
    GrantsAreNamed(session.server, fileSize, Defaults(session.server), options);
    var oack := OptionAcknowledgement(ServerGrant(session).oack);
    NameNumbers(oack.options[0].name);
    Phantoms.SafeUnderDamageIff(LinkOf(session), {oack});
    assert Phantoms.NamesNoBlock(LinkOf(session), {oack}) <==> !(1 <= AckNumber(oack) <= Total(LinkOf(session)));
  }

  // -------------------------------------------------------- The plain download

  /** A download without options has windows of one and no handshake ACK, and its receiver starts on block 1. */
  lemma PlainDownloadSafeIff(session: Session)
    requires LegalDefaults(session) && session.download && ServerGrant(session).oack == []
    requires !session.server.quirks.omitTerminatingEmptyBlock
    ensures Limits.AlwaysSafePrimed(LinkOf(session)) <==> Total(LinkOf(session)) <= WIRE_NUMBERS
  {
    PlainDownloadTerms(session);
    hide LinkOf, Limits.AlwaysSafePrimed, Total;
    Limits.PrimedSafeIffNoReuse(LinkOf(session));
  }

  lemma PlainDownloadTerms(session: Session)
    requires LegalDefaults(session) && session.download && ServerGrant(session).oack == []
    requires !session.server.quirks.omitTerminatingEmptyBlock
    ensures var link := LinkOf(session);
      Lossless.Matched(link) && !link.handshakeAck && link.sender.Window() == 1
  {
    hide Negotiate, BuildRequestedOptionList, Netascii.Encode;
    NegotiationAgrees(session.client, session.server, Some(|Payload(session)|), session.requested);
  }

  // ------------------------------------------- The impairment stage is the network

  /**
   Whatever the fault pipeline makes of a DATA or ACK under opcode corruption, in
   any state it may have come to, is an event the network model already allows:
   the datagram, damaged or not.
   */
  lemma PipelineIsTheNetwork(link: Link, index: nat, c: Impairments.ImpairmentConfig, s: Impairments.PipelineState,
                             towards: Direction, isDataPacket: bool, now: real)
    requires c.corruptionTarget == Impairments.OpcodeField && c.jitter < WORDS
    requires link.sender.blockSize < 0x1_0000_0000
    ensures var datum, ack := DataDatagram(link.payload, link.sender.blockSize, index), AckDatagram(index);
      && |datum| < WORDS && |ack| < WORDS
      && (forall d :: d in Impairments.ProcessOf(c, s, towards, datum, isDataPacket, now).0.deliveries ==>
            exists damage :: OpcodeBit(damage) && DataEvent(link, index, damage) == Datagram(link.senderTid, d.bytes))
      && (forall d :: d in Impairments.ProcessOf(c, s, towards, ack, isDataPacket, now).0.deliveries ==>
            exists damage :: OpcodeBit(damage) && AckEvent(link, index, damage) == Datagram(link.receiverTid, d.bytes))
  {
    hide Impairments.ProcessOf, Impairments.Delivers, Impairments.Throttled, Impairments.Charged;
    var datum, ack := DataDatagram(link.payload, link.sender.blockSize, index), AckDatagram(index);
    assert |datum| < WORDS && |ack| < WORDS;
    var fromDatum := Impairments.ProcessOf(c, s, towards, datum, isDataPacket, now).0.deliveries;
    forall d | d in fromDatum
      ensures exists damage :: OpcodeBit(damage) && DataEvent(link, index, damage) == Datagram(link.senderTid, d.bytes)
    {
      var damage := ProcessedIsDamaged(c, s, towards, datum, isDataPacket, now, d);
      assert DataEvent(link, index, damage) == Datagram(link.senderTid, d.bytes);
    }
    var fromAck := Impairments.ProcessOf(c, s, towards, ack, isDataPacket, now).0.deliveries;
    forall d | d in fromAck
      ensures exists damage :: OpcodeBit(damage) && AckEvent(link, index, damage) == Datagram(link.receiverTid, d.bytes)
    {
      var damage := ProcessedIsDamaged(c, s, towards, ack, isDataPacket, now, d);
      assert AckEvent(link, index, damage) == Datagram(link.receiverTid, d.bytes);
    }
  }

  lemma ProcessedIsDamaged(c: Impairments.ImpairmentConfig, s: Impairments.PipelineState, towards: Direction,
                           datagram: Bytes, isDataPacket: bool, now: real, d: Impairments.DeliveryAction)
    returns (damage: Option<nat>)
    requires c.corruptionTarget == Impairments.OpcodeField && c.jitter < WORDS && 2 <= |datagram| < WORDS
    requires d in Impairments.ProcessOf(c, s, towards, datagram, isDataPacket, now).0.deliveries
    ensures OpcodeBit(damage) && d.bytes == Damaged(datagram, damage)
  {
    hide Impairments.ProcessOf, Impairments.Delivers, Impairments.Throttled, Impairments.Charged, Damaged;
    Impairments.ProcessDelivers(c, s, towards, datagram, isDataPacket, now);
    var (result, after) := Impairments.ProcessOf(c, s, towards, datagram, isDataPacket, now);
    var k :| 0 <= k < |result.deliveries| && result.deliveries[k] == d;
    damage := DeliveredIsDamaged(c, datagram, result.deliveries, Impairments.Throttled(c, after.bucket), k);
  }

  lemma DeliveredIsDamaged(c: Impairments.ImpairmentConfig, datagram: Bytes,
                           deliveries: seq<Impairments.DeliveryAction>, throttled: int, k: nat)
    returns (damage: Option<nat>)
    requires c.corruptionTarget == Impairments.OpcodeField && |datagram| >= 2
    requires Impairments.Delivers(c, datagram, deliveries, throttled) && k < |deliveries|
    ensures OpcodeBit(damage) && deliveries[k].bytes == Damaged(datagram, damage)
  {
    Impairments.OpcodeCorruptionIsOneOpcodeBit(datagram, deliveries[0].bytes);
    hide Impairments.OneBitFlipped, FlipOpcodeBit;
    if deliveries[0].corrupted {
      var bit :| 0 <= bit < 16 && deliveries[0].bytes == FlipOpcodeBit(datagram, bit);
      damage := Some(bit);
    } else {
      damage := None;
    }
  }
}
