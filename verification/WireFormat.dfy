/**
 The bytes of every packet as RFC 1350 section 5 and RFC 2347 lay them out, and
 which datagrams the parser takes for which packet (src/net/tftp_packet.cpp).
 */
module WireFormat {
  import opened Basics
  import opened Codec
  import opened DataPlane
  import opened LockedPeer

  /** Each character as its code, and a zero byte behind the last. */
  predicate IsCString(b: Bytes, t: Text) {
    && |b| == |t| + 1 && b[|t|] == 0
    && forall i :: 0 <= i < |t| ==> b[i] == t[i] as int
  }

  lemma CStringIs(t: Text)
    ensures IsCString(CString(t), t)
  {
  }

  /** Names and values in turn, each as a string. */
  predicate AreOptions(b: Bytes, strings: seq<Bytes>, options: seq<TftpOption>) {
    && |strings| == 2 * |options| && b == Joined(strings)
    && forall i :: 0 <= i < |options| ==>
         IsCString(strings[2 * i], options[i].name) && IsCString(strings[2 * i + 1], options[i].value)
  }

  function Joined(pieces: seq<Bytes>): Bytes {
    if pieces == [] then [] else Joined(pieces[..|pieces| - 1]) + pieces[|pieces| - 1]
  }

  lemma {:induction false} JoinedFront(first: Bytes, others: seq<Bytes>)
    ensures Joined([first] + others) == first + Joined(others)
  {
    var pieces := [first] + others;
    if others == [] {
      assert pieces[..0] == [] && pieces[0] == first;
    } else {
      var front, last := others[..|others| - 1], others[|others| - 1];
      assert pieces[..|pieces| - 1] == [first] + front && pieces[|pieces| - 1] == last;
      JoinedFront(first, front);
    }
  }

  lemma OneOptionMore(o: TftpOption, name: Bytes, value: Bytes, more: Bytes, later: seq<Bytes>, rest: seq<TftpOption>)
    requires IsCString(name, o.name) && IsCString(value, o.value) && AreOptions(more, later, rest)
    ensures AreOptions(name + (value + more), [name, value] + later, [o] + rest)
  {
    hide IsCString;
    var strings, options := [name, value] + later, [o] + rest;
    assert strings == [name] + ([value] + later);
    JoinedFront(name, [value] + later);
    JoinedFront(value, later);
    hide Joined;
    forall i | 0 <= i < |options|
      ensures IsCString(strings[2 * i], options[i].name) && IsCString(strings[2 * i + 1], options[i].value)
    {
      if i > 0 {
        assert strings[2 * i] == later[2 * (i - 1)] && strings[2 * i + 1] == later[2 * (i - 1) + 1];
        assert options[i] == rest[i - 1];
      }
    }
  }

  lemma {:induction false} OptionStrings(options: seq<TftpOption>) returns (strings: seq<Bytes>)
    ensures AreOptions(EncodeOptions(options), strings, options)
  {
    strings := [];
    if options != [] {
      var name, value := CString(options[0].name), CString(options[0].value);
      CStringIs(options[0].name);
      CStringIs(options[0].value);
      hide IsCString, CString, AreOptions;
      var later := OptionStrings(options[1..]);
      OneOptionMore(options[0], name, value, EncodeOptions(options[1..]), later, options[1..]);
      assert [options[0]] + options[1..] == options;
      strings := [name, value] + later;
    }
  }

  /** DATA, ACK and ERROR: opcode, block number or error code, and what follows. */
  lemma TransferPackets(block: U16, data: Bytes, message: Text) returns (text: Bytes)
    ensures Encode(Data(block, data)) == [0, 3, block / 256, block % 256] + data
    ensures Encode(Acknowledgement(block)) == [0, 4, block / 256, block % 256]
    ensures IsCString(text, message) && Encode(Error(block, message)) == [0, 5, block / 256, block % 256] + text
  {
    text := CString(message);
    CStringIs(message);
    hide CString;
  }

  /** Requests and option acknowledgements: opcode, file name, mode, options. */
  lemma ControlPackets(filename: Text, mode: Text, options: seq<TftpOption>)
    returns (name: Bytes, kind: Bytes, more: Bytes, strings: seq<Bytes>)
    ensures IsCString(name, filename) && IsCString(kind, mode) && AreOptions(more, strings, options)
    ensures Encode(ReadRequest(filename, mode, options)) == [0, 1] + name + kind + more
    ensures Encode(WriteRequest(filename, mode, options)) == [0, 2] + name + kind + more
    ensures Encode(OptionAcknowledgement(options)) == [0, 6] + more
  {
    name, kind, more := CString(filename), CString(mode), EncodeOptions(options);
    CStringIs(filename);
    CStringIs(mode);
    strings := OptionStrings(options);
    hide CString, EncodeOptions, IsCString, AreOptions;
    assert [0, 1] + (name + (kind + more)) == [0, 1] + name + kind + more;
    assert [0, 2] + (name + (kind + more)) == [0, 2] + name + kind + more;
  }

  // ------------------------------------------------------- What is understood

  lemma AckParses(block: U16, rest: Bytes)
    ensures Parse(Encode(Acknowledgement(block)) + rest) == Ok(Acknowledgement(block))
  {
    var bytes := Encode(Acknowledgement(block)) + rest;
    assert bytes == U16Bytes(ACK) + (U16Bytes(block) + rest);
    HeaderRoundTrip(ACK, block, rest);
    hide ReadU16, U16Bytes, ParseRequest, ParseOptions;
  }

  lemma ErrorParses(code: U16, message: Text, rest: Bytes)
    requires NulFree(message)
    ensures Parse(Encode(Error(code, message)) + rest) == Ok(Error(code, message))
  {
    var bytes := Encode(Error(code, message)) + rest;
    assert bytes == U16Bytes(ERROR) + (U16Bytes(code) + (CString(message) + rest));
    HeaderRoundTrip(ERROR, code, CString(message) + rest);
    ReadsCString(message, rest);
    hide ReadU16, U16Bytes, CString, ReadString, ParseRequest, ParseOptions;
    assert Parse(bytes) == ParseError(bytes);
  }

  /**
   A datagram is taken for a packet exactly if the packet is well formed and the
   datagram is its encoding; behind an ACK or an ERROR there may be anything.
   */
  lemma ParsesIff(bytes: Bytes, p: Packet)
    ensures Parse(bytes) == Ok(p) <==>
            WellFormed(p) &&
            (Encode(p) == bytes || ((p.Acknowledgement? || p.Error?) && Encode(p) <= bytes))
  {
    hide Parse, Encode;
    if Parse(bytes) == Ok(p) {
      ParsedReencodes(bytes);
    } else if WellFormed(p) {
      WellFormedRoundTrip(p);
      if Encode(p) <= bytes {
        var rest := bytes[|Encode(p)|..];
        assert bytes == Encode(p) + rest;
        if p.Acknowledgement? {
          AckParses(p.block, rest);
        } else if p.Error? {
          ErrorParses(p.code, p.message, rest);
        }
      }
    }
  }

  // ---------------------------------------------------------- Names and numbers

  /** The same character, or the same letter of the English alphabet in the other case. */
  predicate SameLetter(c: char, d: char) {
    || c == d
    || ('A' <= c <= 'Z' && d as int == c as int + 32)
    || ('A' <= d <= 'Z' && c as int == d as int + 32)
  }

  /** RFC 2347 section 2: option names are equal whatever their case. */
  lemma CaseDoesNotMatter(left: Text, right: Text)
    ensures EqualsIgnoreCase(left, right) <==>
            |left| == |right| && forall i :: 0 <= i < |left| ==> SameLetter(left[i], right[i])
  {
    if |left| == |right| {
      assert forall i :: 0 <= i < |left| ==> (Lowered(left)[i] == Lowered(right)[i] <==> SameLetter(left[i], right[i]));
    }
  }

  /** Block numbers have sixteen bits and go round: 65535 is followed by 0. */
  lemma NumbersGoRound(index: nat)
    ensures index < 65536 ==> WireBlockNumber(index) == index
    ensures WireBlockNumber(index + 65536) == WireBlockNumber(index)
    ensures WireBlockNumber(index + 1) == if WireBlockNumber(index) == 65535 then 0 else WireBlockNumber(index) + 1
  {
  }

  /** RFC 1350 section 4: whoever else sends anything gets an ERROR 5, at its own source; nobody else does. */
  lemma ForeignerGetsError5(peer: Endpoint, e: Event) returns (text: Bytes)
    ensures IsCString(text, "unknown transfer ID")
    ensures RebuffOf(peer, e) ==
            if e.Datagram? && e.bytes != [] && e.source != peer then [Sent(e.source, [0, 5, 0, 5] + text)] else []
  {
    text := TransferPackets(5, [], "unknown transfer ID");
    hide IsCString, Encode, Parse;
  }

  /** And what the peer itself sends is heard as what it is, if it is well formed. */
  lemma PeerIsHeard(peer: Endpoint, p: Packet)
    requires WellFormed(p)
    ensures Classify(peer, Datagram(peer, Encode(p))) == Deliver(GotPacket(p))
  {
    assert Encode(p) != [];
    hide Parse, Encode;
    WellFormedRoundTrip(p);
  }
}
