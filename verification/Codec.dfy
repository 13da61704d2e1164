/**
 The TFTP wire format (src/net/tftp_packet.cpp): the packets, their byte
 encoding, and the parser.  `Encode` and `Parse` are the specification;
 the methods at the end are the serializers and the cursor-advancing
 parser, each proved to compute its specification.
 */
module Codec {
  import opened Basics
  import Decimal

  datatype TftpOption = TftpOption(name: Text, value: Text)

  datatype Packet =
    | ReadRequest(filename: Text, mode: Text, options: seq<TftpOption>)
    | WriteRequest(filename: Text, mode: Text, options: seq<TftpOption>)
    | Data(block: U16, data: Bytes)
    | Acknowledgement(block: U16)
    | Error(code: U16, message: Text)
    | OptionAcknowledgement(options: seq<TftpOption>)

  datatype Parsed<+T> = Ok(value: T) | Failure(reason: string)

  // Opcodes of RFC 1350 section 5 and RFC 2347.
  const RRQ: U16 := 1
  const WRQ: U16 := 2
  const DATA: U16 := 3
  const ACK: U16 := 4
  const ERROR: U16 := 5
  const OACK: U16 := 6

  // ---------------------------------------------------------------- Encoding

  function ToBytes(t: Text): (b: Bytes)
    ensures |b| == |t|
  {
    seq(|t|, i requires 0 <= i < |t| => t[i] as int)
  }

  function FromBytes(b: Bytes): (t: Text)
    ensures |t| == |b|
  {
    seq(|b|, i requires 0 <= i < |b| => b[i] as char)
  }

  function U16Bytes(n: U16): Bytes {
    [n / 256 % 256, n % 256]
  }

  function ReadU16(b: Bytes): U16
    requires |b| >= 2
  {
    var high: int, low: int := b[0], b[1];
    high * 256 + low
  }

  function CString(t: Text): Bytes {
    ToBytes(t) + [0]
  }

  function EncodeOptions(options: seq<TftpOption>): Bytes {
    if options == [] then []
    else CString(options[0].name) + (CString(options[0].value) + EncodeOptions(options[1..]))
  }

  function Encode(p: Packet): Bytes {
    match p
    case ReadRequest(f, m, o) => U16Bytes(RRQ) + (CString(f) + (CString(m) + EncodeOptions(o)))
    case WriteRequest(f, m, o) => U16Bytes(WRQ) + (CString(f) + (CString(m) + EncodeOptions(o)))
    case Data(block, data) => U16Bytes(DATA) + (U16Bytes(block) + data)
    case Acknowledgement(block) => U16Bytes(ACK) + U16Bytes(block)
    case Error(code, message) => U16Bytes(ERROR) + (U16Bytes(code) + CString(message))
    case OptionAcknowledgement(o) => U16Bytes(OACK) + EncodeOptions(o)
  }

  // ----------------------------------------------------------------- Parsing

  /** Index of the first NUL, or the length when there is none. */
  function NulIndex(s: Bytes): (n: nat)
    ensures n <= |s|
    ensures n < |s| ==> s[n] == 0
    ensures forall i :: 0 <= i < n ==> s[i] != 0
  {
    if s == [] || s[0] == 0 then 0 else 1 + NulIndex(s[1..])
  }

  /** Splits a NUL-terminated string off the front of `s`. */
  function ReadString(s: Bytes): (r: Option<(Text, Bytes)>)
    ensures r.Some? ==> |r.value.1| < |s|
  {
    var n := NulIndex(s);
    if n == |s| then None else Some((FromBytes(s[..n]), s[n + 1..]))
  }

  function ParseOptions(s: Bytes): Parsed<seq<TftpOption>>
    decreases |s|
  {
    if s == [] then Ok([])
    else
      match ReadString(s)
      case None => Failure("option name not NUL-terminated")
      case Some((name, afterName)) =>
        match ReadString(afterName)
        case None => Failure("option value not NUL-terminated")
        case Some((value, rest)) =>
          if name == [] then Failure("empty option name")
          else
            match ParseOptions(rest)
            case Failure(reason) => Failure(reason)
            case Ok(more) => Ok([TftpOption(name, value)] + more)
  }

  function ParseRequest(write: bool, s: Bytes): Parsed<Packet> {
    match ReadString(s)
    case None => Failure("RRQ/WRQ filename not NUL-terminated")
    case Some((filename, afterName)) =>
      match ReadString(afterName)
      case None => Failure("RRQ/WRQ mode not NUL-terminated")
      case Some((mode, rest)) =>
        match ParseOptions(rest)
        case Failure(reason) => Failure("RRQ/WRQ " + reason)
        case Ok(options) =>
          Ok(if write then WriteRequest(filename, mode, options)
             else ReadRequest(filename, mode, options))
  }

  function ParseError(data: Bytes): Parsed<Packet>
    requires |data| >= 2
  {
    if |data| < 4 then Failure("ERROR shorter than the 4-byte header")
    else
      match ReadString(data[4..])
      case None => Failure("ERROR message not NUL-terminated")
      case Some((message, _)) => Ok(Error(ReadU16(data[2..]), message))
  }

  function ParseOack(s: Bytes): Parsed<Packet> {
    match ParseOptions(s)
    case Failure(reason) => Failure("OACK " + reason)
    case Ok(options) => Ok(OptionAcknowledgement(options))
  }

  function Parse(data: Bytes): Parsed<Packet> {
    if |data| < 2 then Failure("datagram shorter than the 2-byte opcode field")
    else
      var opcode := ReadU16(data);
      if opcode == RRQ || opcode == WRQ then ParseRequest(opcode == WRQ, data[2..])
      else if opcode == DATA then
        if |data| < 4 then Failure("DATA shorter than the 4-byte header")
        else Ok(Data(ReadU16(data[2..]), data[4..]))
      else if opcode == ACK then
        if |data| < 4 then Failure("ACK shorter than 4 bytes")
        else Ok(Acknowledgement(ReadU16(data[2..])))
      else if opcode == ERROR then ParseError(data)
      else if opcode == OACK then ParseOack(data[2..])
      else Failure("unknown opcode " + Decimal.Digits(opcode))
  }

  // --------------------------------------------------------- Codec theorems

  predicate NulFree(t: Text) {
    forall i :: 0 <= i < |t| ==> t[i] as int != 0
  }

  predicate OptionsWellFormed(options: seq<TftpOption>) {
    forall i :: 0 <= i < |options| ==>
      NulFree(options[i].name) && NulFree(options[i].value) && options[i].name != []
  }

  predicate WellFormed(p: Packet) {
    match p
    case ReadRequest(f, m, o) => NulFree(f) && NulFree(m) && OptionsWellFormed(o)
    case WriteRequest(f, m, o) => NulFree(f) && NulFree(m) && OptionsWellFormed(o)
    case Error(_, message) => NulFree(message)
    case OptionAcknowledgement(o) => OptionsWellFormed(o)
    case _ => true
  }

  lemma NulIndexUnique(s: Bytes, n: nat)
    requires n < |s| && s[n] == 0
    requires forall i :: 0 <= i < n ==> s[i] != 0
    ensures NulIndex(s) == n
  {
  }

  lemma ReadsCString(t: Text, rest: Bytes)
    requires NulFree(t)
    ensures ReadString(CString(t) + rest) == Some((t, rest))
  {
    var s := CString(t) + rest;
    assert forall i :: 0 <= i < |t| ==> s[i] == t[i] as int;
    NulIndexUnique(s, |t|);
    assert FromBytes(s[..|t|]) == t;
    assert s[|t| + 1..] == rest;
  }

  lemma ReadStringIsCString(s: Bytes)
    requires ReadString(s).Some?
    ensures var (t, rest) := ReadString(s).value; NulFree(t) && s == CString(t) + rest
  {
    var n := NulIndex(s);
    var (t, rest) := ReadString(s).value;
    assert forall i :: 0 <= i < n ==> t[i] as int == s[i];
    assert s == (s[..n] + [s[n]]) + s[n + 1..];
    assert ToBytes(t) == s[..n];
  }

  lemma {:induction false} OptionsRoundTrip(options: seq<TftpOption>)
    requires OptionsWellFormed(options)
    ensures ParseOptions(EncodeOptions(options)) == Ok(options)
  {
    if options != [] {
      var tail := EncodeOptions(options[1..]);
      ReadsCString(options[0].name, CString(options[0].value) + tail);
      ReadsCString(options[0].value, tail);
      OptionsRoundTrip(options[1..]);
      assert [TftpOption(options[0].name, options[0].value)] + options[1..] == options;
    }
  }

  lemma {:induction false} ParsedOptionsReencode(s: Bytes)
    requires ParseOptions(s).Ok?
    ensures OptionsWellFormed(ParseOptions(s).value)
    ensures EncodeOptions(ParseOptions(s).value) == s
    decreases |s|
  {
    if s != [] {
      ReadStringIsCString(s);
      var (name, afterName) := ReadString(s).value;
      ReadStringIsCString(afterName);
      var (value, rest) := ReadString(afterName).value;
      ParsedOptionsReencode(rest);
      var options := ParseOptions(s).value;
      assert options[1..] == ParseOptions(rest).value;
    }
  }

  lemma U16RoundTrip(n: U16, rest: Bytes)
    ensures |U16Bytes(n) + rest| == 2 + |rest|
    ensures ReadU16(U16Bytes(n) + rest) == n
    ensures (U16Bytes(n) + rest)[2..] == rest
  {
  }

  lemma ReadU16Reencodes(b: Bytes)
    requires |b| >= 2
    ensures b == U16Bytes(ReadU16(b)) + b[2..]
  {
  }

  lemma RequestRoundTrip(write: bool, f: Text, m: Text, o: seq<TftpOption>)
    requires NulFree(f) && NulFree(m) && OptionsWellFormed(o)
    ensures ParseRequest(write, CString(f) + (CString(m) + EncodeOptions(o))) ==
            Ok(if write then WriteRequest(f, m, o) else ReadRequest(f, m, o))
  {
    ReadsCString(f, CString(m) + EncodeOptions(o));
    ReadsCString(m, EncodeOptions(o));
    OptionsRoundTrip(o);
    hide ReadString, CString, EncodeOptions, ParseOptions;
  }

  lemma HeaderRoundTrip(opcode: U16, number: U16, rest: Bytes)
    ensures var bytes := U16Bytes(opcode) + (U16Bytes(number) + rest);
      && |bytes| == 4 + |rest| && ReadU16(bytes) == opcode && ReadU16(bytes[2..]) == number && bytes[4..] == rest
  {
    U16RoundTrip(opcode, U16Bytes(number) + rest);
    U16RoundTrip(number, rest);
  }

  lemma ErrorRoundTrip(code: U16, message: Text)
    requires NulFree(message)
    ensures Parse(Encode(Error(code, message))) == Ok(Error(code, message))
  {
    var bytes := Encode(Error(code, message));
    HeaderRoundTrip(ERROR, code, CString(message));
    assert CString(message) + [] == CString(message);
    ReadsCString(message, []);
    assert Parse(bytes) == ParseError(bytes);
    hide ReadU16, U16Bytes, CString, ReadString, ParseRequest, ParseOack;
  }

  lemma WellFormedRoundTrip(p: Packet)
    requires WellFormed(p)
    ensures Parse(Encode(p)) == Ok(p)
  {
    hide ReadU16, U16Bytes, ParseRequest, ParseOptions;
    match p
    case ReadRequest(f, m, o) =>
      RequestRoundTrip(false, f, m, o);
      U16RoundTrip(RRQ, CString(f) + (CString(m) + EncodeOptions(o)));
    case WriteRequest(f, m, o) =>
      RequestRoundTrip(true, f, m, o);
      U16RoundTrip(WRQ, CString(f) + (CString(m) + EncodeOptions(o)));
    case Data(block, data) => HeaderRoundTrip(DATA, block, data);
    case Acknowledgement(block) =>
      HeaderRoundTrip(ACK, block, []);
      assert U16Bytes(block) + [] == U16Bytes(block);
    case Error(code, message) => ErrorRoundTrip(code, message);
    case OptionAcknowledgement(o) =>
      U16RoundTrip(OACK, EncodeOptions(o));
      OptionsRoundTrip(o);
  }

  /** What `Parse` accepts is well formed and is the front of what was read. */
  lemma ParsedReencodes(data: Bytes)
    requires Parse(data).Ok?
    ensures WellFormed(Parse(data).value)
    ensures Encode(Parse(data).value) <= data
    ensures !Parse(data).value.Acknowledgement? && !Parse(data).value.Error? ==>
              Encode(Parse(data).value) == data
  {
    var opcode := ReadU16(data);
    ReadU16Reencodes(data);
    if opcode == RRQ || opcode == WRQ {
      ParsedRequestReencodes(opcode == WRQ, data[2..]);
    } else if opcode == OACK {
      ParsedOptionsReencode(data[2..]);
    } else {
      FourByteHeader(data);
      if opcode == ERROR {
        ParsedErrorReencodes(data);
      } else if opcode == ACK {
        assert Encode(Parse(data).value) == data[..4];
      }
    }
  }

  lemma FourByteHeader(data: Bytes)
    requires |data| >= 4
    ensures data == U16Bytes(ReadU16(data)) + (U16Bytes(ReadU16(data[2..])) + data[4..])
    ensures data[..4] == U16Bytes(ReadU16(data)) + U16Bytes(ReadU16(data[2..]))
  {
  }

  lemma ParsedErrorReencodes(data: Bytes)
    requires |data| >= 4 && ReadU16(data) == ERROR && ParseError(data).Ok?
    ensures WellFormed(ParseError(data).value)
    ensures Encode(ParseError(data).value) <= data
  {
    ReadStringIsCString(data[4..]);
    var (message, rest) := ReadString(data[4..]).value;
    FourByteHeader(data);
    assert data == Encode(ParseError(data).value) + rest;
  }

  lemma ParsedRequestReencodes(write: bool, s: Bytes)
    requires ParseRequest(write, s).Ok?
    ensures var p := ParseRequest(write, s).value;
      WellFormed(p) && (if write then p.WriteRequest? else p.ReadRequest?) &&
      s == CString(p.filename) + (CString(p.mode) + EncodeOptions(p.options))
  {
    ReadStringIsCString(s);
    var (f, afterName) := ReadString(s).value;
    ReadStringIsCString(afterName);
    ParsedOptionsReencode(ReadString(afterName).value.1);
  }

  /** RFC 1350 section 5: a packet survives the wire exactly when it is well formed. */
  lemma RoundTripIffWellFormed(p: Packet)
    ensures Parse(Encode(p)) == Ok(p) <==> WellFormed(p)
  {
    if WellFormed(p) {
      WellFormedRoundTrip(p);
    }
    if Parse(Encode(p)) == Ok(p) {
      ParsedReencodes(Encode(p));
    }
  }

  // ----------------------------------------- The source's own cursor and loops

  method ReadCString(data: Bytes, start: nat) returns (ok: bool, next: nat, text: Text)
    requires start <= |data|
    ensures ok == ReadString(data[start..]).Some?
    ensures ok ==> next <= |data| && ReadString(data[start..]) == Some((text, data[next..]))
  {
    var offset := start;
    while offset < |data| && data[offset] != 0
      invariant start <= offset <= |data|
      invariant forall i :: start <= i < offset ==> data[i] != 0
    {
      offset := offset + 1;
    }
    ghost var s := data[start..];
    if offset >= |data| {
      assert forall i :: 0 <= i < |s| ==> s[i] == data[start + i];
      return false, offset, [];
    }
    NulIndexUnique(s, offset - start);
    assert s[..offset - start] == data[start..offset];
    assert s[offset - start + 1..] == data[offset + 1..];
    return true, offset + 1, FromBytes(data[start..offset]);
  }

  function Prefixed(out: seq<TftpOption>, rest: Parsed<seq<TftpOption>>): Parsed<seq<TftpOption>> {
    if rest.Ok? then Ok(out + rest.value) else rest
  }

  method ParseOptionList(data: Bytes, start: nat) returns (result: Parsed<seq<TftpOption>>)
    requires start <= |data|
    ensures result == ParseOptions(data[start..])
  {
    var offset := start;
    var out: seq<TftpOption> := [];
    ghost var all := ParseOptions(data[start..]);
    assert all.Ok? ==> out + all.value == all.value;
    while offset < |data|
      invariant offset <= |data|
      invariant ParseOptions(data[start..]) == Prefixed(out, ParseOptions(data[offset..]))
      decreases |data| - offset
    {
      ghost var rest := data[offset..];
      var ok, afterName, name := ReadCString(data, offset);
      if !ok {
        return Failure("option name not NUL-terminated");
      }
      var okValue, afterValue, value := ReadCString(data, afterName);
      if !okValue {
        return Failure("option value not NUL-terminated");
      }
      if name == [] {
        return Failure("empty option name");
      }
      ghost var more := ParseOptions(data[afterValue..]);
      assert more.Ok? ==> out + ([TftpOption(name, value)] + more.value) ==
                          (out + [TftpOption(name, value)]) + more.value;
      out := out + [TftpOption(name, value)];
      offset := afterValue;
    }
    assert data[offset..] == [];
    assert out + [] == out;
    return Ok(out);
  }

  method ParseTftpPacket(data: Bytes) returns (result: Parsed<Packet>)
    ensures result == Parse(data)
  {
    if |data| < 2 {
      return Failure("datagram shorter than the 2-byte opcode field");
    }
    var opcode := ReadU16(data);
    if opcode == RRQ || opcode == WRQ {
      var ok, offset, filename := ReadCString(data, 2);
      if !ok {
        return Failure("RRQ/WRQ filename not NUL-terminated");
      }
      var okMode, afterMode, mode := ReadCString(data, offset);
      if !okMode {
        return Failure("RRQ/WRQ mode not NUL-terminated");
      }
      var list := ParseOptionList(data, afterMode);
      if list.Failure? {
        return Failure("RRQ/WRQ " + list.reason);
      }
      return Ok(if opcode == WRQ then WriteRequest(filename, mode, list.value)
                else ReadRequest(filename, mode, list.value));
    } else if opcode == DATA {
      if |data| < 4 {
        return Failure("DATA shorter than the 4-byte header");
      }
      return Ok(Data(ReadU16(data[2..]), data[4..]));
    } else if opcode == ACK {
      if |data| < 4 {
        return Failure("ACK shorter than 4 bytes");
      }
      return Ok(Acknowledgement(ReadU16(data[2..])));
    } else if opcode == ERROR {
      if |data| < 4 {
        return Failure("ERROR shorter than the 4-byte header");
      }
      var ok, _, message := ReadCString(data, 4);
      if !ok {
        return Failure("ERROR message not NUL-terminated");
      }
      return Ok(Error(ReadU16(data[2..]), message));
    } else if opcode == OACK {
      var list := ParseOptionList(data, 2);
      if list.Failure? {
        return Failure("OACK " + list.reason);
      }
      return Ok(OptionAcknowledgement(list.value));
    }
    return Failure("unknown opcode " + Decimal.Digits(opcode));
  }

  method AppendOptions(prefix: Bytes, options: seq<TftpOption>) returns (out: Bytes)
    ensures out == prefix + EncodeOptions(options)
  {
    out := prefix;
    for i := 0 to |options|
      invariant out + EncodeOptions(options[i..]) == prefix + EncodeOptions(options)
    {
      ghost var before := out;
      ghost var tail := EncodeOptions(options[i + 1..]);
      assert options[i..][1..] == options[i + 1..];
      out := out + CString(options[i].name) + CString(options[i].value);
      assert before + (CString(options[i].name) + (CString(options[i].value) + tail)) == out + tail;
    }
    assert options[|options|..] == [];
  }

  method SerializeRequest(write: bool, filename: Text, mode: Text, options: seq<TftpOption>)
    returns (out: Bytes)
    ensures out == Encode(if write then WriteRequest(filename, mode, options)
                          else ReadRequest(filename, mode, options))
  {
    var head := U16Bytes(if write then WRQ else RRQ) + CString(filename) + CString(mode);
    out := AppendOptions(head, options);
    assert out == U16Bytes(if write then WRQ else RRQ)
                  + (CString(filename) + (CString(mode) + EncodeOptions(options)));
  }

  method SerializeOptionAcknowledgement(options: seq<TftpOption>) returns (out: Bytes)
    ensures out == Encode(OptionAcknowledgement(options))
  {
    out := AppendOptions(U16Bytes(OACK), options);
  }

  // -------------------------------------------------- Case-insensitive names

  function ToLower(c: ByteChar): ByteChar {
    if 'A' <= c <= 'Z' then (c as int + 32) as char else c
  }

  function Lowered(t: Text): (r: Text)
    ensures |r| == |t|
  {
    seq(|t|, i requires 0 <= i < |t| => ToLower(t[i]))
  }

  /** RFC 2347 section 2: option names are compared without regard to case. */
  predicate EqualsIgnoreCase(left: Text, right: Text) {
    Lowered(left) == Lowered(right)
  }

  method EqualsIgnoreAsciiCase(left: Text, right: Text) returns (equal: bool)
    ensures equal == EqualsIgnoreCase(left, right)
  {
    if |left| != |right| {
      return false;
    }
    for i := 0 to |left|
      invariant forall k :: 0 <= k < i ==> ToLower(left[k]) == ToLower(right[k])
    {
      if ToLower(left[i]) != ToLower(right[i]) {
        assert Lowered(left)[i] != Lowered(right)[i];
        return false;
      }
    }
    return true;
  }
}
