/**
 Single-bit corruption of a datagram (src/net/impairments.cpp, the flip inside
 `maybe_corrupt`) and what it does to the opcode field of DATA and ACK.
 */
module Corruption {
  import opened Basics
  import opened Codec

  function BitValue(k: nat): (v: Positive)
    requires k < 8
  {
    [1, 2, 4, 8, 16, 32, 64, 128][k]
  }

  /** Exclusive or with a single bit. */
  function FlipBit(b: Byte, k: nat): (r: Byte)
    requires k < 8
    ensures r != b
  {
    var v: int := BitValue(k);
    assert k == 0 || k == 1 || k == 2 || k == 3 || k == 4 || k == 5 || k == 6 || k == 7;
    if b / v % 2 == 0 then b as int + v else b as int - v
  }

  function FlipAt(bytes: Bytes, index: nat, k: nat): (r: Bytes)
    requires index < |bytes| && k < 8
    ensures |r| == |bytes| && r != bytes
  {
    var r := bytes[index := FlipBit(bytes[index], k)];
    assert r[index] != bytes[index];
    r
  }

  /** Flips one of the 16 bits of the opcode field, high byte first. */
  function FlipOpcodeBit(bytes: Bytes, bit: nat): Bytes
    requires |bytes| >= 2 && bit < 16
  {
    FlipAt(bytes, bit / 8, bit % 8)
  }

  lemma FlippedOpcode(high: Byte, low: Byte, bit: nat)
    requires high == 0 && (low == DATA || low == ACK) && bit < 16
    ensures var opcode := ReadU16(FlipOpcodeBit([high, low], bit));
      if low == DATA then opcode == RRQ || opcode == WRQ || opcode > OACK
      else opcode == ERROR || opcode == OACK || opcode == 0 || opcode > OACK
  {
    var k := bit % 8;
    assert k == 0 || k == 1 || k == 2 || k == 3 || k == 4 || k == 5 || k == 6 || k == 7;
  }

  /** A damaged DATA never reads as DATA, ACK, ERROR or OACK. */
  lemma FlippedDataIsForeignToItsLoop(block: U16, data: Bytes, bit: nat)
    requires bit < 16
    ensures var parsed := Parse(FlipOpcodeBit(Encode(Data(block, data)), bit));
      parsed.Ok? ==> parsed.value.ReadRequest? || parsed.value.WriteRequest?
  {
    var bytes := FlipOpcodeBit(Encode(Data(block, data)), bit);
    FlippedOpcode(0, DATA, bit);
    assert ReadU16(bytes) == ReadU16(FlipOpcodeBit([0, DATA], bit));
  }

  /** A damaged ACK never parses: its two bytes of number make no string and no option. */
  lemma FlippedAckNeverParses(block: U16, bit: nat)
    requires bit < 16
    ensures Parse(FlipOpcodeBit(Encode(Acknowledgement(block)), bit)).Failure?
  {
    var bytes := FlipOpcodeBit(Encode(Acknowledgement(block)), bit);
    FlippedOpcode(0, ACK, bit);
    assert ReadU16(bytes) == ReadU16(FlipOpcodeBit([0, ACK], bit));
    assert |bytes| == 4;
    NoStringInNothing();
    NoOptionInTwoBytes(bytes[2..]);
  }

  // ------------------------------------------------------- Control packets
  // Here one bit does harm: the opcodes of ERROR and OACK are next to that of ACK.

  predicate IsControl(p: Packet) {
    p.Error? || (p.OptionAcknowledgement? && OptionsWellFormed(p.options) && p.options != [])
  }

  /** The opcode bit that makes an ACK of it. */
  function AckBit(p: Packet): nat
    requires IsControl(p)
    ensures AckBit(p) < 16
  {
    if p.Error? then 8 else 9
  }

  /** The number that ACK then carries: the error code, or the first two bytes of the first option's name. */
  function AckNumber(p: Packet): U16
    requires IsControl(p)
  {
    if p.Error? then p.code else NameNumber(p.options[0].name)
  }

  function NameNumber(name: Text): U16
    requires name != []
  {
    name[0] as int * 0x100 + if |name| > 1 then name[1] as int else 0
  }

  lemma FlippedControlOpcode(low: Byte, bit: nat)
    requires (low == ERROR || low == OACK) && bit < 16
    ensures var opcode := ReadU16(FlipOpcodeBit([0, low], bit));
      && (opcode == ACK <==> bit == if low == ERROR then 8 else 9)
      && opcode != DATA
  {
    var k := bit % 8;
    assert k == 0 || k == 1 || k == 2 || k == 3 || k == 4 || k == 5 || k == 6 || k == 7;
  }

  lemma OptionBytesBegin(options: seq<TftpOption>)
    requires OptionsWellFormed(options) && options != []
    ensures |EncodeOptions(options)| >= 2 && ReadU16(EncodeOptions(options)) == NameNumber(options[0].name)
  {
    var name := options[0].name;
    var s := EncodeOptions(options);
    assert CString(name)[0] == name[0] as int;
    assert CString(name)[1] == if |name| > 1 then name[1] as int else 0;
    assert s[0] == CString(name)[0] && s[1] == CString(name)[1];
  }

  /** A damaged ERROR or OACK reads as an ACK for exactly one of the sixteen bits, and never as DATA. */
  lemma FlippedControlIsAckIff(p: Packet, bit: nat)
    requires IsControl(p) && bit < 16 && |Encode(p)| >= 2
    ensures var parsed := Parse(FlipOpcodeBit(Encode(p), bit));
      && (parsed.Ok? && parsed.value.Acknowledgement? <==> bit == AckBit(p))
      && (bit == AckBit(p) ==> parsed == Ok(Acknowledgement(AckNumber(p))))
      && !(parsed.Ok? && parsed.value.Data?)
  {
    hide ParseOptions, EncodeOptions, OptionsWellFormed;
    var low: Byte := if p.Error? then ERROR else OACK;
    var bytes := FlipOpcodeBit(Encode(p), bit);
    FlippedControlOpcode(low, bit);
    assert ReadU16(bytes) == ReadU16(FlipOpcodeBit([0, low], bit));
    if p.Error? {
      assert bytes[2..][..2] == U16Bytes(p.code);
    } else {
      OptionBytesBegin(p.options);
      assert bytes[2..] == EncodeOptions(p.options);
    }
    ParsedKind(bytes);
  }

  /** The opcode tells what a datagram parses as. */
  lemma ParsedKind(bytes: Bytes)
    requires |bytes| >= 2
    ensures var parsed := Parse(bytes);
      && (parsed.Ok? && parsed.value.Acknowledgement? ==> ReadU16(bytes) == ACK)
      && (parsed.Ok? && parsed.value.Data? ==> ReadU16(bytes) == DATA)
      && (ReadU16(bytes) == ACK && |bytes| >= 4 ==> parsed == Ok(Acknowledgement(ReadU16(bytes[2..]))))
  {
    hide ParseOptions;
  }

  lemma NoStringInNothing()
    ensures ReadString([]) == None
  {
  }

  lemma NoOptionInTwoBytes(s: Bytes)
    requires |s| == 2
    ensures ParseOptions(s).Failure?
  {
    if ParseOptions(s).Ok? {
      ParsedOptionsReencode(s);
    }
  }
}
