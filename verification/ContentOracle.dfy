/** The content oracle (src/verify/content_oracle.cpp): was the file delivered intact? */
module ContentOracle {
  import opened Basics
  import Sha256
  import Hasher
  import Netascii

  datatype IntegrityVerdict = Match | Mismatch | MissingArtifact

  datatype IntegrityResult = IntegrityResult(
    verdict: IntegrityVerdict,
    sourceHash: Text,
    deliveredHash: Text,
    sourceSize: nat,
    deliveredSize: nat)

  function ToHex(bytes: Bytes): (t: Text)
    ensures |t| == 2 * |bytes|
    ensures forall i :: 0 <= i < |bytes| ==> t[2 * i] == HexDigit(bytes[i] / 16) && t[2 * i + 1] == HexDigit(bytes[i] % 16)
  {
    if bytes == [] then []
    else
      var front := bytes[..|bytes| - 1];
      var last := bytes[|bytes| - 1];
      ToHex(front) + [HexDigit(last / 16), HexDigit(last % 16)]
  }

  lemma HexDigitsDiffer(a: nat, b: nat)
    requires a < 16 && b < 16
    ensures HexDigit(a) == HexDigit(b) <==> a == b
  {
  }

  /** Fingerprints are equal exactly when the digests are. */
  lemma HexIsInjective(a: Bytes, b: Bytes)
    ensures ToHex(a) == ToHex(b) <==> a == b
  {
    if ToHex(a) == ToHex(b) {
      var t := ToHex(a);
      assert |a| == |b|;
      forall i | 0 <= i < |a|
        ensures a[i] == b[i]
      {
        assert t[2 * i] == HexDigit(a[i] / 16) == HexDigit(b[i] / 16);
        assert t[2 * i + 1] == HexDigit(a[i] % 16) == HexDigit(b[i] % 16);
        HexDigitsDiffer(a[i] / 16, b[i] / 16);
        HexDigitsDiffer(a[i] % 16, b[i] % 16);
      }
    }
  }

  method Sha256Hex(data: Bytes) returns (hex: Text)
    ensures hex == ToHex(Sha256.Digest(data))
  {
    hide Sha256.Digest, ToHex;
    assert [data][..0] == [] && [data][1..] == [];
    OnePiece(data);
    var digest := Hasher.HashPieces([data]);
    hex := ToHex(digest);
  }

  lemma OnePiece(data: Bytes)
    ensures Hasher.Concatenated([data]) == data
  {
    assert [data][..0] == [];
  }

  /** The content a conformant transfer preserves. */
  function Reference(source: Bytes, netascii: bool): Bytes {
    if netascii then Netascii.Normalized(source) else source
  }

  /** Match exactly when the delivered bytes hash as the reference does; equal bytes always do. */
  method CompareBytes(source: Bytes, delivered: Bytes, netascii: bool) returns (result: IntegrityResult)
    ensures result.verdict != MissingArtifact
    ensures result.verdict == Match <==>
            Sha256.Digest(delivered) == Sha256.Digest(Reference(source, netascii))
    ensures delivered == Reference(source, netascii) ==> result.verdict == Match
    ensures result.sourceSize == |Reference(source, netascii)| && result.deliveredSize == |delivered|
    ensures result.sourceHash == ToHex(Sha256.Digest(Reference(source, netascii)))
    ensures result.deliveredHash == ToHex(Sha256.Digest(delivered))
  {
    hide Sha256.Digest, ToHex, Netascii.Encode, Netascii.Decode, Netascii.Normalized;
    var reference := source;
    if netascii {
      var wire := Netascii.EncodeLocalToNetascii(source);
      reference := Netascii.DecodeNetasciiToLocal(wire);
      Netascii.DecodeEncode(source);
    }
    var sourceHash := Sha256Hex(reference);
    var deliveredHash := Sha256Hex(delivered);
    HexIsInjective(Sha256.Digest(reference), Sha256.Digest(delivered));
    result := IntegrityResult(if sourceHash == deliveredHash then Match else Mismatch,
                              sourceHash, deliveredHash, |reference|, |delivered|);
  }

  /** What the files on both sides amount to; either may be missing. */
  function Verdict(source: Option<Bytes>, delivered: Option<Bytes>, netascii: bool): IntegrityVerdict {
    if source.None? || delivered.None? then MissingArtifact
    else if Sha256.Digest(delivered.value) == Sha256.Digest(Reference(source.value, netascii)) then Match
    else Mismatch
  }

  method CompareFiles(source: Option<Bytes>, delivered: Option<Bytes>, netascii: bool) returns (result: IntegrityResult)
    ensures result.verdict == Verdict(source, delivered, netascii)
    ensures source.Some? && delivered == Some(Reference(source.value, netascii)) ==> result.verdict == Match
    ensures result.verdict == MissingArtifact <==> source.None? || delivered.None?
    ensures result.verdict == MissingArtifact ==> result == IntegrityResult(MissingArtifact, "", "", 0, 0)
    ensures result.verdict != MissingArtifact ==>
              && result.sourceHash == ToHex(Sha256.Digest(Reference(source.value, netascii)))
              && result.deliveredHash == ToHex(Sha256.Digest(delivered.value))
              && result.sourceSize == |Reference(source.value, netascii)| && result.deliveredSize == |delivered.value|
  {
    hide Sha256.Digest, Reference;
    if source.None? || delivered.None? {
      return IntegrityResult(MissingArtifact, "", "", 0, 0);
    }
    result := CompareBytes(source.value, delivered.value, netascii);
  }
}
