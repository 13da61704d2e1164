/**
 The netascii transducers (src/net/netascii.cpp): local text to wire form and
 back, with the exact form in which text comes back.
 */
module Netascii {
  import opened Basics

  const CR: Byte := 0x0D
  const LF: Byte := 0x0A
  const NUL: Byte := 0x00

  /** LF and CR LF become CR LF; any other CR becomes CR NUL. */
  function Encode(local: Bytes): Bytes
    decreases |local|
  {
    if local == [] then []
    else if local[0] == LF then [CR, LF] + Encode(local[1..])
    else if local[0] == CR then
      if |local| > 1 && local[1] == LF then [CR, LF] + Encode(local[2..])
      else [CR, NUL] + Encode(local[1..])
    else [local[0]] + Encode(local[1..])
  }

  /** CR LF becomes LF, CR NUL becomes CR, and any other byte is itself. */
  function Decode(wire: Bytes): Bytes
    decreases |wire|
  {
    if wire == [] then []
    else if wire[0] == CR && |wire| > 1 && wire[1] == LF then [LF] + Decode(wire[2..])
    else if wire[0] == CR && |wire| > 1 && wire[1] == NUL then [CR] + Decode(wire[2..])
    else [wire[0]] + Decode(wire[1..])
  }

  /** RFC 764: every CR is followed by LF or NUL, and every LF follows a CR. */
  ghost predicate WellFormedWire(wire: Bytes) {
    && (forall i :: 0 <= i < |wire| && wire[i] == CR ==>
          i + 1 < |wire| && (wire[i + 1] == LF || wire[i + 1] == NUL))
    && (forall i :: 0 <= i < |wire| && wire[i] == LF ==> i > 0 && wire[i - 1] == CR)
  }

  lemma PrependKeepsWellFormed(head: Bytes, wire: Bytes)
    requires WellFormedWire(wire)
    requires head == [CR, LF] || head == [CR, NUL] || (|head| == 1 && head[0] != CR && head[0] != LF)
    ensures WellFormedWire(head + wire)
  {
    var all := head + wire;
    forall i | 0 <= i < |all| && all[i] == CR
      ensures i + 1 < |all| && (all[i + 1] == LF || all[i + 1] == NUL)
    {
      if i >= |head| {
        assert all[i] == wire[i - |head|];
      }
    }
    forall i | 0 <= i < |all| && all[i] == LF
      ensures i > 0 && all[i - 1] == CR
    {
      if i >= |head| {
        assert all[i] == wire[i - |head|];
      }
    }
  }

  lemma {:induction false} EncodedIsWellFormed(local: Bytes)
    ensures WellFormedWire(Encode(local))
    decreases |local|
  {
    if local != [] {
      if local[0] == CR && |local| > 1 && local[1] == LF {
        EncodedIsWellFormed(local[2..]);
        PrependKeepsWellFormed([CR, LF], Encode(local[2..]));
      } else {
        EncodedIsWellFormed(local[1..]);
        PrependKeepsWellFormed(
          if local[0] == LF then [CR, LF] else if local[0] == CR then [CR, NUL] else [local[0]],
          Encode(local[1..]));
      }
    }
  }

  /** The text with one CR removed before every LF that has one. */
  function Normalized(local: Bytes): Bytes
    decreases |local|
  {
    if local == [] then []
    else if |local| > 1 && local[0] == CR && local[1] == LF then [LF] + Normalized(local[2..])
    else [local[0]] + Normalized(local[1..])
  }

  ghost predicate HasCrLf(local: Bytes) {
    exists i :: 0 <= i < |local| - 1 && local[i] == CR && local[i + 1] == LF
  }

  lemma DecodeEscape(following: Byte, wire: Bytes)
    requires following == LF || following == NUL
    ensures Decode([CR, following] + wire) == [if following == LF then LF else CR] + Decode(wire)
  {
    assert ([CR, following] + wire)[2..] == wire;
  }

  lemma DecodeOther(b: Byte, wire: Bytes)
    requires b != CR
    ensures Decode([b] + wire) == [b] + Decode(wire)
  {
    assert ([b] + wire)[1..] == wire;
  }

  /** What a conformant netascii transfer preserves. */
  lemma {:induction false} DecodeEncode(local: Bytes)
    ensures Decode(Encode(local)) == Normalized(local)
    decreases |local|
  {
    if local != [] {
      if local[0] == CR && |local| > 1 && local[1] == LF {
        DecodeEscape(LF, Encode(local[2..]));
        DecodeEncode(local[2..]);
      } else {
        DecodeEncode(local[1..]);
        if local[0] == LF {
          DecodeEscape(LF, Encode(local[1..]));
        } else if local[0] == CR {
          DecodeEscape(NUL, Encode(local[1..]));
        } else {
          DecodeOther(local[0], Encode(local[1..]));
        }
      }
    }
  }

  lemma {:induction false} NormalizedLength(local: Bytes)
    ensures |Normalized(local)| <= |local|
    ensures |Normalized(local)| == |local| ==> Normalized(local) == local
    ensures HasCrLf(local) <==> |Normalized(local)| < |local|
    decreases |local|
  {
    if local != [] {
      if |local| > 1 && local[0] == CR && local[1] == LF {
        NormalizedLength(local[2..]);
      } else {
        var tail := local[1..];
        NormalizedLength(tail);
        if HasCrLf(local) {
          var i :| 0 <= i < |local| - 1 && local[i] == CR && local[i + 1] == LF;
          assert tail[i - 1] == CR && tail[i] == LF;
        }
        if HasCrLf(tail) {
          var i :| 0 <= i < |tail| - 1 && tail[i] == CR && tail[i + 1] == LF;
          assert local[i + 1] == CR && local[i + 2] == LF;
        }
      }
    }
  }

  /** Text survives netascii byte for byte exactly when it contains no CR LF. */
  lemma SurvivesIffNoCrLf(local: Bytes)
    ensures Decode(Encode(local)) == local <==> !HasCrLf(local)
  {
    DecodeEncode(local);
    NormalizedLength(local);
  }

  /** The last byte is the NUL of a final CR, which decoding drops anyway. */
  predicate EndsInCrNul(wire: Bytes) {
    |wire| >= 2 && wire[|wire| - 2] == CR && wire[|wire| - 1] == NUL
  }

  /** What encodes one line break, lone CR or other byte. */
  predicate IsUnit(unit: Bytes, decoded: Byte) {
    if decoded == LF then unit == [CR, LF]
    else if decoded == CR then unit == [CR, NUL]
    else unit == [decoded]
  }

  /** One unit in front of the rest. */
  lemma CutBehindUnit(unit: Bytes, decoded: Byte, rest: Bytes, n: nat)
    requires IsUnit(unit, decoded) && n <= |rest|
    ensures Decode((unit + rest)[..|unit| + n]) == [decoded] + Decode(rest[..n])
    ensures Decode(unit + rest) == [decoded] + Decode(rest)
  {
    assert (unit + rest)[..|unit| + n] == unit + rest[..n];
    if |unit| == 1 {
      DecodeOther(decoded, rest[..n]);
      DecodeOther(decoded, rest);
    } else {
      DecodeEscape(unit[1], rest[..n]);
      DecodeEscape(unit[1], rest);
    }
  }

  lemma UnitAndRest(local: Bytes) returns (unit: Bytes, decoded: Byte, rest: Bytes)
    requires local != []
    ensures IsUnit(unit, decoded)
    ensures |rest| < |local| && Encode(local) == unit + Encode(rest)
  {
    if local[0] == CR && |local| > 1 && local[1] == LF {
      unit, decoded, rest := [CR, LF], LF, local[2..];
    } else if local[0] == LF {
      unit, decoded, rest := [CR, LF], LF, local[1..];
    } else if local[0] == CR {
      unit, decoded, rest := [CR, NUL], CR, local[1..];
    } else {
      unit, decoded, rest := [local[0]], local[0], local[1..];
    }
  }

  lemma DecodeEmptyIff(wire: Bytes)
    ensures Decode(wire) == [] <==> wire == []
  {
  }

  /** Encoded text cut short decodes to less, unless all that is cut off is a final CR's NUL. */
  lemma {:induction false} CutDecodesTheSameIff(local: Bytes, n: nat)
    requires n < |Encode(local)|
    ensures Decode(Encode(local)[..n]) == Decode(Encode(local)) <==>
            n + 1 == |Encode(local)| && EndsInCrNul(Encode(local))
    decreases |local|
  {
    hide Encode, Decode;
    NothingLeft();
    if local != [] {
      var unit, decoded, rest := UnitAndRest(local);
      var wire, more := Encode(local), Encode(rest);
      CutBehindUnit(unit, decoded, more, 0);
      if n == 0 {
        assert wire[..0] == [];
        if |wire| == 1 {
          assert more == [];
        }
      } else if n < |unit| {
        assert wire[..1] == [CR];
        DecodeLoneCr();
        DecodeEmptyIff(more);
        SameHead(decoded, CR, Decode(more), []);
        assert [CR] + [] == [CR];
      } else {
        CutBehindUnit(unit, decoded, more, n - |unit|);
        SameHead(decoded, decoded, Decode(more[..n - |unit|]), Decode(more));
        CutDecodesTheSameIff(rest, n - |unit|);
        if n - |unit| + 1 == |more| && |more| == 1 {
          OneByteIsPlain(rest);
        }
      }
    }
  }

  lemma SameHead(a: Byte, b: Byte, s: Bytes, t: Bytes)
    ensures [a] + s == [b] + t <==> a == b && s == t
  {
    assert ([a] + s)[0] == a && ([b] + t)[0] == b;
    assert ([a] + s)[1..] == s && ([b] + t)[1..] == t;
  }

  lemma DecodeLoneCr()
    ensures Decode([CR]) == [CR]
  {
    assert [CR][1..] == [];
  }

  lemma OneByteIsPlain(local: Bytes)
    requires |Encode(local)| == 1
    ensures Encode(local)[0] != CR && Encode(local)[0] != LF
  {
    var unit, decoded, rest := UnitAndRest(local);
  }

  /** CR followed by LF or NUL: what decoding contracts. */
  predicate PairAt(wire: Bytes, i: int) {
    0 <= i < |wire| - 1 && wire[i] == CR && (wire[i + 1] == LF || wire[i + 1] == NUL)
  }

  lemma {:induction false} DecodedLength(wire: Bytes)
    ensures |Decode(wire)| <= |wire|
    ensures |Decode(wire)| == |wire| ==> Decode(wire) == wire
    ensures (exists i :: PairAt(wire, i)) <==> |Decode(wire)| < |wire|
    decreases |wire|
  {
    if wire != [] {
      if PairAt(wire, 0) {
        DecodedLength(wire[2..]);
      } else {
        var tail := wire[1..];
        DecodedLength(tail);
        if i :| PairAt(wire, i) {
          assert PairAt(tail, i - 1);
        }
        if i :| PairAt(tail, i) {
          assert PairAt(wire, i + 1);
        }
      }
    }
  }

  /** Decoding leaves alone exactly what holds neither CR LF nor CR NUL, a CR before anything else included. */
  lemma DecodeUnchangedIff(wire: Bytes)
    ensures Decode(wire) == wire <==>
            !exists i :: 0 <= i < |wire| - 1 && wire[i] == 0x0D && (wire[i + 1] == 0x0A || wire[i + 1] == 0x00)
  {
    DecodedLength(wire);
    assert forall i :: PairAt(wire, i) <==>
      0 <= i < |wire| - 1 && wire[i] == 0x0D && (wire[i + 1] == 0x0A || wire[i + 1] == 0x00);
  }

  // ------------------------------------------------------- The source's loops

  lemma EncodeHere(local: Bytes, i: nat)
    requires i < |local|
    ensures local[i] == LF ==> Encode(local[i..]) == [CR, LF] + Encode(local[i + 1..])
    ensures local[i] == CR && i + 1 < |local| && local[i + 1] == LF ==>
              Encode(local[i..]) == [CR, LF] + Encode(local[i + 2..])
    ensures local[i] == CR && !(i + 1 < |local| && local[i + 1] == LF) ==>
              Encode(local[i..]) == [CR, NUL] + Encode(local[i + 1..])
    ensures local[i] != LF && local[i] != CR ==> Encode(local[i..]) == [local[i]] + Encode(local[i + 1..])
  {
    var rest := local[i..];
    assert rest[1..] == local[i + 1..];
    assert |rest| > 1 ==> rest[2..] == local[i + 2..];
  }

  lemma DecodeHere(wire: Bytes, i: nat)
    requires i < |wire|
    ensures wire[i] == CR && i + 1 < |wire| && wire[i + 1] == LF ==>
              Decode(wire[i..]) == [LF] + Decode(wire[i + 2..])
    ensures wire[i] == CR && i + 1 < |wire| && wire[i + 1] == NUL ==>
              Decode(wire[i..]) == [CR] + Decode(wire[i + 2..])
    ensures !(wire[i] == CR && i + 1 < |wire| && (wire[i + 1] == LF || wire[i + 1] == NUL)) ==>
              Decode(wire[i..]) == [wire[i]] + Decode(wire[i + 1..])
  {
    var rest := wire[i..];
    assert rest[1..] == wire[i + 1..];
    assert |rest| > 1 ==> rest[2..] == wire[i + 2..];
  }

  method EncodeLocalToNetascii(local: Bytes) returns (out: Bytes)
    ensures out == Encode(local)
  {
    out := [];
    var i := 0;
    assert local[0..] == local && [] + Encode(local) == Encode(local);
    hide Encode;
    while i < |local|
      invariant 0 <= i <= |local|
      invariant out + Encode(local[i..]) == Encode(local)
    {
      ghost var written := out;
      EncodeHere(local, i);
      if local[i] == LF {
        out := out + [CR, LF];
      } else if local[i] == CR {
        if i + 1 < |local| && local[i + 1] == LF {
          out := out + [CR, LF];
          i := i + 1;
        } else {
          out := out + [CR, NUL];
        }
      } else {
        out := out + [local[i]];
      }
      i := i + 1;
      Regroup(written, out[|written|..], Encode(local[i..]));
    }
    NothingLeft();
    assert local[i..] == [];
  }

  lemma NothingLeft()
    ensures Encode([]) == [] && Decode([]) == []
  {
  }

  method DecodeNetasciiToLocal(wire: Bytes) returns (out: Bytes)
    ensures out == Decode(wire)
  {
    out := [];
    var i := 0;
    assert wire[0..] == wire && [] + Decode(wire) == Decode(wire);
    hide Decode;
    while i < |wire|
      invariant 0 <= i <= |wire|
      invariant out + Decode(wire[i..]) == Decode(wire)
    {
      DecodeHere(wire, i);
      var b := wire[i];
      if b == CR && i + 1 < |wire| {
        var following := wire[i + 1];
        if following == LF {
          Regroup(out, [LF], Decode(wire[i + 2..]));
          out := out + [LF];
          i := i + 2;
          continue;
        }
        if following == NUL {
          Regroup(out, [CR], Decode(wire[i + 2..]));
          out := out + [CR];
          i := i + 2;
          continue;
        }
        Regroup(out, [CR], Decode(wire[i + 1..]));
        out := out + [CR];
        i := i + 1;
        continue;
      }
      Regroup(out, [b], Decode(wire[i + 1..]));
      out := out + [b];
      i := i + 1;
    }
    NothingLeft();
    assert wire[i..] == [];
  }
}
