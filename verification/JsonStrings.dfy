/**
 The string literals the JSON reader takes (src/metrics/json_writer.cpp,
 `parse_string`), as a grammar: piece by piece, what each may look like and what
 it stands for.
 */
module JsonStrings {
  import opened Basics
  import opened Json
  import opened JsonRoundTrip

  // ----------------------------------------------------------------- Pieces

  /** A hexadecimal digit in either case. */
  predicate IsHexDigit(c: char, value: int) {
    0 <= value < 16 && (c == "0123456789abcdef"[value] || c == "0123456789ABCDEF"[value])
  }

  lemma HexValueIff(c: char, value: int)
    ensures HexValue(c) == Some(value) <==> IsHexDigit(c, value)
  {
  }

  /** What the letter behind a backslash stands for. */
  predicate IsShortEscape(letter: char, meaning: Text) {
    || (letter == '"' && meaning == "\"") || (letter == '\\' && meaning == "\\") || (letter == '/' && meaning == "/")
    || (letter == 'b' && meaning == [8 as char]) || (letter == 'f' && meaning == [12 as char])
    || (letter == 'n' && meaning == [10 as char]) || (letter == 'r' && meaning == [13 as char])
    || (letter == 't' && meaning == [9 as char])
  }

  lemma SimpleEscapeIff(letter: char, meaning: Text)
    ensures IsShortEscape(letter, meaning) <==> SimpleEscape(letter).Some? && meaning == [SimpleEscape(letter).value]
  {
  }

  /** RFC 3629 section 3: a code point of at most sixteen bits in one, two or three bytes. */
  predicate IsUtf8(code: int, bytes: Text) {
    || (0 <= code < 0x80 && |bytes| == 1 && bytes[0] as int == code)
    || (0x80 <= code < 0x800 && |bytes| == 2 && 0xC0 <= bytes[0] as int < 0xE0 && 0x80 <= bytes[1] as int < 0xC0
        && code == (bytes[0] as int - 0xC0) * 64 + (bytes[1] as int - 0x80))
    || (0x800 <= code < 0x1_0000 && |bytes| == 3 && 0xE0 <= bytes[0] as int < 0xF0
        && 0x80 <= bytes[1] as int < 0xC0 && 0x80 <= bytes[2] as int < 0xC0
        && code == ((bytes[0] as int - 0xE0) * 64 + (bytes[1] as int - 0x80)) * 64 + (bytes[2] as int - 0x80))
  }

  lemma OneByte(code: nat, bytes: Text)
    requires code < 0x80
    ensures IsUtf8(code, bytes) <==> bytes == Utf8(code)
  {
  }

  lemma TwoByteForm(code: nat)
    requires 0x80 <= code < 0x800
    ensures IsUtf8(code, Utf8(code))
  {
  }

  lemma TwoByteParts(code: nat, bytes: Text)
    requires 0x80 <= code < 0x800 && IsUtf8(code, bytes)
    ensures bytes == Utf8(code)
  {
    assert code / 64 == bytes[0] as int - 0xC0;
  }

  lemma ThreeByteForm(code: nat)
    requires 0x800 <= code < 0x1_0000
    ensures IsUtf8(code, Utf8(code))
  {
  }

  lemma ThreeByteParts(code: nat, bytes: Text)
    requires 0x800 <= code < 0x1_0000 && IsUtf8(code, bytes)
    ensures bytes == Utf8(code)
  {
    assert code / 64 == (bytes[0] as int - 0xE0) * 64 + (bytes[1] as int - 0x80);
    assert code / 4096 == bytes[0] as int - 0xE0;
  }

  lemma Utf8Iff(code: nat, bytes: Text)
    requires code < 0x1_0000
    ensures IsUtf8(code, bytes) <==> bytes == Utf8(code)
  {
    hide IsUtf8, Utf8;
    if code < 0x80 {
      OneByte(code, bytes);
    } else if code < 0x800 {
      TwoByteForm(code);
      if IsUtf8(code, bytes) {
        TwoByteParts(code, bytes);
      }
    } else {
      ThreeByteForm(code);
      if IsUtf8(code, bytes) {
        ThreeByteParts(code, bytes);
      }
    }
  }

  /** Four hexadecimal digits and the code point they name. */
  ghost predicate IsHexCode(digits: Text, code: int) {
    |digits| == 4 &&
    exists a, b, c, d ::
      && IsHexDigit(digits[0], a) && IsHexDigit(digits[1], b) && IsHexDigit(digits[2], c) && IsHexDigit(digits[3], d)
      && code == ((a * 16 + b) * 16 + c) * 16 + d
  }

  lemma HexCodeIff(digits: Text, code: int)
    requires |digits| == 4
    ensures IsHexCode(digits, code) <==> HexCode(digits) == Some(code)
  {
    hide HexValue, IsHexDigit;
    forall i, value | 0 <= i < 4
      ensures HexValue(digits[i]) == Some(value) <==> IsHexDigit(digits[i], value)
    {
      HexValueIff(digits[i], value);
    }
    if HexCode(digits).Some? {
      var a, b := HexValue(digits[0]).value, HexValue(digits[1]).value;
      var c, d := HexValue(digits[2]).value, HexValue(digits[3]).value;
      assert IsHexDigit(digits[0], a) && IsHexDigit(digits[1], b) && IsHexDigit(digits[2], c) && IsHexDigit(digits[3], d);
      assert HexCode(digits).value == ((a * 16 + b) * 16 + c) * 16 + d;
    }
    if IsHexCode(digits, code) {
      var a, b, c, d :|
        && IsHexDigit(digits[0], a) && IsHexDigit(digits[1], b) && IsHexDigit(digits[2], c) && IsHexDigit(digits[3], d)
        && code == ((a * 16 + b) * 16 + c) * 16 + d;
      assert HexValue(digits[0]) == Some(a) && HexValue(digits[1]) == Some(b);
      assert HexValue(digits[2]) == Some(c) && HexValue(digits[3]) == Some(d);
    }
  }

  /** One piece of a literal and what it stands for. */
  ghost predicate Stands(piece: Text, meaning: Text) {
    || (|piece| == 1 && piece[0] != '"' && piece[0] != '\\' && meaning == piece)
    || (|piece| == 2 && piece[0] == '\\' && IsShortEscape(piece[1], meaning))
    || (|piece| == 6 && piece[..2] == "\\u" && exists code :: IsHexCode(piece[2..], code) && IsUtf8(code, meaning))
  }

  /** The reader takes such a piece for what it stands for. */
  lemma PieceReads(piece: Text, meaning: Text, rest: Text)
    requires Stands(piece, meaning)
    ensures ReadString(piece + rest) == Prepend(meaning, ReadString(rest))
  {
    hide ReadString, HexCode, Utf8, SimpleEscape, IsUtf8, IsHexCode, IsShortEscape, Prepend;
    var s := piece + rest;
    assert s[0] == piece[0];
    if |piece| == 1 {
      assert s[1..] == rest && meaning == [s[0]];
    } else if |piece| == 2 {
      assert s[1] == piece[1] && s[2..] == rest;
      SimpleEscapeIff(piece[1], meaning);
    } else {
      var code :| IsHexCode(piece[2..], code) && IsUtf8(code, meaning);
      assert s[1] == piece[1] == 'u' && s[6..] == rest;
      HexCodeIff(piece[2..], code);
      SameCode(piece[2..], s[2..]);
      Utf8Iff(code, meaning);
      UIsNoShortEscape();
    }
    ReadStringTurn(s);
  }

  lemma UIsNoShortEscape()
    ensures SimpleEscape('u').None?
  {
  }

  lemma SameCode(digits: Text, s: Text)
    requires |digits| == 4 && |s| >= 4 && s[..4] == digits
    ensures HexCode(s) == HexCode(digits)
  {
    assert s[0] == s[..4][0] && s[1] == s[..4][1] && s[2] == s[..4][2] && s[3] == s[..4][3];
  }

  /** And whatever it takes off the front of a literal is such a piece. */
  lemma FirstPiece(s: Text) returns (piece: Text, meaning: Text, rest: Text)
    requires ReadString(s).Some? && s[0] != '"'
    ensures Stands(piece, meaning) && s == piece + rest && |rest| < |s|
    ensures ReadString(s) == Prepend(meaning, ReadString(rest)) && ReadString(rest).Some?
  {
    hide HexCode, Utf8, SimpleEscape, IsUtf8, IsHexCode, IsShortEscape;
    if s[0] != '\\' {
      piece, meaning, rest := [s[0]], [s[0]], s[1..];
    } else if SimpleEscape(s[1]).Some? {
      piece, meaning, rest := s[..2], [SimpleEscape(s[1]).value], s[2..];
      SimpleEscapeIff(s[1], meaning);
    } else {
      piece, rest := s[..6], s[6..];
      assert piece[2..] == s[2..][..4];
      SameCode(piece[2..], s[2..]);
      var code := HexCode(s[2..]).value;
      meaning := Utf8(code);
      HexCodeIff(piece[2..], code);
      Utf8Iff(code, meaning);
      assert piece[..2] == "\\u";
    }
  }

  // --------------------------------------------------------------- Literals

  /** The inside of a literal. */
  datatype Literal = Empty | Cons(piece: Text, meaning: Text, more: Literal)

  ghost predicate IsLiteral(l: Literal) {
    l.Cons? ==> Stands(l.piece, l.meaning) && IsLiteral(l.more)
  }

  function Spelling(l: Literal): Text {
    match l
    case Empty => []
    case Cons(piece, _, more) => piece + Spelling(more)
  }

  function Content(l: Literal): Text {
    match l
    case Empty => []
    case Cons(_, meaning, more) => meaning + Content(more)
  }

  lemma {:induction false} LiteralReads(l: Literal, rest: Text)
    requires IsLiteral(l)
    ensures ReadString(Spelling(l) + (['"'] + rest)) == Some((Content(l), rest))
    decreases l
  {
    hide Stands, ReadString;
    match l
    case Empty => QuoteEnds(rest);
    case Cons(piece, meaning, more) =>
      LiteralReads(more, rest);
      PieceReads(piece, meaning, Spelling(more) + (['"'] + rest));
      Regroup(piece, Spelling(more), ['"'] + rest);
  }

  lemma QuoteEnds(rest: Text)
    ensures ReadString([] + (['"'] + rest)) == Some(([], rest))
  {
    assert [] + (['"'] + rest) == ['"'] + rest;
    assert (['"'] + rest)[1..] == rest;
  }

  lemma {:induction false} ReadLiteral(s: Text) returns (l: Literal)
    requires ReadString(s).Some?
    ensures IsLiteral(l) && s == Spelling(l) + (['"'] + ReadString(s).value.1) && ReadString(s).value.0 == Content(l)
    decreases |s|
  {
    hide Stands;
    if s[0] == '"' {
      l := Empty;
      assert s == ['"'] + s[1..];
    } else {
      var piece, meaning, rest := FirstPiece(s);
      hide ReadString;
      var more := ReadLiteral(rest);
      l := Cons(piece, meaning, more);
    }
  }

  /**
   RFC 8259 section 7: a string literal is read exactly if it is made of such pieces
   up to a quote, and stands for what they stand for, in order.
   */
  lemma StringReadIff(s: Text, text: Text, rest: Text)
    ensures ReadString(s) == Some((text, rest)) <==>
            exists l :: IsLiteral(l) && s == Spelling(l) + (['"'] + rest) && text == Content(l)
  {
    if ReadString(s) == Some((text, rest)) {
      var l := ReadLiteral(s);
    }
    hide ReadString, IsLiteral;
    if l :| IsLiteral(l) && s == Spelling(l) + (['"'] + rest) && text == Content(l) {
      LiteralReads(l, rest);
    }
  }

  // ----------------------------------------------------------- What is written

  /** No control character, and nothing in capitals behind "\\u". */
  predicate IsPrintable(piece: Text) {
    && (forall i :: 0 <= i < |piece| ==> piece[i] as int >= 0x20)
    && (|piece| == 6 ==> forall i :: 2 <= i < 6 ==> !('A' <= piece[i] <= 'F'))
  }

  lemma LowCodes(digits: Text, code: int)
    requires IsHexCode(digits, code) && 0 <= code < 0x20 && forall i :: 0 <= i < 4 ==> !('A' <= digits[i] <= 'F')
    ensures digits == ['0', '0', HexDigit(code / 16), HexDigit(code % 16)]
  {
    var a, b, c, d :|
      && IsHexDigit(digits[0], a) && IsHexDigit(digits[1], b) && IsHexDigit(digits[2], c) && IsHexDigit(digits[3], d)
      && code == ((a * 16 + b) * 16 + c) * 16 + d;
    assert a == 0 && b == 0 && c == code / 16 && d == code % 16;
    LowerDigit(digits[0], a);
    LowerDigit(digits[1], b);
    LowerDigit(digits[2], c);
    LowerDigit(digits[3], d);
    hide IsHexDigit;
  }

  lemma LowerDigit(c: char, value: nat)
    requires IsHexDigit(c, value) && !('A' <= c <= 'F')
    ensures c == HexDigit(value)
  {
  }

  lemma EscapedStands(c: ByteChar)
    ensures Stands(Escaped(c), [c]) && IsPrintable(Escaped(c))
  {
    var e := Escaped(c);
    if |e| == 6 {
      var high, low := c as int / 16, c as int % 16;
      assert IsHexDigit(e[2], 0) && IsHexDigit(e[3], 0) && IsHexDigit(e[4], high) && IsHexDigit(e[5], low);
      assert IsHexCode(e[2..], c as int) && IsUtf8(c as int, [c]);
    }
  }

  /** What the writer makes of a character is the one shortest piece for it that can be printed. */
  lemma EscapedIsShortest(c: ByteChar, piece: Text)
    requires Stands(piece, [c]) && IsPrintable(piece)
    ensures Stands(Escaped(c), [c]) && IsPrintable(Escaped(c))
    ensures |Escaped(c)| <= |piece| && (|piece| == |Escaped(c)| ==> piece == Escaped(c))
  {
    EscapedStands(c);
    if |piece| == 6 && |Escaped(c)| == 6 {
      var code :| IsHexCode(piece[2..], code) && IsUtf8(code, [c]);
      assert code == c as int;
      LowCodes(piece[2..], code);
      assert piece == piece[..2] + piece[2..];
    }
    hide IsHexCode, IsUtf8;
  }
}
