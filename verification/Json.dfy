/**
 JSON as the metrics store writes and reads it (src/metrics/json_writer.cpp):
 the value tree, its compact and indented text, and the reader, as functions.
 A character stands for one byte of the text.
 */
module Json {
  import opened Basics
  import opened JsonNumbers


  datatype Json =
    | Null
    | Bool(b: bool)
    | Num(n: Number)
    | Str(s: Text)
    | Arr(items: seq<Json>)
    | Obj(members: seq<Member>)

  datatype Member = Member(key: Text, value: Json)

  const BACKSPACE: ByteChar := 8 as char
  const FORM_FEED: ByteChar := 12 as char

  // ----------------------------------------------------------------- Writing

  function Escaped(c: ByteChar): Text {
    if c == '"' then "\\\""
    else if c == '\\' then "\\\\"
    else if c == BACKSPACE then "\\b"
    else if c == FORM_FEED then "\\f"
    else if c == '\n' then "\\n"
    else if c == '\r' then "\\r"
    else if c == '\t' then "\\t"
    else if c as int < 0x20 then ['\\', 'u', '0', '0', HexDigit(c as int / 16), HexDigit(c as int % 16)]
    else [c]
  }

  function EscapeAll(s: Text): Text {
    if s == [] then [] else Escaped(s[0]) + EscapeAll(s[1..])
  }

  function Quoted(s: Text): Text {
    ['"'] + (EscapeAll(s) + ['"'])
  }

  function Spaces(n: nat): (t: Text)
    ensures |t| == n && forall i :: 0 <= i < n ==> t[i] == ' '
  {
    seq(n, _ => ' ')
  }

  function Indent(pretty: bool, depth: nat): Text {
    if pretty then ['\n'] + Spaces(2 * depth) else []
  }

  function Colon(pretty: bool): Text {
    if pretty then ": " else ":"
  }

  function Serialize(v: Json, pretty: bool, depth: nat): Text
    decreases v, 1
  {
    match v
    case Null => "null"
    case Bool(b) => if b then "true" else "false"
    case Num(n) => NumberText(n)
    case Str(s) => Quoted(s)
    case Arr(items) =>
      if items == [] then "[]"
      else ['['] + (SerializeItems(items, pretty, depth) + (Indent(pretty, depth) + [']']))
    case Obj(members) =>
      if members == [] then "{}"
      else ['{'] + (SerializeMembers(members, pretty, depth) + (Indent(pretty, depth) + ['}']))
  }

  function SerializeItems(items: seq<Json>, pretty: bool, depth: nat): Text
    decreases items, 0
  {
    if items == [] then []
    else
      Indent(pretty, depth + 1) + (Serialize(items[0], pretty, depth + 1)
      + (if |items| == 1 then [] else [','] + SerializeItems(items[1..], pretty, depth)))
  }

  function SerializeMembers(members: seq<Member>, pretty: bool, depth: nat): Text
    decreases members, 0
  {
    if members == [] then []
    else
      Indent(pretty, depth + 1) + (Quoted(members[0].key) + (Colon(pretty)
      + (Serialize(members[0].value, pretty, depth + 1)
         + (if |members| == 1 then [] else [','] + SerializeMembers(members[1..], pretty, depth)))))
  }

  // ----------------------------------------------------------------- Reading
  // Each reader takes the text still to come and returns what it leaves.

  predicate IsSpace(c: char) {
    c == ' ' || c == '\t' || c == '\n' || c == '\r'
  }

  function SkipSpace(s: Text): (r: Text)
    ensures |r| <= |s|
    ensures r != [] ==> !IsSpace(r[0])
  {
    if s != [] && IsSpace(s[0]) then SkipSpace(s[1..]) else s
  }

  function HexValue(c: char): Option<nat> {
    if '0' <= c <= '9' then Some(c as int - '0' as int)
    else if 'a' <= c <= 'f' then Some(c as int - 'a' as int + 10)
    else if 'A' <= c <= 'F' then Some(c as int - 'A' as int + 10)
    else None
  }

  /** Four hexadecimal digits. */
  function HexCode(s: Text): (r: Option<nat>)
    requires |s| >= 4
    ensures r.Some? ==> r.value < 0x1_0000
  {
    var a, b, c, d := HexValue(s[0]), HexValue(s[1]), HexValue(s[2]), HexValue(s[3]);
    if a.Some? && b.Some? && c.Some? && d.Some? then
      Some(a.value * 4096 + b.value * 256 + c.value * 16 + d.value)
    else None
  }

  /** A code point of the basic plane as UTF-8. */
  function Utf8(code: nat): Text
    requires code < 0x1_0000
  {
    if code < 0x80 then [code as char]
    else if code < 0x800 then [(0xC0 + code / 64) as char, (0x80 + code % 64) as char]
    else [(0xE0 + code / 4096) as char, (0x80 + code / 64 % 64) as char, (0x80 + code % 64) as char]
  }

  function SimpleEscape(c: char): Option<ByteChar> {
    if c == '"' then Some('"')
    else if c == '\\' then Some('\\')
    else if c == '/' then Some('/')
    else if c == 'b' then Some(BACKSPACE)
    else if c == 'f' then Some(FORM_FEED)
    else if c == 'n' then Some('\n')
    else if c == 'r' then Some('\r')
    else if c == 't' then Some('\t')
    else None
  }

  function Prepend(head: Text, r: Option<(Text, Text)>): Option<(Text, Text)> {
    if r.None? then None else Some((head + r.value.0, r.value.1))
  }

  /** A string literal after its opening quote, and the text after its closing one. */
  function ReadString(s: Text): (r: Option<(Text, Text)>)
    ensures r.Some? ==> |r.value.1| < |s|
    decreases |s|
  {
    if s == [] then None
    else if s[0] == '"' then Some(([], s[1..]))
    else if s[0] == '\\' then
      if |s| < 2 then None
      else if SimpleEscape(s[1]).Some? then Prepend([SimpleEscape(s[1]).value], ReadString(s[2..]))
      else if s[1] != 'u' || |s| < 6 || HexCode(s[2..]).None? then None
      else Prepend(Utf8(HexCode(s[2..]).value), ReadString(s[6..]))
    else Prepend([s[0]], ReadString(s[1..]))
  }

  function NumberRun(s: Text): (n: nat)
    ensures n <= |s| && forall i :: 0 <= i < n ==> IsNumberChar(s[i])
    ensures n < |s| ==> !IsNumberChar(s[n])
  {
    if s == [] || !IsNumberChar(s[0]) then 0 else 1 + NumberRun(s[1..])
  }

  /** Replaces the member with this key where it stands, or adds one at the end. */
  function SetMember(members: seq<Member>, key: Text, value: Json): (r: seq<Member>)
    ensures |r| >= |members|
  {
    if members == [] then [Member(key, value)]
    else if members[0].key == key then [Member(key, value)] + members[1..]
    else [members[0]] + SetMember(members[1..], key, value)
  }

  function ReadValue(s: Text): (r: Option<(Json, Text)>)
    ensures r.Some? ==> |r.value.1| < |s|
    decreases |s|, 1
  {
    var t := SkipSpace(s);
    if t == [] then None
    else if t[0] == '{' then ReadObject(t[1..])
    else if t[0] == '[' then ReadArray(t[1..])
    else if t[0] == '"' then
      match ReadString(t[1..])
      case None => None
      case Some((text, rest)) => Some((Str(text), rest))
    else if t[0] == 't' || t[0] == 'f' then
      if "true" <= t then Some((Bool(true), t[4..]))
      else if "false" <= t then Some((Bool(false), t[5..]))
      else None
    else if t[0] == 'n' then
      if "null" <= t then Some((Null, t[4..])) else None
    else
      var n := NumberRun(t);
      if n == 0 then None
      else
        match ReadNumber(t[..n])
        case None => None
        case Some(number) => Some((Num(number), t[n..]))
  }

  /** An object after its opening brace. */
  function ReadObject(s: Text): (r: Option<(Json, Text)>)
    ensures r.Some? ==> r.value.0.Obj? && |r.value.1| < |s|
    decreases |s|, 1
  {
    var t := SkipSpace(s);
    if t != [] && t[0] == '}' then Some((Obj([]), t[1..])) else ReadMembers([], t)
  }

  function ReadMembers(members: seq<Member>, s: Text): (r: Option<(Json, Text)>)
    ensures r.Some? ==> r.value.0.Obj? && |r.value.1| < |s|
    decreases |s|, 0
  {
    var t := SkipSpace(s);
    if t == [] || t[0] != '"' then None
    else
      match ReadString(t[1..])
      case None => None
      case Some((key, afterKey)) =>
        var u := SkipSpace(afterKey);
        if u == [] || u[0] != ':' then None
        else
          match ReadValue(u[1..])
          case None => None
          case Some((value, afterValue)) =>
            var more := SetMember(members, key, value);
            var w := SkipSpace(afterValue);
            if w == [] then None
            else if w[0] == ',' then ReadMembers(more, w[1..])
            else if w[0] == '}' then Some((Obj(more), w[1..]))
            else None
  }

  /** An array after its opening bracket. */
  function ReadArray(s: Text): (r: Option<(Json, Text)>)
    ensures r.Some? ==> r.value.0.Arr? && |r.value.1| < |s|
    decreases |s|, 3
  {
    var t := SkipSpace(s);
    if t != [] && t[0] == ']' then Some((Arr([]), t[1..])) else ReadItems([], t)
  }

  function ReadItems(items: seq<Json>, s: Text): (r: Option<(Json, Text)>)
    ensures r.Some? ==> r.value.0.Arr? && |r.value.1| < |s|
    decreases |s|, 2
  {
    match ReadValue(s)
    case None => None
    case Some((value, rest)) =>
      var w := SkipSpace(rest);
      if w == [] then None
      else if w[0] == ',' then ReadItems(items + [value], w[1..])
      else if w[0] == ']' then Some((Arr(items + [value]), w[1..]))
      else None
  }

  /** A whole document: one value and nothing but space after it. */
  function ParseJson(text: Text): Option<Json> {
    match ReadValue(text)
    case None => None
    case Some((v, rest)) => if SkipSpace(rest) == [] then Some(v) else None
  }
}
