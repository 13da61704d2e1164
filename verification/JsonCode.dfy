/**
 The JSON writer and reader in their own form (src/metrics/json_writer.cpp): a
 writer that appends to its output, and a recursive-descent reader that
 advances a position through the text.  Each computes its function in `Json`.
 */
module JsonCode {
  import opened Basics
  import opened Json
  import opened JsonNumbers

  // ------------------------------------------------------------------ Writer

  method EscapeJsonString(raw: Text) returns (out: Text)
    ensures out == Quoted(raw)
  {
    hide Escaped;
    out := ['"'];
    for i := 0 to |raw|
      invariant out + EscapeAll(raw[i..]) == ['"'] + EscapeAll(raw)
    {
      assert raw[i..][1..] == raw[i + 1..];
      assert out + (Escaped(raw[i]) + EscapeAll(raw[i + 1..])) == out + Escaped(raw[i]) + EscapeAll(raw[i + 1..]);
      out := out + Escaped(raw[i]);
    }
    assert raw[|raw|..] == [];
    assert out + [] == out;
    out := out + ['"'];
    assert ['"'] + EscapeAll(raw) + ['"'] == Quoted(raw);
  }

  /** Appends the text of `v` to `prefix`. */
  method SerializeInto(prefix: Text, v: Json, pretty: bool, depth: nat) returns (out: Text)
    ensures out == prefix + Serialize(v, pretty, depth)
    decreases v
  {
    hide SerializeItems, SerializeMembers, Indent, NumberText;
    match v {
      case Null => out := prefix + "null";
      case Bool(b) => out := prefix + if b then "true" else "false";
      case Num(n) => out := prefix + NumberText(n);
      case Str(s) =>
        var quoted := EscapeJsonString(s);
        out := prefix + quoted;
      case Arr(items) =>
        if items == [] {
          return prefix + "[]";
        }
        out := AppendItems(prefix + ['['], items, pretty, depth);
        Regroup(prefix, ['['], SerializeItems(items, pretty, depth));
        Regroup(prefix, ['['] + SerializeItems(items, pretty, depth), Indent(pretty, depth) + [']']);
        Regroup(['['], SerializeItems(items, pretty, depth), Indent(pretty, depth) + [']']);
        out := out + (Indent(pretty, depth) + [']']);
      case Obj(members) =>
        if members == [] {
          return prefix + "{}";
        }
        out := AppendMembers(prefix + ['{'], members, pretty, depth);
        Regroup(prefix, ['{'], SerializeMembers(members, pretty, depth));
        Regroup(prefix, ['{'] + SerializeMembers(members, pretty, depth), Indent(pretty, depth) + ['}']);
        Regroup(['{'], SerializeMembers(members, pretty, depth), Indent(pretty, depth) + ['}']);
        out := out + (Indent(pretty, depth) + ['}']);
    }
  }

  /** What is still to be written from item i on, its separating comma included. */
  function ItemsFrom(items: seq<Json>, pretty: bool, depth: nat, i: nat): Text
    requires i <= |items|
  {
    if i == |items| then []
    else (if i == 0 then [] else [',']) + SerializeItems(items[i..], pretty, depth)
  }

  lemma ItemsFromStep(items: seq<Json>, pretty: bool, depth: nat, i: nat)
    requires i < |items|
    ensures ItemsFrom(items, pretty, depth, i) ==
            (if i == 0 then [] else [',']) + (Indent(pretty, depth + 1)
            + (Serialize(items[i], pretty, depth + 1) + ItemsFrom(items, pretty, depth, i + 1)))
  {
    hide Serialize, Indent;
    assert items[i..][1..] == items[i + 1..];
  }

  method AppendItems(prefix: Text, items: seq<Json>, pretty: bool, depth: nat) returns (out: Text)
    ensures out == prefix + SerializeItems(items, pretty, depth)
    decreases items
  {
    hide Serialize, SerializeItems, Indent, ItemsFrom;
    out := prefix;
    AllItems(items, pretty, depth);
    for i := 0 to |items|
      invariant out + ItemsFrom(items, pretty, depth, i) == prefix + SerializeItems(items, pretty, depth)
    {
      ItemsFromStep(items, pretty, depth, i);
      ghost var start, more := out, ItemsFrom(items, pretty, depth, i + 1);
      var comma: Text := if i == 0 then [] else [','];
      out := out + comma;
      out := out + Indent(pretty, depth + 1);
      out := SerializeInto(out, items[i], pretty, depth + 1);
      FourPieces(start, comma, Indent(pretty, depth + 1), Serialize(items[i], pretty, depth + 1), more);
    }
    NoItems(items, pretty, depth);
    assert out + [] == out;
  }

  lemma AllItems(items: seq<Json>, pretty: bool, depth: nat)
    ensures ItemsFrom(items, pretty, depth, 0) == SerializeItems(items, pretty, depth)
  {
    assert items[0..] == items;
  }

  lemma NoItems(items: seq<Json>, pretty: bool, depth: nat)
    ensures ItemsFrom(items, pretty, depth, |items|) == []
  {
  }

  lemma FourPieces(a: Text, b: Text, c: Text, d: Text, e: Text)
    ensures a + (b + (c + (d + e))) == a + b + c + d + e
  {
  }

  function MembersFrom(members: seq<Member>, pretty: bool, depth: nat, i: nat): Text
    requires i <= |members|
  {
    if i == |members| then []
    else (if i == 0 then [] else [',']) + SerializeMembers(members[i..], pretty, depth)
  }

  lemma MembersFromStep(members: seq<Member>, pretty: bool, depth: nat, i: nat)
    requires i < |members|
    ensures MembersFrom(members, pretty, depth, i) ==
            (if i == 0 then [] else [',']) + (Indent(pretty, depth + 1) + ((Quoted(members[i].key) + Colon(pretty))
            + (Serialize(members[i].value, pretty, depth + 1) + MembersFrom(members, pretty, depth, i + 1))))
  {
    hide Serialize, Indent, Quoted, Colon;
    assert members[i..][1..] == members[i + 1..];
    Regroup(Quoted(members[i].key), Colon(pretty),
            Serialize(members[i].value, pretty, depth + 1) + MembersFrom(members, pretty, depth, i + 1));
  }

  lemma FivePieces(a: Text, b: Text, c: Text, d: Text, e: Text, f: Text)
    ensures a + (b + (c + (d + (e + f)))) == a + b + c + d + e + f
  {
  }

  method AppendMembers(prefix: Text, members: seq<Member>, pretty: bool, depth: nat) returns (out: Text)
    ensures out == prefix + SerializeMembers(members, pretty, depth)
    decreases members
  {
    hide Serialize, SerializeMembers, Indent, MembersFrom, Quoted, Colon;
    out := prefix;
    AllMembers(members, pretty, depth);
    for i := 0 to |members|
      invariant out + MembersFrom(members, pretty, depth, i) == prefix + SerializeMembers(members, pretty, depth)
    {
      MembersFromStep(members, pretty, depth, i);
      ghost var start, more := out, MembersFrom(members, pretty, depth, i + 1);
      var comma: Text := if i == 0 then [] else [','];
      out := out + comma;
      out := out + Indent(pretty, depth + 1);
      var key := EscapeJsonString(members[i].key);
      var heading := key + Colon(pretty);
      out := out + heading;
      out := SerializeInto(out, members[i].value, pretty, depth + 1);
      FivePieces(start, comma, Indent(pretty, depth + 1), heading,
                 Serialize(members[i].value, pretty, depth + 1), more);
    }
    NoMembers(members, pretty, depth);
    assert out + [] == out;
  }

  lemma AllMembers(members: seq<Member>, pretty: bool, depth: nat)
    ensures MembersFrom(members, pretty, depth, 0) == SerializeMembers(members, pretty, depth)
  {
    assert members[0..] == members;
  }

  lemma NoMembers(members: seq<Member>, pretty: bool, depth: nat)
    ensures MembersFrom(members, pretty, depth, |members|) == []
  {
  }

  // ------------------------------------------------------------------ Reader

  /** One member off the front of the text. */
  function ReadMember(s: Text): (r: Option<(Member, Text)>)
    ensures r.Some? ==> |r.value.1| < |s|
  {
    var t := SkipSpace(s);
    if t == [] || t[0] != '"' || ReadString(t[1..]).None? then None
    else
      var (key, afterKey) := ReadString(t[1..]).value;
      var u := SkipSpace(afterKey);
      if u == [] || u[0] != ':' || ReadValue(u[1..]).None? then None
      else Some((Member(key, ReadValue(u[1..]).value.0), ReadValue(u[1..]).value.1))
  }

  /** The member reader takes one member and looks at what comes behind it. */
  lemma MembersTurn(members: seq<Member>, s: Text)
    ensures ReadMember(s).None? ==> ReadMembers(members, s).None?
    ensures ReadMember(s).Some? ==>
              var (m, after) := ReadMember(s).value;
              var more, w := SetMember(members, m.key, m.value), SkipSpace(after);
              && (w == [] ==> ReadMembers(members, s).None?)
              && (w != [] && w[0] == ',' ==> ReadMembers(members, s) == ReadMembers(more, w[1..]))
              && (w != [] && w[0] == '}' ==> ReadMembers(members, s) == Some((Obj(more), w[1..])))
              && (w != [] && w[0] != ',' && w[0] != '}' ==> ReadMembers(members, s).None?)
  {
    hide ReadValue, ReadString, SkipSpace, SetMember;
  }

  /** A cursor over the text; every method reads from it and leaves it after what it read. */
  class Parser {
    const text: Text
    var position: nat

    constructor (text: Text)
      ensures this.text == text && position == 0
    {
      this.text := text;
      position := 0;
    }

    predicate Within()
      reads this
    {
      position <= |text|
    }

    function Rest(): Text
      requires Within()
      reads this
    {
      text[position..]
    }

    method SkipWhitespace()
      requires Within()
      modifies this
      ensures Within() && Rest() == SkipSpace(old(Rest())) && position >= old(position)
    {
      while position < |text| && IsSpace(text[position])
        invariant Within() && position >= old(position)
        invariant SkipSpace(Rest()) == SkipSpace(old(Rest()))
      {
        assert Rest()[1..] == text[position + 1..];
        position := position + 1;
      }
    }

    /** Skips space and consumes `mark` if that is what comes next. */
    method Expect(mark: ByteChar) returns (found: bool)
      requires Within()
      modifies this
      ensures Within() && position >= old(position)
      ensures var t := SkipSpace(old(Rest()));
        && found == (t != [] && t[0] == mark)
        && (found ==> Rest() == t[1..] && position > old(position))
    {
      SkipWhitespace();
      if position >= |text| || text[position] != mark {
        return false;
      }
      ghost var t := Rest();
      position := position + 1;
      assert t[1..] == Rest();
      return true;
    }

    /** The rest of a string literal, its opening quote already consumed. */
    method ParseStringBody() returns (ok: bool, out: Text)
      requires Within()
      modifies this
      ensures ok == ReadString(old(Rest())).Some?
      ensures ok ==> Within() && position > old(position) && ReadString(old(Rest())) == Some((out, Rest()))
    {
      hide HexCode, Utf8, SimpleEscape;
      out := [];
      PrependNothing(ReadString(Rest()));
      while position < |text|
        invariant Within() && position >= old(position)
        invariant Prepend(out, ReadString(Rest())) == ReadString(old(Rest()))
      {
        ghost var rest, sofar := Rest(), out;
        assert rest[1..] == text[position + 1..];
        var c := text[position];
        position := position + 1;
        if c == '"' {
          assert sofar + [] == sofar;
          return true, out;
        }
        if c == '\\' {
          if position >= |text| {
            return false, out;
          }
          assert rest[2..] == text[position + 1..];
          var escaped := text[position];
          assert escaped == rest[1];
          position := position + 1;
          if SimpleEscape(escaped).Some? {
            out := out + [SimpleEscape(escaped).value];
          } else if escaped == 'u' {
            if position + 4 > |text| {
              return false, out;
            }
            var code := HexCode(text[position..]);
            if code.None? {
              return false, out;
            }
            assert rest[6..] == text[position + 4..];
            position := position + 4;
            out := out + Utf8(code.value);
          } else {
            return false, out;
          }
        } else {
          out := out + [c];
        }
        PrependTwice(sofar, out, ReadString(Rest()));
      }
      return false, out;
    }

    method ParseNumber() returns (out: Option<Number>)
      requires Within() && position < |text|
      modifies this
      ensures Within() && position >= old(position)
      ensures var n := NumberRun(old(Rest()));
        && position == old(position) + n
        && out == if n == 0 then None else ReadNumber(old(Rest())[..n])
      ensures out.Some? ==> position > old(position)
    {
      hide ReadNumber;
      var start := position;
      while position < |text| && IsNumberChar(text[position])
        invariant Within() && position >= start
        invariant NumberRun(text[start..]) == position - start + NumberRun(Rest())
      {
        assert Rest()[1..] == text[position + 1..];
        position := position + 1;
      }
      if position == start {
        return None;
      }
      assert text[start..][..position - start] == text[start..position];
      return ReadNumber(text[start..position]);
    }

    method ParseValue() returns (out: Option<Json>)
      requires Within()
      modifies this
      ensures out.Some? == ReadValue(old(Rest())).Some?
      ensures out.Some? ==> Within() && position > old(position)
                            && ReadValue(old(Rest())) == Some((out.value, Rest()))
      decreases |text| - position, 1
    {
      hide ReadObject, ReadArray, ReadString, ReadNumber, SkipSpace, NumberRun;
      SkipWhitespace();
      if position >= |text| {
        return None;
      }
      ghost var t := Rest();
      var c := text[position];
      assert c == t[0];
      if c == '{' {
        position := position + 1;
        assert t[1..] == Rest();
        out := ParseObject();
      } else if c == '[' {
        position := position + 1;
        assert t[1..] == Rest();
        out := ParseArray();
      } else if c == '"' {
        position := position + 1;
        assert t[1..] == Rest();
        var ok, s := ParseStringBody();
        out := if ok then Some(Str(s)) else None;
      } else if c == 't' || c == 'f' {
        if "true" <= text[position..] {
          assert t[4..] == text[position + 4..];
          position := position + 4;
          out := Some(Bool(true));
        } else if "false" <= text[position..] {
          assert t[5..] == text[position + 5..];
          position := position + 5;
          out := Some(Bool(false));
        } else {
          out := None;
        }
      } else if c == 'n' {
        if "null" <= text[position..] {
          assert t[4..] == text[position + 4..];
          position := position + 4;
          out := Some(Null);
        } else {
          out := None;
        }
      } else {
        var number := ParseNumber();
        out := if number.Some? then Some(Num(number.value)) else None;
      }
    }

    /** A key, its colon and the value. */
    method ParseMember() returns (out: Option<Member>)
      requires Within()
      modifies this
      ensures out.Some? == ReadMember(old(Rest())).Some?
      ensures out.Some? ==> Within() && position > old(position)
                            && ReadMember(old(Rest())) == Some((out.value, Rest()))
      decreases |text| - position, 2
    {
      hide ReadValue, ReadString, SkipSpace;
      var quote := Expect('"');
      if !quote {
        return None;
      }
      var ok, key := ParseStringBody();
      if !ok {
        return None;
      }
      var colon := Expect(':');
      if !colon {
        return None;
      }
      var value := ParseValue();
      if value.None? {
        return None;
      }
      return Some(Member(key, value.value));
    }

    method ParseObject() returns (out: Option<Json>)
      requires Within()
      modifies this
      ensures out.Some? == ReadObject(old(Rest())).Some?
      ensures out.Some? ==> Within() && position > old(position)
                            && ReadObject(old(Rest())) == Some((out.value, Rest()))
      decreases |text| - position, 3
    {
      hide ReadMember, ReadMembers, SkipSpace, SetMember;
      SkipWhitespace();
      ghost var start := Rest();
      if position < |text| && text[position] == '}' {
        assert start[1..] == text[position + 1..];
        position := position + 1;
        return Some(Obj([]));
      }
      var members: seq<Member> := [];
      while true
        invariant Within() && position >= old(position)
        invariant ReadMembers([], start) == ReadMembers(members, Rest())
        decreases |text| - position
      {
        MembersTurn(members, Rest());
        var member := ParseMember();
        if member.None? {
          return None;
        }
        members := SetMember(members, member.value.key, member.value.value);
        SkipWhitespace();
        if position >= |text| {
          return None;
        }
        ghost var w := Rest();
        assert w[1..] == text[position + 1..];
        if text[position] == ',' {
          position := position + 1;
          continue;
        }
        if text[position] == '}' {
          position := position + 1;
          return Some(Obj(members));
        }
        return None;
      }
    }

    method ParseArray() returns (out: Option<Json>)
      requires Within()
      modifies this
      ensures out.Some? == ReadArray(old(Rest())).Some?
      ensures out.Some? ==> Within() && position > old(position)
                            && ReadArray(old(Rest())) == Some((out.value, Rest()))
      decreases |text| - position, 2
    {
      hide ReadValue, SkipSpace;
      SkipWhitespace();
      ghost var start := Rest();
      if position < |text| && text[position] == ']' {
        assert start[1..] == text[position + 1..];
        position := position + 1;
        return Some(Arr([]));
      }
      var items: seq<Json> := [];
      while true
        invariant Within() && position >= old(position)
        invariant ReadItems([], start) == ReadItems(items, Rest())
        decreases |text| - position
      {
        var value := ParseValue();
        if value.None? {
          return None;
        }
        ghost var before := items;
        items := items + [value.value];
        SkipWhitespace();
        if position >= |text| {
          return None;
        }
        ghost var w := Rest();
        assert w[1..] == text[position + 1..];
        if text[position] == ',' {
          position := position + 1;
          continue;
        }
        if text[position] == ']' {
          position := position + 1;
          return Some(Arr(items));
        }
        return None;
      }
    }

    /** A whole document; trailing garbage is an error. */
    method Parse() returns (out: Option<Json>)
      requires position == 0
      modifies this
      ensures out == ParseJson(text)
    {
      hide ReadValue, SkipSpace;
      assert Rest() == text;
      out := ParseValue();
      if out.Some? {
        SkipWhitespace();
        if position < |text| {
          out := None;
        }
      }
    }
  }

  lemma PrependNothing(r: Option<(Text, Text)>)
    ensures Prepend([], r) == r
  {
    if r.Some? {
      assert [] + r.value.0 == r.value.0;
    }
  }

  lemma PrependTwice(before: Text, after: Text, r: Option<(Text, Text)>)
    requires |before| <= |after| && before == after[..|before|]
    ensures Prepend(after, r) == Prepend(before, Prepend(after[|before|..], r))
  {
    if r.Some? {
      assert after + r.value.0 == before + (after[|before|..] + r.value.0);
    }
  }

  method ParseDocument(text: Text) returns (out: Option<Json>)
    ensures out == ParseJson(text)
  {
    var parser := new Parser(text);
    out := parser.Parse();
  }
}
