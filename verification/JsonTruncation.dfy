/**
 What the JSON reader does with text that was cut off: a value it has read is
 not affected by what follows, so an object cut anywhere is refused; and compact
 text holds no line break to cut at.
 */
module JsonTruncation {
  import opened Basics
  import opened Json
  import opened JsonNumbers
  import opened JsonRoundTrip

  lemma {:induction false} SpaceExtends(s: Text, x: Text)
    requires SkipSpace(s) != []
    ensures SkipSpace(s + x) == SkipSpace(s) + x
  {
    assert (s + x)[0] == s[0] && (s + x)[1..] == s[1..] + x;
    if IsSpace(s[0]) {
      SpaceExtends(s[1..], x);
    }
  }

  lemma {:induction false} StringExtends(s: Text, x: Text)
    requires ReadString(s).Some?
    ensures ReadString(s + x) == Some((ReadString(s).value.0, ReadString(s).value.1 + x))
    decreases |s|
  {
    hide HexCode, Utf8, SimpleEscape;
    var t := s + x;
    assert t[0] == s[0] && t[1..] == s[1..] + x;
    if s[0] == '\\' {
      assert t[1] == s[1] && t[2..] == s[2..] + x;
      if SimpleEscape(s[1]).Some? {
        StringExtends(s[2..], x);
      } else {
        SameHexCode(s[2..], x);
        assert t[6..] == s[6..] + x;
        StringExtends(s[6..], x);
      }
    } else if s[0] != '"' {
      StringExtends(s[1..], x);
    }
  }

  lemma SameHexCode(s: Text, x: Text)
    requires |s| >= 4
    ensures HexCode(s + x) == HexCode(s)
  {
    hide HexValue;
    assert (s + x)[0] == s[0] && (s + x)[1] == s[1] && (s + x)[2] == s[2] && (s + x)[3] == s[3];
  }

  lemma NumberRunExtends(t: Text, x: Text)
    requires NumberRun(t) < |t|
    ensures NumberRun(t + x) == NumberRun(t)
  {
    NumberRunUnique(t + x, NumberRun(t));
  }

  lemma LeadingSpaceIsInvisible(s: Text)
    ensures ReadValue(s) == ReadValue(SkipSpace(s))
  {
    hide ReadObject, ReadArray, ReadString, ReadNumber, NumberRun;
    var t := SkipSpace(s);
    assert SkipSpace(t) == t;
  }

  /**
   The reader does not look back: what it has read stays read when more text
   follows, unless that was a number running up to the very end.
   */
  lemma {:induction false} ValueExtends(s: Text, x: Text)
    requires ReadValue(s).Some?
    requires ReadValue(s).value.1 != [] || !ReadValue(s).value.0.Num?
    ensures ReadValue(s + x) == Some((ReadValue(s).value.0, ReadValue(s).value.1 + x))
    decreases |s|, 1
  {
    hide *;
    var t := SkipSpace(s);
    NothingIsNoValue();
    LeadingSpaceIsInvisible(s);
    SpaceExtends(s, x);
    LeadingSpaceIsInvisible(s + x);
    if t[0] == '{' {
      OpeningMarks(t[1..]);
      OpeningMarks(t[1..] + x);
      assert t == ['{'] + t[1..] && t + x == ['{'] + (t[1..] + x);
      ObjectExtends(t[1..], x);
    } else if t[0] == '[' {
      OpeningMarks(t[1..]);
      OpeningMarks(t[1..] + x);
      assert t == ['['] + t[1..] && t + x == ['['] + (t[1..] + x);
      ArrayExtends(t[1..], x);
    } else if t[0] == '"' {
      OpeningMarks(t[1..]);
      OpeningMarks(t[1..] + x);
      assert t == ['"'] + t[1..] && t + x == ['"'] + (t[1..] + x);
      StringExtends(t[1..], x);
    } else {
      LeafExtends(t, x);
    }
  }

  lemma NothingIsNoValue()
    ensures ReadValue([]).None?
  {
  }

  lemma LeafExtends(t: Text, x: Text)
    requires t != [] && !IsSpace(t[0]) && t[0] != '{' && t[0] != '[' && t[0] != '"'
    requires ReadValue(t).Some?
    requires ReadValue(t).value.1 != [] || !ReadValue(t).value.0.Num?
    ensures ReadValue(t + x) == Some((ReadValue(t).value.0, ReadValue(t).value.1 + x))
  {
    hide *;
    assert (t + x)[0] == t[0];
    if t[0] == 't' || t[0] == 'f' || t[0] == 'n' {
      WordValue(t);
      WordValue(t + x);
      WordExtends(t, x);
    } else {
      NumberValue(t);
      NumberValue(t + x);
      NumberRunExtends(t, x);
      var n := NumberRun(t);
      assert (t + x)[..n] == t[..n] && (t + x)[n..] == t[n..] + x;
    }
  }

  lemma WordValue(t: Text)
    requires t != [] && (t[0] == 't' || t[0] == 'f' || t[0] == 'n')
    ensures ReadValue(t) ==
            if "true" <= t then Some((Bool(true), t[4..]))
            else if "false" <= t then Some((Bool(false), t[5..]))
            else if "null" <= t then Some((Null, t[4..]))
            else None
  {
    assert SkipSpace(t) == t;
    hide ReadObject, ReadArray, ReadString, ReadNumber, SkipSpace, NumberRun;
  }

  lemma NumberValue(t: Text)
    requires t != [] && !IsSpace(t[0]) && t[0] != '{' && t[0] != '[' && t[0] != '"'
    requires t[0] != 't' && t[0] != 'f' && t[0] != 'n'
    ensures var n := NumberRun(t);
      ReadValue(t) ==
      if n == 0 || ReadNumber(t[..n]).None? then None
      else Some((Num(ReadNumber(t[..n]).value), t[n..]))
  {
    assert SkipSpace(t) == t;
    hide ReadObject, ReadArray, ReadString, ReadNumber, SkipSpace, NumberRun;
  }

  lemma WordExtends(t: Text, x: Text)
    requires t != [] && (t[0] == 't' || t[0] == 'f' || t[0] == 'n')
    requires "true" <= t || "false" <= t || "null" <= t
    ensures "true" <= t + x <==> "true" <= t
    ensures "false" <= t + x <==> "false" <= t
    ensures "null" <= t + x <==> "null" <= t
    ensures "true" <= t || "null" <= t ==> (t + x)[4..] == t[4..] + x
    ensures "false" <= t ==> (t + x)[5..] == t[5..] + x
  {
    assert (t + x)[0] == t[0];
  }

  lemma {:induction false} ObjectExtends(s: Text, x: Text)
    requires ReadObject(s).Some?
    ensures ReadObject(s + x) == Some((ReadObject(s).value.0, ReadObject(s).value.1 + x))
    decreases |s|, 1
  {
    var t := SkipSpace(s);
    SpaceExtends(s, x);
    assert (t + x)[0] == t[0] && (t + x)[1..] == t[1..] + x;
    if t[0] != '}' {
      MembersExtend([], t, x);
    }
    hide SkipSpace, ReadMembers;
  }

  lemma {:induction false} MembersExtend(members: seq<Member>, s: Text, x: Text)
    requires ReadMembers(members, s).Some?
    ensures ReadMembers(members, s + x)
            == Some((ReadMembers(members, s).value.0, ReadMembers(members, s).value.1 + x))
    decreases |s|, 0
  {
    hide ReadValue, ReadString, SkipSpace, SetMember;
    var t := SkipSpace(s);
    SpaceExtends(s, x);
    assert (t + x)[0] == t[0] && (t + x)[1..] == t[1..] + x;
    StringExtends(t[1..], x);
    var (key, afterKey) := ReadString(t[1..]).value;
    var u := SkipSpace(afterKey);
    SpaceExtends(afterKey, x);
    assert (u + x)[0] == u[0] && (u + x)[1..] == u[1..] + x;
    var (value, afterValue) := ReadValue(u[1..]).value;
    var w := SkipSpace(afterValue);
    NothingIsSpace();
    ValueExtends(u[1..], x);
    SpaceExtends(afterValue, x);
    assert (w + x)[0] == w[0] && (w + x)[1..] == w[1..] + x;
    if w[0] == ',' {
      MembersExtend(SetMember(members, key, value), w[1..], x);
    }
  }

  lemma NothingIsSpace()
    ensures SkipSpace([]) == []
  {
  }

  lemma NothingIsNoItem()
    ensures ReadItems([], []).None?
  {
    NothingIsSpace();
  }

  lemma {:induction false} ArrayExtends(s: Text, x: Text)
    requires ReadArray(s).Some?
    ensures ReadArray(s + x) == Some((ReadArray(s).value.0, ReadArray(s).value.1 + x))
    decreases |s|, 3
  {
    var t := SkipSpace(s);
    NothingIsNoItem();
    SpaceExtends(s, x);
    assert (t + x)[0] == t[0] && (t + x)[1..] == t[1..] + x;
    if t[0] != ']' {
      ItemsExtend([], t, x);
    }
    hide SkipSpace, ReadItems;
  }

  lemma {:induction false} ItemsExtend(items: seq<Json>, s: Text, x: Text)
    requires ReadItems(items, s).Some?
    ensures ReadItems(items, s + x) == Some((ReadItems(items, s).value.0, ReadItems(items, s).value.1 + x))
    decreases |s|, 2
  {
    hide ReadValue, SkipSpace;
    var (value, rest) := ReadValue(s).value;
    var w := SkipSpace(rest);
    NothingIsSpace();
    ValueExtends(s, x);
    SpaceExtends(rest, x);
    assert (w + x)[0] == w[0] && (w + x)[1..] == w[1..] + x;
    if w[0] == ',' {
      ItemsExtend(items + [value], w[1..], x);
    }
  }

  /** An object cut off anywhere, even by one character, does not parse. */
  lemma CutObjectIsRefused(v: Json, pretty: bool, n: nat)
    requires v.Obj? && Writable(v) && n < |Serialize(v, pretty, 0)|
    ensures ParseJson(Serialize(v, pretty, 0)[..n]).None?
  {
    var text := Serialize(v, pretty, 0);
    var cut, x := text[..n], text[n..];
    assert cut + x == text;
    hide Readable, AsRead;
    ReadsSerialized(v, pretty, 0, []);
    assert text + [] == text;
    if ReadValue(cut).Some? {
      assert cut[0] == '{' && SkipSpace(cut) == cut;
      hide ReadObject, Serialize;
      assert ReadValue(cut).value.0.Obj?;
      ValueExtends(cut, x);
    }
  }

  // --------------------------------------------------------- No line breaks

  predicate OneLine(s: Text) {
    forall i :: 0 <= i < |s| ==> s[i] != '\n'
  }

  lemma {:induction false} EscapedIsOneLine(s: Text)
    ensures OneLine(EscapeAll(s))
  {
    if s != [] {
      EscapedIsOneLine(s[1..]);
    }
  }

  lemma QuotedIsOneLine(s: Text)
    ensures OneLine(Quoted(s))
  {
    EscapedIsOneLine(s);
  }

  /** Compact text of any tree is a single line. */
  lemma {:induction false} CompactIsOneLine(v: Json, depth: nat)
    requires Writable(v)
    ensures OneLine(Serialize(v, false, depth))
    decreases v, 1
  {
    match v
    case Num(n) => NumberReadsBack(n);
    case Str(s) => QuotedIsOneLine(s);
    case Arr(items) => ItemsAreOneLine(items, depth);
    case Obj(members) => MembersAreOneLine(members, depth);
    case _ =>
  }

  lemma {:induction false} ItemsAreOneLine(items: seq<Json>, depth: nat)
    requires forall i :: 0 <= i < |items| ==> Writable(items[i])
    ensures OneLine(SerializeItems(items, false, depth))
    decreases items, 0
  {
    hide Serialize;
    if items != [] {
      CompactIsOneLine(items[0], depth + 1);
      if |items| > 1 {
        ItemsAreOneLine(items[1..], depth);
      }
    }
  }

  lemma {:induction false} MembersAreOneLine(members: seq<Member>, depth: nat)
    requires forall i :: 0 <= i < |members| ==> Writable(members[i].value)
    ensures OneLine(SerializeMembers(members, false, depth))
    decreases members, 0
  {
    hide Serialize, Quoted;
    if members != [] {
      QuotedIsOneLine(members[0].key);
      CompactIsOneLine(members[0].value, depth + 1);
      if |members| > 1 {
        MembersAreOneLine(members[1..], depth);
      }
    }
  }
}
