/**
 Writing a tree and reading it back, in either layout: the tree returns with its
 numbers as their text keeps them, or is refused if one of them cannot be read.
 */
module JsonRoundTrip {
  import opened Basics
  import opened Json
  import opened JsonNumbers

  ghost predicate DistinctKeys(members: seq<Member>) {
    forall i, j :: 0 <= i < j < |members| ==> members[i].key != members[j].key
  }

  /** What a JsonValue can be: an object has each key once. */
  ghost predicate Writable(v: Json) {
    match v
    case Arr(items) => forall i :: 0 <= i < |items| ==> Writable(items[i])
    case Obj(members) =>
      DistinctKeys(members) && forall i :: 0 <= i < |members| ==> Writable(members[i].value)
    case _ => true
  }

  // ------------------------------------------------------ The tree read back

  /** The tree with every number as the reader sees it. */
  function AsRead(v: Json): Json
    decreases v, 1
  {
    match v
    case Num(n) => Num(AsReadNumber(n))
    case Arr(items) => Arr(AsReadItems(items))
    case Obj(members) => Obj(AsReadMembers(members))
    case _ => v
  }

  function AsReadItems(items: seq<Json>): (r: seq<Json>)
    ensures |r| == |items| && forall i :: 0 <= i < |r| ==> r[i] == AsRead(items[i])
    decreases items, 0
  {
    if items == [] then [] else [AsRead(items[0])] + AsReadItems(items[1..])
  }

  function AsReadMembers(members: seq<Member>): (r: seq<Member>)
    ensures |r| == |members|
    ensures forall i :: 0 <= i < |r| ==> r[i] == Member(members[i].key, AsRead(members[i].value))
    decreases members, 0
  {
    if members == [] then []
    else [Member(members[0].key, AsRead(members[0].value))] + AsReadMembers(members[1..])
  }

  /** Every number in the tree is one the reader takes. */
  ghost predicate Readable(v: Json)
    decreases v, 1
  {
    match v
    case Num(n) => IsReadable(n)
    case Arr(items) => AllReadable(items)
    case Obj(members) => AllValuesReadable(members)
    case _ => true
  }

  ghost predicate AllReadable(items: seq<Json>)
    decreases items, 0
  {
    items == [] || (Readable(items[0]) && AllReadable(items[1..]))
  }

  ghost predicate AllValuesReadable(members: seq<Member>)
    decreases members, 0
  {
    members == [] || (Readable(members[0].value) && AllValuesReadable(members[1..]))
  }

  /** Every number in the tree is finite. */
  ghost predicate Finite(v: Json) {
    match v
    case Num(n) => IsFinite(n)
    case Arr(items) => forall i :: 0 <= i < |items| ==> Finite(items[i])
    case Obj(members) => forall i :: 0 <= i < |members| ==> Finite(members[i].value)
    case _ => true
  }

  /** Integers are below 2^53; doubles are not printed as integers and are nearest to a six-digit decimal. */
  ghost predicate Intact(v: Json)
    decreases v, 1
  {
    match v
    case Num(n) => KeepsForm(n)
    case Arr(items) => AllIntact(items)
    case Obj(members) => AllValuesIntact(members)
    case _ => true
  }

  ghost predicate AllIntact(items: seq<Json>)
    decreases items, 0
  {
    items == [] || (Intact(items[0]) && AllIntact(items[1..]))
  }

  ghost predicate AllValuesIntact(members: seq<Member>)
    decreases members, 0
  {
    members == [] || (Intact(members[0].value) && AllValuesIntact(members[1..]))
  }

  /** A tree is read back unchanged exactly when each of its numbers is small or of six digits. */
  lemma {:induction false} UnchangedIffIntact(v: Json)
    requires Finite(v)
    ensures Readable(v) && AsRead(v) == v <==> Intact(v)
    decreases v, 1
  {
    hide AsReadNumber, IsReadable, KeepsForm, IsFinite;
    match v
    case Num(n) => IntactIff(n);
    case Arr(items) => ItemsUnchangedIffIntact(items);
    case Obj(members) => MembersUnchangedIffIntact(members);
    case _ =>
  }

  lemma {:induction false} ItemsUnchangedIffIntact(items: seq<Json>)
    requires forall i :: 0 <= i < |items| ==> Finite(items[i])
    ensures AllReadable(items) && AsReadItems(items) == items <==> AllIntact(items)
    decreases items, 0
  {
    hide AsRead, Readable, Intact, Finite;
    if items != [] {
      UnchangedIffIntact(items[0]);
      ItemsUnchangedIffIntact(items[1..]);
      assert items == [items[0]] + items[1..];
      assert AsReadItems(items) == items ==> AsReadItems(items)[1..] == items[1..];
    }
  }

  lemma {:induction false} MembersUnchangedIffIntact(members: seq<Member>)
    requires forall i :: 0 <= i < |members| ==> Finite(members[i].value)
    ensures AllValuesReadable(members) && AsReadMembers(members) == members <==> AllValuesIntact(members)
    decreases members, 0
  {
    hide AsRead, Readable, Intact, Finite;
    if members != [] {
      UnchangedIffIntact(members[0].value);
      MembersUnchangedIffIntact(members[1..]);
      assert members == [members[0]] + members[1..];
      assert AsReadMembers(members) == members ==>
        AsReadMembers(members)[1..] == members[1..] && AsReadMembers(members)[0] == members[0];
    }
  }

  // ----------------------------------------------------------------- Pieces

  lemma {:induction false} SkipsSpaces(space: Text, s: Text)
    requires forall i :: 0 <= i < |space| ==> IsSpace(space[i])
    ensures SkipSpace(space + s) == SkipSpace(s)
  {
    if space == [] {
      assert space + s == s;
    } else {
      assert (space + s)[1..] == space[1..] + s;
      SkipsSpaces(space[1..], s);
    }
  }

  lemma IndentIsSpace(pretty: bool, depth: nat, s: Text)
    ensures SkipSpace(Indent(pretty, depth) + s) == SkipSpace(s)
    ensures ReadValue(Indent(pretty, depth) + s) == ReadValue(s)
  {
    hide ReadObject, ReadArray, ReadString, ReadNumber;
    SkipsSpaces(Indent(pretty, depth), s);
  }

  lemma ReadsEscaped(c: ByteChar, s: Text)
    ensures ReadString(Escaped(c) + s) == Prepend([c], ReadString(s))
  {
    hide HexCode, HexDigit, Utf8, ReadString;
    var e := Escaped(c);
    var t := e + s;
    if |e| == 1 {
      assert t[0] == c && t[1..] == s;
    } else if |e| == 2 {
      assert t[0] == '\\' && t[1] == e[1] && t[2..] == s;
    } else {
      assert t[0] == '\\' && t[1] == 'u' && t[6..] == s;
      HexDigitsReadBack(c as int / 16, c as int % 16, t[2..]);
      LowCode(c);
    }
    ReadStringTurn(t);
  }

  lemma ReadStringTurn(s: Text)
    requires s != [] && s[0] != '"'
    ensures s[0] != '\\' ==> ReadString(s) == Prepend([s[0]], ReadString(s[1..]))
    ensures s[0] == '\\' && |s| >= 2 && SimpleEscape(s[1]).Some? ==>
            ReadString(s) == Prepend([SimpleEscape(s[1]).value], ReadString(s[2..]))
    ensures s[0] == '\\' && |s| >= 6 && s[1] == 'u' && SimpleEscape(s[1]).None? && HexCode(s[2..]).Some? ==>
            ReadString(s) == Prepend(Utf8(HexCode(s[2..]).value), ReadString(s[6..]))
  {
    hide HexCode, Utf8, SimpleEscape, Prepend;
  }

  lemma LowCode(c: ByteChar)
    requires c as int < 0x80
    ensures Utf8(c as int) == [c]
  {
  }

  lemma HexDigitsReadBack(high: nat, low: nat, s: Text)
    requires high < 2 && low < 16 && |s| >= 4
    requires s[0] == '0' && s[1] == '0' && s[2] == HexDigit(high) && s[3] == HexDigit(low)
    ensures HexCode(s) == Some(high * 16 + low)
  {
  }

  lemma {:induction false} ReadsQuoted(text: Text, rest: Text)
    ensures ReadString(EscapeAll(text) + (['"'] + rest)) == Some((text, rest))
  {
    hide Escaped;
    if text == [] {
      assert [] + (['"'] + rest) == ['"'] + rest;
      assert (['"'] + rest)[1..] == rest;
    } else {
      var more := EscapeAll(text[1..]) + (['"'] + rest);
      assert EscapeAll(text) + (['"'] + rest) == Escaped(text[0]) + more;
      ReadsEscaped(text[0], more);
      ReadsQuoted(text[1..], rest);
      assert [text[0]] + text[1..] == text;
    }
  }

  /** Text after a number that does not carry it on. */
  predicate Ends(rest: Text) {
    rest == [] || !IsNumberChar(rest[0])
  }

  lemma NumberRunUnique(s: Text, n: nat)
    requires n <= |s| && (forall i :: 0 <= i < n ==> IsNumberChar(s[i])) && (n < |s| ==> !IsNumberChar(s[n]))
    ensures NumberRun(s) == n
  {
  }

  lemma ReadsNumber(n: Number, rest: Text)
    requires Ends(rest)
    ensures ReadValue(NumberText(n) + rest) == if IsReadable(n) then Some((Num(AsReadNumber(n)), rest)) else None
  {
    hide ReadNumber, AsReadNumber, IsReadable, NumberText, ReadObject, ReadArray, ReadString;
    NumberReadsBack(n);
    var token := NumberText(n);
    var s := token + rest;
    assert s[0] == token[0];
    assert SkipSpace(s) == s;
    NumberRunUnique(s, |token|);
    assert s[..|token|] == token && s[|token|..] == rest;
  }

  lemma ReadsWord(v: Json, rest: Text, pretty: bool, depth: nat)
    requires v.Null? || v.Bool?
    ensures ReadValue(Serialize(v, pretty, depth) + rest) == Some((v, rest))
  {
    var word := Serialize(v, pretty, depth);
    var s := word + rest;
    assert s[0] == word[0];
    assert SkipSpace(s) == s;
    assert s[..|word|] == word && s[|word|..] == rest;
    if v == Bool(false) {
      assert !("true" <= s);
    }
  }

  lemma {:induction false} SetAppends(members: seq<Member>, key: Text, value: Json)
    requires forall i :: 0 <= i < |members| ==> members[i].key != key
    ensures SetMember(members, key, value) == members + [Member(key, value)]
  {
    if members != [] {
      SetAppends(members[1..], key, value);
    }
  }

  // -------------------------------------------------------------- Round trip

  /** An opening mark hands over to its own reader. */
  lemma OpeningMarks(body: Text)
    ensures ReadValue(['['] + body) == ReadArray(body)
    ensures ReadValue(['{'] + body) == ReadObject(body)
    ensures ReadValue(['"'] + body) ==
            if ReadString(body).None? then None
            else Some((Str(ReadString(body).value.0), ReadString(body).value.1))
  {
    hide ReadArray, ReadObject, ReadString;
    assert (['['] + body)[1..] == body && (['{'] + body)[1..] == body && (['"'] + body)[1..] == body;
  }

  /** The reader gives back the tree that was written, or refuses it for a number it cannot read. */
  lemma {:induction false} ReadsSerialized(v: Json, pretty: bool, depth: nat, rest: Text)
    requires Writable(v) && Ends(rest)
    ensures ReadValue(Serialize(v, pretty, depth) + rest) == if Readable(v) then Some((AsRead(v), rest)) else None
    decreases v, 1
  {
    hide ReadValue, ReadArray, ReadObject, ReadString, EscapeAll, SerializeItems, SerializeMembers, Indent, NumberText,
         AsReadItems, AsReadMembers, AsReadNumber, IsReadable, AllReadable, AllValuesReadable;
    match v
    case Num(n) => ReadsNumber(n, rest);
    case Str(s) =>
      OpeningMarks(EscapeAll(s) + (['"'] + rest));
      Regroup(['"'], EscapeAll(s) + ['"'], rest);
      Regroup(EscapeAll(s), ['"'], rest);
      ReadsQuoted(s, rest);
    case Arr(items) =>
      var close := Indent(pretty, depth) + [']'];
      Regroup(['['], SerializeItems(items, pretty, depth) + close, rest);
      Regroup(SerializeItems(items, pretty, depth), close, rest);
      Regroup(Indent(pretty, depth), [']'], rest);
      assert "[]" + rest == ['['] + ([']'] + rest);
      OpeningMarks(ArrayBody(items, pretty, depth, rest));
      ReadsArray(items, pretty, depth, rest);
    case Obj(members) =>
      var close := Indent(pretty, depth) + ['}'];
      Regroup(['{'], SerializeMembers(members, pretty, depth) + close, rest);
      Regroup(SerializeMembers(members, pretty, depth), close, rest);
      Regroup(Indent(pretty, depth), ['}'], rest);
      assert "{}" + rest == ['{'] + (['}'] + rest);
      OpeningMarks(ObjectBody(members, pretty, depth, rest));
      ReadsObject(members, pretty, depth, rest);
    case _ => ReadsWord(v, rest, pretty, depth);
  }

  function ArrayBody(items: seq<Json>, pretty: bool, depth: nat, rest: Text): Text {
    if items == [] then [']'] + rest
    else SerializeItems(items, pretty, depth) + (Indent(pretty, depth) + ([']'] + rest))
  }

  function ObjectBody(members: seq<Member>, pretty: bool, depth: nat, rest: Text): Text {
    if members == [] then ['}'] + rest
    else SerializeMembers(members, pretty, depth) + (Indent(pretty, depth) + (['}'] + rest))
  }

  lemma SolidStart(v: Json, pretty: bool, depth: nat, more: Text)
    requires Writable(v)
    ensures var s := Serialize(v, pretty, depth) + more;
      s != [] && !IsSpace(s[0]) && s[0] != ']' && s[0] != '}' && SkipSpace(s) == s
  {
    if v.Num? {
      NumberReadsBack(v.n);
    }
    var text := Serialize(v, pretty, depth);
    assert text != [] && (text + more)[0] == text[0];
  }

  lemma Closing(pretty: bool, depth: nat, mark: ByteChar, rest: Text)
    requires mark == ']' || mark == '}'
    ensures var closing := Indent(pretty, depth) + ([mark] + rest);
      Ends(closing) && SkipSpace(closing) == [mark] + rest && ([mark] + rest)[1..] == rest
  {
    IndentIsSpace(pretty, depth, [mark] + rest);
  }

  lemma {:induction false} ReadsArray(items: seq<Json>, pretty: bool, depth: nat, rest: Text)
    requires forall i :: 0 <= i < |items| ==> Writable(items[i])
    ensures ReadArray(ArrayBody(items, pretty, depth, rest))
            == if AllReadable(items) then Some((Arr(AsReadItems(items)), rest)) else None
    decreases items, 2
  {
    hide ReadValue, Serialize, Indent, Readable;
    if items == [] {
      assert ([']'] + rest)[1..] == rest;
    } else {
      var closing := Indent(pretty, depth) + ([']'] + rest);
      var body := SerializeItems(items, pretty, depth) + closing;
      var first := FirstItem(items, pretty, depth, closing);
      SolidStart(items[0], pretty, depth + 1, first);
      IndentIsSpace(pretty, depth + 1, Serialize(items[0], pretty, depth + 1) + first);
      ReadsItems([], items, pretty, depth, rest);
      assert [] + AsReadItems(items) == AsReadItems(items);
    }
  }

  /** What follows the first item's own text. */
  function FirstItem(items: seq<Json>, pretty: bool, depth: nat, closing: Text): (more: Text)
    requires items != []
    ensures SerializeItems(items, pretty, depth) + closing
            == Indent(pretty, depth + 1) + (Serialize(items[0], pretty, depth + 1) + more)
    ensures more == ItemTail(items, pretty, depth) + closing
  {
    var item, tail := Serialize(items[0], pretty, depth + 1), ItemTail(items, pretty, depth);
    Regroup(item, tail, closing);
    Regroup(Indent(pretty, depth + 1), item + tail, closing);
    tail + closing
  }

  function ItemTail(items: seq<Json>, pretty: bool, depth: nat): (tail: Text)
    requires items != []
    ensures SerializeItems(items, pretty, depth)
            == Indent(pretty, depth + 1) + (Serialize(items[0], pretty, depth + 1) + tail)
  {
    if |items| == 1 then [] else [','] + SerializeItems(items[1..], pretty, depth)
  }

  /** One turn of the item reader. */
  lemma ItemTurn(done: seq<Json>, s: Text, item: Json, after: Text, w: Text)
    requires ReadValue(s) == Some((item, after)) && SkipSpace(after) == w && w != []
    ensures w[0] == ',' ==> ReadItems(done, s) == ReadItems(done + [item], w[1..])
    ensures w[0] == ']' ==> ReadItems(done, s) == Some((Arr(done + [item]), w[1..]))
  {
    hide ReadValue, SkipSpace;
  }

  lemma NoItemTurn(done: seq<Json>, s: Text)
    requires ReadValue(s).None?
    ensures ReadItems(done, s).None?
  {
    hide ReadValue;
  }

  lemma {:induction false} ReadsItems(done: seq<Json>, items: seq<Json>, pretty: bool, depth: nat, rest: Text)
    requires items != [] && forall i :: 0 <= i < |items| ==> Writable(items[i])
    ensures ReadItems(done, SerializeItems(items, pretty, depth) + (Indent(pretty, depth) + ([']'] + rest)))
            == if AllReadable(items) then Some((Arr(done + AsReadItems(items)), rest)) else None
    decreases items, 1
  {
    hide ReadValue, Serialize, SerializeItems, Indent, ReadItems, Readable, AsRead, Writable;
    var s := SerializeItems(items, pretty, depth) + (Indent(pretty, depth) + ([']'] + rest));
    var closing := Indent(pretty, depth) + ([']'] + rest);
    var more := FirstItem(items, pretty, depth, closing);
    Closing(pretty, depth, ']', rest);
    IndentIsSpace(pretty, depth + 1, Serialize(items[0], pretty, depth + 1) + more);
    if |items| == 1 {
      assert [] + closing == closing;
      ReadsSerialized(items[0], pretty, depth + 1, more);
      if !Readable(items[0]) {
        NoItemTurn(done, s);
        return;
      }
      ItemTurn(done, s, AsRead(items[0]), more, SkipSpace(more));
      assert done + [AsRead(items[0])] == done + AsReadItems(items);
    } else {
      var next := SerializeItems(items[1..], pretty, depth) + closing;
      Regroup([','], SerializeItems(items[1..], pretty, depth), closing);
      assert more[0] == ',' && more[1..] == next && SkipSpace(more) == more;
      ReadsSerialized(items[0], pretty, depth + 1, more);
      if !Readable(items[0]) {
        NoItemTurn(done, s);
        return;
      }
      ItemTurn(done, s, AsRead(items[0]), more, more);
      ReadsItems(done + [AsRead(items[0])], items[1..], pretty, depth, rest);
      assert done + [AsRead(items[0])] + AsReadItems(items[1..]) == done + AsReadItems(items);
    }
  }

  /** What follows the first member's key. */
  function FirstMember(members: seq<Member>, pretty: bool, depth: nat, closing: Text): (more: Text)
    requires members != []
    ensures SerializeMembers(members, pretty, depth) + closing ==
            Indent(pretty, depth + 1) + (['"'] + (EscapeAll(members[0].key) + (['"'] + (Colon(pretty)
            + (Serialize(members[0].value, pretty, depth + 1) + more)))))
    ensures more == MemberTail(members, pretty, depth) + closing
  {
    var key, value := EscapeAll(members[0].key), Serialize(members[0].value, pretty, depth + 1);
    var tail := MemberTail(members, pretty, depth);
    var more := tail + closing;
    Regroup(value, tail, closing);
    Regroup(Colon(pretty), value + tail, closing);
    Regroup(Quoted(members[0].key), Colon(pretty) + (value + tail), closing);
    Regroup(Indent(pretty, depth + 1), Quoted(members[0].key) + (Colon(pretty) + (value + tail)), closing);
    Regroup(['"'], key + ['"'], Colon(pretty) + (value + more));
    Regroup(key, ['"'], Colon(pretty) + (value + more));
    more
  }

  function MemberTail(members: seq<Member>, pretty: bool, depth: nat): (tail: Text)
    requires members != []
    ensures SerializeMembers(members, pretty, depth) ==
            Indent(pretty, depth + 1) + (Quoted(members[0].key) + (Colon(pretty)
            + (Serialize(members[0].value, pretty, depth + 1) + tail)))
  {
    if |members| == 1 then [] else [','] + SerializeMembers(members[1..], pretty, depth)
  }

  lemma {:induction false} ReadsObject(members: seq<Member>, pretty: bool, depth: nat, rest: Text)
    requires Writable(Obj(members))
    ensures ReadObject(ObjectBody(members, pretty, depth, rest))
            == if AllValuesReadable(members) then Some((Obj(AsReadMembers(members)), rest)) else None
    decreases members, 2
  {
    hide ReadValue, Serialize, SerializeMembers, ReadMembers, ReadString, Indent, EscapeAll, Colon, Readable;
    if members == [] {
      assert (['}'] + rest)[1..] == rest;
    } else {
      var closing := Indent(pretty, depth) + (['}'] + rest);
      var body := SerializeMembers(members, pretty, depth) + closing;
      var more := FirstMember(members, pretty, depth, closing);
      ReadsMembers([], members, pretty, depth, rest);
      SpaceBeforeMember([], body);
      IndentIsSpace(pretty, depth + 1, ['"'] + (EscapeAll(members[0].key) + (['"'] + (Colon(pretty)
        + (Serialize(members[0].value, pretty, depth + 1) + more)))));
      assert [] + members == members && [] + AsReadMembers(members) == AsReadMembers(members);
    }
  }

  lemma SpaceBeforeMember(done: seq<Member>, s: Text)
    ensures ReadMembers(done, SkipSpace(s)) == ReadMembers(done, s)
  {
    hide ReadValue, ReadString, SetMember;
    var t := SkipSpace(s);
    assert SkipSpace(t) == t;
  }

  /** The member reader once it has a key, and a value or not. */
  function AfterValue(done: seq<Member>, key: Text, r: Option<(Json, Text)>): Option<(Json, Text)> {
    if r.None? then None
    else
      var more, w := SetMember(done, key, r.value.0), SkipSpace(r.value.1);
      if w == [] then None
      else if w[0] == ',' then ReadMembers(more, w[1..])
      else if w[0] == '}' then Some((Obj(more), w[1..]))
      else None
  }

  /** One turn of the member reader. */
  lemma MemberTurn(done: seq<Member>, s: Text, t: Text, key: Text, afterKey: Text, u: Text)
    requires SkipSpace(s) == t && t != [] && t[0] == '"' && ReadString(t[1..]) == Some((key, afterKey))
    requires SkipSpace(afterKey) == u && u != [] && u[0] == ':'
    ensures ReadMembers(done, s) ==
            AfterValue(done, key, ReadValue(u[1..]))
  {
    hide ReadValue, ReadString, SkipSpace, SetMember;
  }

  lemma KeyIsNew(done: seq<Member>, members: seq<Member>)
    requires members != [] && DistinctKeys(done + members)
    ensures forall i :: 0 <= i < |done| ==> done[i].key != members[0].key
  {
    var all := done + members;
    assert forall i :: 0 <= i < |done| ==> all[i] == done[i];
    assert all[|done|] == members[0];
  }

  /** The reader takes one member as the writer lays it out. */
  lemma TakesMember(done: seq<Member>, m: Member, pretty: bool, depth: nat, more: Text)
    ensures ReadMembers(done, Indent(pretty, depth) + (['"'] + (EscapeAll(m.key) + (['"'] + (Colon(pretty)
                     + (Serialize(m.value, pretty, depth) + more)))))) ==
            AfterValue(done, m.key, ReadValue(Serialize(m.value, pretty, depth) + more))
  {
    hide ReadValue, Serialize, Indent, ReadString, EscapeAll, Colon, ReadMembers, AfterValue;
    var valueText := Serialize(m.value, pretty, depth) + more;
    var afterKey := Colon(pretty) + valueText;
    var keyText := EscapeAll(m.key) + (['"'] + afterKey);
    var t := ['"'] + keyText;
    IndentIsSpace(pretty, depth, t);
    assert t[1..] == keyText && SkipSpace(t) == t;
    ReadsQuoted(m.key, afterKey);
    ColonThenValue(pretty, valueText);
    MemberTurn(done, Indent(pretty, depth) + t, t, m.key, afterKey, afterKey);
  }

  lemma FirstAndOthers(members: seq<Member>)
    requires members != []
    ensures AllValuesReadable(members) <==> Readable(members[0].value) && AllValuesReadable(members[1..])
    ensures AsReadMembers(members)
            == [Member(members[0].key, AsRead(members[0].value))] + AsReadMembers(members[1..])
    ensures AllValuesReadable([]) && AsReadMembers([]) == []
  {
    hide Readable, AsRead;
  }

  /** Behind a value comes the closing brace. */
  lemma LastValue(done: seq<Member>, key: Text, read: Json, more: Text, rest: Text)
    requires SkipSpace(more) == ['}'] + rest
    ensures AfterValue(done, key, Some((read, more))) == Some((Obj(SetMember(done, key, read)), rest))
  {
    hide SkipSpace, ReadMembers, SetMember;
    assert (['}'] + rest)[1..] == rest;
  }

  /** Or a comma and the next member. */
  lemma ValueThenMore(done: seq<Member>, key: Text, read: Json, next: Text)
    ensures AfterValue(done, key, Some((read, [','] + next))) == ReadMembers(SetMember(done, key, read), next)
  {
    hide ReadMembers, SetMember;
    assert ([','] + next)[1..] == next;
  }

  lemma {:induction false} ReadsMembers(done: seq<Member>, members: seq<Member>, pretty: bool, depth: nat, rest: Text)
    requires members != [] && DistinctKeys(done + members)
    requires forall i :: 0 <= i < |members| ==> Writable(members[i].value)
    ensures ReadMembers(done, SerializeMembers(members, pretty, depth) + (Indent(pretty, depth) + (['}'] + rest)))
            == if AllValuesReadable(members) then Some((Obj(done + AsReadMembers(members)), rest)) else None
    decreases members, 1
  {
    hide ReadValue, Serialize, SerializeMembers, Indent, EscapeAll, Colon, ReadMembers, AsRead, Writable, DistinctKeys,
         SkipSpace, ReadString, Readable, SetMember, AllValuesReadable, AsReadMembers, AfterValue;
    var closing := Indent(pretty, depth) + (['}'] + rest);
    var more := FirstMember(members, pretty, depth, closing);
    Closing(pretty, depth, '}', rest);
    var m := members[0];
    var read := Member(m.key, AsRead(m.value));
    KeyIsNew(done, members);
    TakesMember(done, m, pretty, depth + 1, more);
    SetAppends(done, m.key, read.value);
    FirstAndOthers(members);
    NoValue(done, m.key);
    if |members| == 1 {
      assert [] + closing == closing && members[1..] == [];
      ReadsSerialized(m.value, pretty, depth + 1, more);
      LastValue(done, m.key, read.value, more, rest);
      assert AsReadMembers(members) == [read] + [] == [read];
    } else {
      var next := SerializeMembers(members[1..], pretty, depth) + closing;
      Regroup([','], SerializeMembers(members[1..], pretty, depth), closing);
      CommaFirst(next);
      ReadsSerialized(m.value, pretty, depth + 1, more);
      ValueThenMore(done, m.key, read.value, next);
      assert done + [m] + members[1..] == done + members;
      SameKeys(done, m, read.value, members[1..]);
      ReadsMembers(done + [read], members[1..], pretty, depth, rest);
      assert done + [read] + AsReadMembers(members[1..]) == done + AsReadMembers(members);
    }
  }

  lemma NoValue(done: seq<Member>, key: Text)
    ensures AfterValue(done, key, None).None?
  {
  }

  lemma CommaFirst(next: Text)
    ensures var more := [','] + next;
      more[1..] == next && SkipSpace(more) == more && Ends(more)
  {
  }

  lemma SameKeys(done: seq<Member>, m: Member, value: Json, more: seq<Member>)
    requires DistinctKeys(done + [m] + more)
    ensures DistinctKeys(done + [Member(m.key, value)] + more)
  {
    var a, b := done + [m] + more, done + [Member(m.key, value)] + more;
    assert forall i :: 0 <= i < |a| ==> b[i].key == a[i].key;
  }

  lemma ColonThenValue(pretty: bool, valueText: Text)
    ensures var s := Colon(pretty) + valueText;
      s != [] && SkipSpace(s) == s && s[0] == ':' && ReadValue(s[1..]) == ReadValue(valueText)
  {
    var s := Colon(pretty) + valueText;
    if pretty {
      assert s[1..] == [' '] + valueText;
      SkipsSpaces([' '], valueText);
    } else {
      assert s[1..] == valueText;
    }
    hide ReadObject, ReadArray, ReadString, ReadNumber;
  }

  /** parse_json after serialize, compact or pretty, gives every tree back with its numbers as read. */
  lemma ParsesSerialized(v: Json, pretty: bool)
    requires Writable(v)
    ensures ParseJson(Serialize(v, pretty, 0)) == if Readable(v) then Some(AsRead(v)) else None
  {
    hide AsRead, Readable;
    ReadsSerialized(v, pretty, 0, []);
    assert Serialize(v, pretty, 0) + [] == Serialize(v, pretty, 0);
  }

  /** The round trip is the identity exactly on trees whose integers stay below 2^53 and doubles lose no digit. */
  lemma RoundTripIffIntact(v: Json, pretty: bool)
    requires Writable(v) && Finite(v)
    ensures ParseJson(Serialize(v, pretty, 0)) == Some(v) <==> Intact(v)
  {
    hide AsRead, Intact, Writable, ParseJson, Serialize, Readable, Finite;
    ParsesSerialized(v, pretty);
    UnchangedIffIntact(v);
  }
}
