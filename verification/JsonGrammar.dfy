/**
 The documents the JSON reader takes (src/metrics/json_writer.cpp, `parse_value` and
 what it calls), as a grammar of spellings: the reader accepts exactly these, and
 reads exactly what they mean.
 */
module JsonGrammar {
  import opened Basics
  import opened Json
  import opened JsonNumbers
  import opened JsonRoundTrip
  import opened JsonStrings
  import opened JsonTruncation

  /** How a value is spelled out, with the space in front of each of its parts. */
  datatype Tree =
    | WordTree(space: Text, word: Json)  // null, true, false
    | NumberTree(space: Text, token: Text)
    | StringTree(space: Text, literal: Literal)
    | EmptyArray(space: Text, inner: Text)
    | EmptyObject(space: Text, inner: Text)
    | ArrayTree(space: Text, items: Items)
    | ObjectTree(space: Text, entries: Entries)

  datatype Items = Items(first: Tree, behind: Text, others: Option<Items>)

  datatype Entries =
    Entries(before: Text, key: Literal, middle: Text, value: Tree, behind: Text, others: Option<Entries>)

  predicate AllSpace(t: Text) {
    forall i :: 0 <= i < |t| ==> t[i] == ' ' || t[i] == '\t' || t[i] == '\n' || t[i] == '\r'
  }

  predicate IsToken(token: Text) {
    token != [] && (forall i :: 0 <= i < |token| ==> IsNumberChar(token[i])) && ReadNumber(token).Some?
  }

  ghost predicate IsTree(t: Tree) {
    && AllSpace(t.space)
    && match t
       case WordTree(_, word) => word.Null? || word.Bool?
       case NumberTree(_, token) => IsToken(token)
       case StringTree(_, literal) => IsLiteral(literal)
       case EmptyArray(_, inner) => AllSpace(inner)
       case EmptyObject(_, inner) => AllSpace(inner)
       case ArrayTree(_, items) => AreItems(items)
       case ObjectTree(_, entries) => AreEntries(entries)
  }

  ghost predicate AreItems(items: Items) {
    IsTree(items.first) && AllSpace(items.behind) && (items.others.Some? ==> AreItems(items.others.value))
  }

  ghost predicate AreEntries(e: Entries) {
    && AllSpace(e.before) && IsLiteral(e.key) && AllSpace(e.middle) && IsTree(e.value) && AllSpace(e.behind)
    && (e.others.Some? ==> AreEntries(e.others.value))
  }

  function WordText(v: Json): Text {
    match v
    case Bool(b) => if b then "true" else "false"
    case _ => "null"
  }

  /** What is written, closing brackets included. */
  function TreeText(t: Tree): Text {
    t.space +
    match t
    case WordTree(_, word) => WordText(word)
    case NumberTree(_, token) => token
    case StringTree(_, literal) => ['"'] + (Spelling(literal) + ['"'])
    case EmptyArray(_, inner) => ['['] + (inner + [']'])
    case EmptyObject(_, inner) => ['{'] + (inner + ['}'])
    case ArrayTree(_, items) => ['['] + ItemsText(items)
    case ObjectTree(_, entries) => ['{'] + EntriesText(entries)
  }

  function ItemsText(items: Items): Text {
    TreeText(items.first) + (items.behind +
      match items.others
      case None => [']']
      case Some(others) => [','] + ItemsText(others))
  }

  function EntriesText(e: Entries): Text {
    e.before + (['"'] + (Spelling(e.key) + (['"'] + (e.middle + ([':'] + (TreeText(e.value) + (e.behind +
      match e.others
      case None => ['}']
      case Some(others) => [','] + EntriesText(others))))))))
  }

  /** What it means; a key that comes again replaces its value where it first stood. */
  function Meaning(t: Tree): Json {
    match t
    case WordTree(_, word) => word
    case NumberTree(_, token) => if ReadNumber(token).Some? then Num(ReadNumber(token).value) else Null
    case StringTree(_, literal) => Str(Content(literal))
    case EmptyArray(_, _) => Arr([])
    case EmptyObject(_, _) => Obj([])
    case ArrayTree(_, items) => Arr(ItemsMeaning([], items))
    case ObjectTree(_, entries) => Obj(EntriesMeaning([], entries))
  }

  function ItemsMeaning(done: seq<Json>, items: Items): seq<Json>
    decreases items
  {
    var all := done + [Meaning(items.first)];
    match items.others
    case None => all
    case Some(others) => ItemsMeaning(all, others)
  }

  function EntriesMeaning(done: seq<Member>, e: Entries): seq<Member>
    decreases e
  {
    var all := SetMember(done, Content(e.key), Meaning(e.value));
    match e.others
    case None => all
    case Some(others) => EntriesMeaning(all, others)
  }

  // ---------------------------------------------------------------- Spaces

  lemma SpaceSkipped(space: Text, s: Text)
    requires AllSpace(space)
    ensures SkipSpace(space + s) == SkipSpace(s)
  {
    SkipsSpaces(space, s);
  }

  lemma {:induction false} SpaceInFront(s: Text) returns (space: Text)
    ensures AllSpace(space) && s == space + SkipSpace(s)
  {
    if s != [] && IsSpace(s[0]) {
      var more := SpaceInFront(s[1..]);
      space := [s[0]] + more;
      assert s == [s[0]] + s[1..];
    } else {
      space := [];
    }
  }

  lemma ValueBehindSpace(space: Text, s: Text)
    requires AllSpace(space)
    ensures ReadValue(space + s) == ReadValue(s)
  {
    hide ReadValue, SkipSpace;
    LeadingSpaceIsInvisible(space + s);
    LeadingSpaceIsInvisible(s);
    SpaceSkipped(space, s);
  }

  /** No value begins with a closing bracket or a comma. */
  lemma MarkIsNoValue(s: Text)
    requires ReadValue(s).Some?
    ensures SkipSpace(s) != [] && SkipSpace(s)[0] != ']' && SkipSpace(s)[0] != '}' && SkipSpace(s)[0] != ','
  {
    LeadingSpaceIsInvisible(s);
    var t := SkipSpace(s);
    hide ReadValue;
    if t == [] {
      NothingIsNoValue();
    } else if t[0] == ']' || t[0] == '}' || t[0] == ',' {
      NumberValue(t);
    }
  }

  /** A closing mark behind some space is what the reader sees next, and ends a number. */
  lemma MarkBehindSpace(behind: Text, mark: ByteChar, rest: Text)
    requires AllSpace(behind) && mark in {']', '}', ',', ':', '"'}
    ensures SkipSpace(behind + ([mark] + rest)) == [mark] + rest
    ensures Ends(behind + ([mark] + rest))
  {
    SpaceSkipped(behind, [mark] + rest);
    assert SkipSpace([mark] + rest) == [mark] + rest;
    if behind == [] {
      assert (behind + ([mark] + rest))[0] == mark;
    } else {
      assert (behind + ([mark] + rest))[0] == behind[0];
    }
  }

  // ------------------------------------------------- Every spelling is read

  lemma LeafReads(t: Tree, rest: Text)
    requires IsTree(t) && (t.WordTree? || t.NumberTree? || t.StringTree?)
    requires t.NumberTree? ==> Ends(rest)
    ensures ReadValue(TreeText(t) + rest) == Some((Meaning(t), rest))
  {
    hide ReadValue, ReadString, ReadNumber, SkipSpace, NumberRun, IsLiteral, Spelling, Content;
    match t
    case WordTree(space, word) =>
      ValueBehindSpace(space, WordText(word) + rest);
      assert TreeText(t) + rest == space + (WordText(word) + rest);
      assert WordText(word) == Serialize(word, false, 0);
      ReadsWord(word, rest, false, 0);
    case NumberTree(space, token) =>
      ValueBehindSpace(space, token + rest);
      assert TreeText(t) + rest == space + (token + rest);
      var s := token + rest;
      assert s[0] == token[0];
      NumberRunUnique(s, |token|);
      NumberValue(s);
      assert s[..|token|] == token && s[|token|..] == rest;
    case StringTree(space, literal) =>
      var body := Spelling(literal) + (['"'] + rest);
      ValueBehindSpace(space, ['"'] + body);
      assert TreeText(t) + rest == space + (['"'] + body);
      OpeningMarks(body);
      LiteralReads(literal, rest);
  }

  lemma EmptyReads(space: Text, inner: Text, rest: Text)
    requires AllSpace(space) && AllSpace(inner)
    ensures ReadValue(TreeText(EmptyArray(space, inner)) + rest) == Some((Arr([]), rest))
    ensures ReadValue(TreeText(EmptyObject(space, inner)) + rest) == Some((Obj([]), rest))
  {
    hide ReadValue, SkipSpace, ReadItems, ReadMembers;
    var list, table := inner + ([']'] + rest), inner + (['}'] + rest);
    assert TreeText(EmptyArray(space, inner)) + rest == space + (['['] + list);
    assert TreeText(EmptyObject(space, inner)) + rest == space + (['{'] + table);
    ValueBehindSpace(space, ['['] + list);
    ValueBehindSpace(space, ['{'] + table);
    OpeningMarks(list);
    OpeningMarks(table);
    MarkBehindSpace(inner, ']', rest);
    MarkBehindSpace(inner, '}', rest);
    assert ([']'] + rest)[1..] == rest && (['}'] + rest)[1..] == rest;
  }

  /** A value in front and not a closing bracket: the array reader goes to its items. */
  lemma ArrayHasItems(s: Text)
    requires ReadValue(s).Some?
    ensures ReadArray(s) == ReadItems([], s)
  {
    MarkIsNoValue(s);
    LeadingSpaceIsInvisible(s);
    hide ReadValue, SkipSpace;
  }

  lemma ObjectHasMembers(s: Text)
    requires SkipSpace(s) != [] && SkipSpace(s)[0] == '"'
    ensures ReadObject(s) == ReadMembers([], s)
  {
    SpaceBeforeMember([], s);
    hide ReadMembers, SkipSpace;
  }

  lemma {:induction false} TreeReads(t: Tree, rest: Text)
    requires IsTree(t) && (t.NumberTree? ==> Ends(rest))
    ensures ReadValue(TreeText(t) + rest) == Some((Meaning(t), rest))
    decreases t
  {
    hide ReadValue, ReadArray, ReadObject, ReadItems, ReadMembers, SkipSpace, ItemsText, EntriesText;
    match t
    case EmptyArray(space, inner) => EmptyReads(space, inner, rest);
    case EmptyObject(space, inner) => EmptyReads(space, inner, rest);
    case ArrayTree(space, items) =>
      var body := ItemsText(items) + rest;
      assert TreeText(t) + rest == space + (['['] + body);
      ValueBehindSpace(space, ['['] + body);
      OpeningMarks(body);
      ItemsRead([], items, rest);
    case ObjectTree(space, entries) =>
      var body := EntriesText(entries) + rest;
      assert TreeText(t) + rest == space + (['{'] + body);
      ValueBehindSpace(space, ['{'] + body);
      OpeningMarks(body);
      EntriesRead([], entries, rest);
    case _ => LeafReads(t, rest);
  }

  lemma {:induction false} ItemsRead(done: seq<Json>, items: Items, rest: Text)
    requires AreItems(items)
    ensures ReadItems(done, ItemsText(items) + rest) == Some((Arr(ItemsMeaning(done, items)), rest))
    ensures ReadArray(ItemsText(items) + rest) == ReadItems([], ItemsText(items) + rest)
    decreases items
  {
    hide ReadValue, ReadArray, ReadItems, SkipSpace, TreeText, Meaning, AllSpace;
    var more := if items.others.None? then rest else ItemsText(items.others.value) + rest;
    var mark := if items.others.None? then ']' else ',';
    var after := items.behind + ([mark] + more);
    var s := ItemsText(items) + rest;
    assert s == TreeText(items.first) + after;
    MarkBehindSpace(items.behind, mark, more);
    TreeReads(items.first, after);
    ArrayHasItems(s);
    ItemTurn(done, s, Meaning(items.first), after, [mark] + more);
    assert ([mark] + more)[1..] == more;
    if items.others.Some? {
      ItemsRead(done + [Meaning(items.first)], items.others.value, rest);
    }
  }

  /** One entry in front of `more`, its value readable there. */
  lemma EntryTurn(done: seq<Member>, e: Entries, rest: Text, more: Text, mark: ByteChar)
    requires AllSpace(e.before) && IsLiteral(e.key) && AllSpace(e.middle) && AllSpace(e.behind)
    requires more == if e.others.None? then rest else EntriesText(e.others.value) + rest
    requires mark == if e.others.None? then '}' else ','
    requires var afterValue := e.behind + ([mark] + more);
      ReadValue(TreeText(e.value) + afterValue) == Some((Meaning(e.value), afterValue))
    ensures var s, all := EntriesText(e) + rest, SetMember(done, Content(e.key), Meaning(e.value));
      && ReadMembers(done, s) == (if mark == ',' then ReadMembers(all, more) else Some((Obj(all), more)))
      && ReadObject(s) == ReadMembers([], s)
  {
    hide ReadValue, ReadObject, ReadMembers, SkipSpace, TreeText, EntriesText, Meaning, AllSpace, ReadString, SetMember,
         IsLiteral, Spelling, Content;
    var afterValue := e.behind + ([mark] + more);
    var valueText := TreeText(e.value) + afterValue;
    var afterKey := e.middle + ([':'] + valueText);
    var keyText := Spelling(e.key) + (['"'] + afterKey);
    var s := EntriesText(e) + rest;
    EntriesParts(e, rest, more, mark);
    MarkBehindSpace(e.before, '"', keyText);
    assert (['"'] + keyText)[1..] == keyText && ([':'] + valueText)[1..] == valueText && ([mark] + more)[1..] == more;
    LiteralReads(e.key, afterKey);
    MarkBehindSpace(e.middle, ':', valueText);
    MarkBehindSpace(e.behind, mark, more);
    ObjectHasMembers(s);
    MemberTurn(done, s, ['"'] + keyText, Content(e.key), afterKey, [':'] + valueText);
  }

  lemma {:induction false} EntriesRead(done: seq<Member>, e: Entries, rest: Text)
    requires AreEntries(e)
    ensures ReadMembers(done, EntriesText(e) + rest) == Some((Obj(EntriesMeaning(done, e)), rest))
    ensures ReadObject(EntriesText(e) + rest) == ReadMembers([], EntriesText(e) + rest)
    decreases e
  {
    hide ReadValue, ReadObject, ReadMembers, TreeText, EntriesText, Meaning, AllSpace, SetMember, IsLiteral, Content;
    var more := if e.others.None? then rest else EntriesText(e.others.value) + rest;
    var mark := if e.others.None? then '}' else ',';
    MarkBehindSpace(e.behind, mark, more);
    TreeReads(e.value, e.behind + ([mark] + more));
    EntryTurn(done, e, rest, more, mark);
    if e.others.Some? {
      EntriesRead(SetMember(done, Content(e.key), Meaning(e.value)), e.others.value, rest);
    }
  }

  lemma FourInFront(a: Text, b: Text, c: Text, d: Text, x: Text, rest: Text)
    ensures a + (b + (c + (d + x))) + rest == a + (b + (c + (d + (x + rest))))
  {
  }

  lemma EntriesParts(e: Entries, rest: Text, more: Text, mark: ByteChar)
    requires more == if e.others.None? then rest else EntriesText(e.others.value) + rest
    requires mark == if e.others.None? then '}' else ','
    ensures EntriesText(e) + rest ==
            e.before + (['"'] + (Spelling(e.key) + (['"'] + (e.middle + ([':'] + (TreeText(e.value) + (e.behind + ([mark] + more))))))))
  {
    var last := match e.others
      case None => ['}']
      case Some(others) => [','] + EntriesText(others);
    assert last + rest == [mark] + more by { hide EntriesText; }
    EntriesUnfolded(e, last);
    hide *;
    var tail := e.middle + ([':'] + (TreeText(e.value) + (e.behind + last)));
    FourInFront(e.before, ['"'], Spelling(e.key), ['"'], tail, rest);
    FourInFront(e.middle, [':'], TreeText(e.value), e.behind, last, rest);
  }

  lemma EntriesUnfolded(e: Entries, last: Text)
    requires last == match e.others
                     case None => ['}']
                     case Some(others) => [','] + EntriesText(others)
    ensures EntriesText(e) ==
            e.before + (['"'] + (Spelling(e.key) + (['"'] + (e.middle + ([':'] + (TreeText(e.value) + (e.behind + last)))))))
  {
    hide TreeText, Spelling;
  }

  // ------------------------------------------- Everything read is a spelling

  /** What was read from the front of s: a tree, and what it leaves. */
  ghost predicate Reads(s: Text, t: Tree, rest: Text) {
    IsTree(t) && s == TreeText(t) + rest && (t.NumberTree? ==> Ends(rest))
  }

  lemma StringLeaf(space: Text, s: Text) returns (t: Tree)
    requires AllSpace(space) && ReadString(s).Some?
    ensures Reads(space + (['"'] + s), t, ReadString(s).value.1) && Meaning(t) == Str(ReadString(s).value.0)
  {
    hide ReadString, IsLiteral, Spelling, Content, AllSpace;
    var literal := ReadLiteral(s);
    t := StringTree(space, literal);
    var rest := ReadString(s).value.1;
    FourInFront(space, ['"'], Spelling(literal), [], ['"'], rest);
    assert [] + (['"'] + rest) == ['"'] + rest && [] + ['"'] == ['"'];
  }

  lemma WordLeaf(space: Text, s: Text) returns (t: Tree)
    requires AllSpace(space) && s != [] && (s[0] == 't' || s[0] == 'f' || s[0] == 'n') && ReadValue(s).Some?
    ensures Reads(space + s, t, ReadValue(s).value.1) && Meaning(t) == ReadValue(s).value.0
  {
    WordValue(s);
    hide ReadValue, AllSpace;
    var word, rest := ReadValue(s).value.0, ReadValue(s).value.1;
    t := WordTree(space, word);
    assert s == WordText(word) + rest;
    assert space + (WordText(word) + rest) == space + WordText(word) + rest;
  }

  lemma NumberLeaf(space: Text, s: Text) returns (t: Tree)
    requires AllSpace(space) && s != [] && !IsSpace(s[0]) && s[0] != '{' && s[0] != '[' && s[0] != '"'
    requires s[0] != 't' && s[0] != 'f' && s[0] != 'n' && ReadValue(s).Some?
    ensures Reads(space + s, t, ReadValue(s).value.1) && Meaning(t) == ReadValue(s).value.0
  {
    NumberValue(s);
    hide ReadValue, ReadNumber, AllSpace, IsNumberChar, Reads, IsToken, Ends, NumberRun, Meaning;
    var n := NumberRun(s);
    TokenTaken(s);
    NumberSpelled(space, s[..n], s[n..]);
    t := NumberTree(space, s[..n]);
    assert s == s[..n] + s[n..];
  }

  lemma NumberSpelled(space: Text, token: Text, rest: Text)
    requires AllSpace(space) && IsToken(token) && Ends(rest)
    ensures Reads(space + (token + rest), NumberTree(space, token), rest)
    ensures Meaning(NumberTree(space, token)) == Num(ReadNumber(token).value)
  {
    hide ReadNumber, AllSpace, Ends;
    Regroup(space, token, rest);
  }

  lemma TokenTaken(s: Text)
    requires NumberRun(s) > 0 && ReadNumber(s[..NumberRun(s)]).Some?
    ensures IsToken(s[..NumberRun(s)]) && Ends(s[NumberRun(s)..])
  {
    hide ReadNumber, IsNumberChar, NumberRun;
    var n := NumberRun(s);
    assert forall i :: 0 <= i < n ==> s[..n][i] == s[i];
    if n < |s| {
      assert s[n..][0] == s[n];
    }
  }

  lemma {:induction false} TreeOf(s: Text) returns (t: Tree)
    requires ReadValue(s).Some?
    ensures Reads(s, t, ReadValue(s).value.1) && Meaning(t) == ReadValue(s).value.0
    decreases |s|, 1
  {
    hide ReadValue, ReadItems, ReadMembers, ReadArray, ReadObject, ReadString, Reads, TreeText, IsTree, AllSpace, Meaning;
    var space := SpaceInFront(s);
    var u := SkipSpace(s);
    LeadingSpaceIsInvisible(s);
    MarkIsNoValue(s);
    OpeningMarks(u[1..]);
    assert u == [u[0]] + u[1..];
    assert space + ([u[0]] + u[1..]) == space + [u[0]] + u[1..];
    if u[0] == '[' {
      t := ArrayOf(space, u[1..]);
    } else if u[0] == '{' {
      t := ObjectOf(space, u[1..]);
    } else if u[0] == '"' {
      t := StringLeaf(space, u[1..]);
    } else if u[0] == 't' || u[0] == 'f' || u[0] == 'n' {
      t := WordLeaf(space, u);
    } else {
      t := NumberLeaf(space, u);
    }
  }

  lemma {:induction false} ArrayOf(space: Text, s: Text) returns (t: Tree)
    requires AllSpace(space) && ReadArray(s).Some?
    ensures Reads((space + ['[']) + s, t, ReadArray(s).value.1) && Meaning(t) == ReadArray(s).value.0
    decreases |s|, 3
  {
    hide ReadValue, ReadItems, SkipSpace, AllSpace, AreItems, ItemsText, ItemsMeaning;
    var rest := ReadArray(s).value.1;
    var w := SkipSpace(s);
    if w != [] && w[0] == ']' {
      var inner := SpaceInFront(s);
      t := EmptyArray(space, inner);
      assert w == [']'] + rest;
      assert (space + ['[']) + (inner + ([']'] + rest)) == (space + (['['] + (inner + [']']))) + rest;
    } else {
      ItemsBehindSpace([], s);
      var items := ItemsOf([], s);
      t := ArrayTree(space, items);
      assert (space + ['[']) + (ItemsText(items) + rest) == (space + (['['] + ItemsText(items))) + rest;
    }
  }

  lemma ItemsBehindSpace(done: seq<Json>, s: Text)
    ensures ReadItems(done, SkipSpace(s)) == ReadItems(done, s)
  {
    LeadingSpaceIsInvisible(s);
    hide ReadValue, SkipSpace;
  }

  lemma {:induction false} ItemsOf(done: seq<Json>, s: Text) returns (items: Items)
    requires ReadItems(done, s).Some?
    ensures AreItems(items) && s == ItemsText(items) + ReadItems(done, s).value.1
    ensures ReadItems(done, s).value.0 == Arr(ItemsMeaning(done, items))
    decreases |s|, 2
  {
    var first := TreeOf(s);
    hide ReadValue, TreeText, Meaning, IsTree, ItemsText, ReadItems;
    var after, rest := ReadValue(s).value.1, ReadItems(done, s).value.1;
    var behind := SpaceInFront(after);
    var w := SkipSpace(after);
    ItemsTurn(done, s);
    hide SkipSpace;
    var others: Option<Items> := None;
    if w[0] == ',' {
      var more := ItemsOf(done + [ReadValue(s).value.0], w[1..]);
      others := Some(more);
    }
    items := Items(first, behind, others);
    ItemsParts(items, rest, if others.None? then rest else ItemsText(others.value) + rest);
    assert w == [w[0]] + w[1..];
  }

  lemma ItemsTurn(done: seq<Json>, s: Text)
    requires ReadItems(done, s).Some?
    ensures ReadValue(s).Some?
    ensures var (value, after) := ReadValue(s).value;
      var w := SkipSpace(after);
      && w != [] && |w| <= |after| < |s| && (w[0] == ',' || w[0] == ']')
      && ReadItems(done, s) == (if w[0] == ',' then ReadItems(done + [value], w[1..])
                                else Some((Arr(done + [value]), w[1..])))
  {
    hide ReadValue, SkipSpace;
  }

  lemma ItemsParts(items: Items, rest: Text, more: Text)
    requires more == if items.others.None? then rest else ItemsText(items.others.value) + rest
    ensures ItemsText(items) + rest ==
            TreeText(items.first) + (items.behind + ([if items.others.None? then ']' else ','] + more))
  {
    hide TreeText;
    var last := match items.others
      case None => [']']
      case Some(others) => [','] + ItemsText(others);
    assert last + rest == [if items.others.None? then ']' else ','] + more by { hide ItemsText; }
    assert ItemsText(items) == TreeText(items.first) + (items.behind + last);
    hide *;
    FourInFront([], [], TreeText(items.first), items.behind, last, rest);
    assert [] + ([] + (TreeText(items.first) + (items.behind + last))) == TreeText(items.first) + (items.behind + last);
    assert [] + ([] + (TreeText(items.first) + (items.behind + (last + rest)))) == TreeText(items.first) + (items.behind + (last + rest));
  }

  lemma {:induction false} ObjectOf(space: Text, s: Text) returns (t: Tree)
    requires AllSpace(space) && ReadObject(s).Some?
    ensures Reads((space + ['{']) + s, t, ReadObject(s).value.1) && Meaning(t) == ReadObject(s).value.0
    decreases |s|, 3
  {
    hide ReadMembers, SkipSpace, AllSpace, AreEntries, EntriesText, EntriesMeaning;
    var rest := ReadObject(s).value.1;
    var w := SkipSpace(s);
    if w != [] && w[0] == '}' {
      var inner := SpaceInFront(s);
      t := EmptyObject(space, inner);
      assert w == ['}'] + rest;
      assert (space + ['{']) + (inner + (['}'] + rest)) == (space + (['{'] + (inner + ['}']))) + rest;
    } else {
      SpaceBeforeMember([], s);
      var entries := EntriesOf([], s);
      t := ObjectTree(space, entries);
      assert (space + ['{']) + (EntriesText(entries) + rest) == (space + (['{'] + EntriesText(entries))) + rest;
    }
  }

  /** The parts of the first member of a list that is read. */
  lemma MemberParts(done: seq<Member>, s: Text)
    requires ReadMembers(done, s).Some?
    ensures var t := SkipSpace(s);
      && t != [] && t[0] == '"' && ReadString(t[1..]).Some?
      && var (key, afterKey) := ReadString(t[1..]).value;
         var u := SkipSpace(afterKey);
         && u != [] && u[0] == ':' && |u| <= |afterKey| < |t| <= |s| && ReadValue(u[1..]).Some?
         && var (value, after) := ReadValue(u[1..]).value;
            var w := SkipSpace(after);
            && w != [] && |w| <= |after| < |u| && (w[0] == ',' || w[0] == '}')
            && ReadMembers(done, s) == (if w[0] == ',' then ReadMembers(SetMember(done, key, value), w[1..])
                                        else Some((Obj(SetMember(done, key, value)), w[1..])))
  {
    hide ReadValue, ReadString, SkipSpace, SetMember;
  }

  lemma {:induction false} EntriesOf(done: seq<Member>, s: Text) returns (e: Entries)
    requires ReadMembers(done, s).Some?
    ensures AreEntries(e) && s == EntriesText(e) + ReadMembers(done, s).value.1
    ensures ReadMembers(done, s).value.0 == Obj(EntriesMeaning(done, e))
    decreases |s|, 2
  {
    MemberParts(done, s);
    hide ReadValue, ReadMembers, TreeText, Meaning, IsTree, ReadString, SetMember, SkipSpace, IsLiteral, Spelling, Content;
    var before := SpaceInFront(s);
    var t := SkipSpace(s);
    var key := ReadLiteral(t[1..]);
    var afterKey := ReadString(t[1..]).value.1;
    var middle := SpaceInFront(afterKey);
    var u := SkipSpace(afterKey);
    var value := TreeOf(u[1..]);
    var after := ReadValue(u[1..]).value.1;
    var behind := SpaceInFront(after);
    var w := SkipSpace(after);
    var others: Option<Entries> := None;
    if w[0] == ',' {
      var more := EntriesOf(SetMember(done, Content(key), Meaning(value)), w[1..]);
      others := Some(more);
    }
    e := Entries(before, key, middle, value, behind, others);
    var rest := ReadMembers(done, s).value.1;
    var mark := if others.None? then '}' else ',';
    var more := if others.None? then rest else EntriesText(others.value) + rest;
    assert w == [mark] + more;
    assert t == ['"'] + t[1..] && u == [':'] + u[1..];
    EntriesParts(e, rest, more, mark);
    hide EntriesText;
  }

  // ------------------------------------------------------------- The theorem

  /**
   RFC 8259: a value is read off the front of a text exactly if the text begins with
   a spelling of it, a number taken as long as it goes; the rest is what is behind.
   */
  lemma ReadsIffSpelled(s: Text, v: Json, rest: Text)
    ensures ReadValue(s) == Some((v, rest)) <==> exists t :: Reads(s, t, rest) && Meaning(t) == v
  {
    if ReadValue(s) == Some((v, rest)) {
      var t := TreeOf(s);
    }
    hide ReadValue, IsTree, TreeText, Meaning;
    if t :| Reads(s, t, rest) && Meaning(t) == v {
      TreeReads(t, rest);
    }
  }

  /** And a document is accepted exactly if it is one spelled value with only space behind it. */
  lemma AcceptedIffSpelled(text: Text, v: Json)
    ensures ParseJson(text) == Some(v) <==>
            exists t, space :: IsTree(t) && AllSpace(space) && text == TreeText(t) + space && Meaning(t) == v
  {
    if ParseJson(text) == Some(v) {
      var t := TreeOf(text);
      var space := SpaceInFront(ReadValue(text).value.1);
      assert ReadValue(text).value.1 == space + [] == space;
    }
    hide ReadValue, IsTree, TreeText, Meaning;
    if t, space :| IsTree(t) && AllSpace(space) && text == TreeText(t) + space && Meaning(t) == v {
      OnlySpace(space);
      TreeReads(t, space);
    }
  }

  lemma OnlySpace(space: Text)
    requires AllSpace(space)
    ensures SkipSpace(space) == [] && Ends(space)
  {
    SpaceSkipped(space, []);
    assert space + [] == space;
  }
}
