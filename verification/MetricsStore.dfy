/**
 The metrics store (src/metrics/metrics_store.cpp): one JSON object a line,
 appended and flushed record by record, and read back tolerating a cut-off end.
 */
module MetricsStore {
  import opened Basics
  import opened Json
  import opened JsonRoundTrip
  import opened JsonTruncation
  import opened MetricRecords
  import JsonCode

  // ------------------------------------------------------------- The file

  function HeaderJson(implementationName: Text): Json {
    Obj([Member("type", Str("header")),
         Member("format", Str("tftp-test-harness-metrics/1")),
         Member("implementation_name", Str(implementationName))])
  }

  function LineOf(v: Json): Text {
    Serialize(v, false, 0) + ['\n']
  }

  function RecordLines(records: seq<MetricRecord>): Text {
    if records == [] then [] else LineOf(ToJson(records[0])) + RecordLines(records[1..])
  }

  /** A header line, then a line for each record. */
  function FileOf(implementationName: Text, records: seq<MetricRecord>): Text {
    LineOf(HeaderJson(implementationName)) + RecordLines(records)
  }

  function LineEnd(file: Text): (n: nat)
    ensures n <= |file| && (n < |file| ==> file[n] == '\n')
    ensures forall i :: 0 <= i < n ==> file[i] != '\n'
  {
    if file == [] || file[0] == '\n' then 0 else 1 + LineEnd(file[1..])
  }

  /** What std::getline delivers: pieces between line breaks, the last one perhaps unfinished. */
  function Lines(file: Text): seq<Text>
    decreases |file|
  {
    if file == [] then []
    else
      var n := LineEnd(file);
      [file[..n]] + if n < |file| then Lines(file[n + 1..]) else []
  }

  datatype Loaded = Loaded(implementationName: Text, records: seq<MetricRecord>)

  function LoadValue(l: Loaded, v: Json): Loaded {
    var m := MembersOf(v);
    if !Has(m, "type") then l
    else
      var kind := AsString(At(m, "type"));
      if kind == "header" then
        if Has(m, "implementation_name") then l.(implementationName := AsString(At(m, "implementation_name")))
        else l
      else if kind == "metric" then l.(records := l.records + [FromJson(v)])
      else l
  }

  /** Empty and unreadable lines are passed over. */
  function LoadLine(l: Loaded, line: Text): Loaded {
    if line == [] then l
    else
      match ParseJson(line)
      case None => l
      case Some(v) => LoadValue(l, v)
  }

  function LoadLines(l: Loaded, lines: seq<Text>): Loaded
    decreases |lines|
  {
    if lines == [] then l else LoadLines(LoadLine(l, lines[0]), lines[1..])
  }

  function Load(file: Text): Loaded {
    LoadLines(Loaded("", []), Lines(file))
  }

  // ------------------------------------------------------- Text as it stands

  /** Text without quotes, backslashes and control characters is written as it is. */
  lemma {:induction false} PlainText(s: Text)
    requires forall i :: 0 <= i < |s| ==> s[i] as int >= 0x20 && s[i] != '"' && s[i] != '\\'
    ensures Quoted(s) == ['"'] + (s + ['"'])
  {
    AllPlain(s);
  }

  lemma {:induction false} AllPlain(s: Text)
    requires forall i :: 0 <= i < |s| ==> s[i] as int >= 0x20 && s[i] != '"' && s[i] != '\\'
    ensures EscapeAll(s) == s
  {
    if s != [] {
      AllPlain(s[1..]);
      assert Escaped(s[0]) == [s[0]];
    }
  }

  /** The first line of a store; every string in it but the name is plain text. */
  lemma HeaderLine(name: Text)
    ensures LineOf(HeaderJson(name)) ==
            "{" + (Quoted("type") + (":" + (Quoted("header") + ("," + (Quoted("format") + (":" + (Quoted("tftp-test-harness-metrics/1")
            + ("," + (Quoted("implementation_name") + (":" + (Quoted(name) + "}\n")))))))))))
  {
    hide Quoted;
    var members := HeaderJson(name).members;
    assert members == [members[0]] + ([members[1]] + [members[2]]);
    LastMember(members[2]);
    MemberAndMore(members[1], [members[2]]);
    MemberAndMore(members[0], [members[1]] + [members[2]]);
    hide SerializeMembers;
    assert Indent(false, 0) == [];
    var tail := Quoted("implementation_name") + (":" + Quoted(name));
    assert tail + "}" + "\n" == Quoted("implementation_name") + (":" + (Quoted(name) + "}\n"));
    ClosedLine(Quoted("type"), Quoted("header"), Quoted("format"), Quoted("tftp-test-harness-metrics/1"), tail);
  }

  lemma ClosedLine(a: Text, b: Text, c: Text, d: Text, tail: Text)
    ensures "{" + (a + (":" + (b + ("," + (c + (":" + (d + ("," + tail)))))))) + "}" + "\n"
            == "{" + (a + (":" + (b + ("," + (c + (":" + (d + ("," + (tail + "}" + "\n")))))))))
  {
  }

  lemma LastMember(m: Member)
    requires m.value.Str?
    ensures SerializeMembers([m], false, 0) == Quoted(m.key) + (":" + Quoted(m.value.s))
  {
    hide Quoted;
    assert Quoted(m.value.s) + [] == Quoted(m.value.s);
  }

  lemma MemberAndMore(m: Member, more: seq<Member>)
    requires m.value.Str? && more != []
    ensures SerializeMembers([m] + more, false, 0)
            == Quoted(m.key) + (":" + (Quoted(m.value.s) + ("," + SerializeMembers(more, false, 0))))
  {
    hide Quoted;
    assert ([m] + more)[1..] == more;
  }

  // ---------------------------------------------------------- Crash safety

  lemma LineEndUnique(file: Text, n: nat)
    requires n <= |file| && OneLine(file[..n]) && (n < |file| ==> file[n] == '\n')
    ensures LineEnd(file) == n
  {
    assert forall i :: 0 <= i < n ==> file[..n][i] == file[i];
  }

  lemma LinesOfLine(line: Text, more: Text)
    requires OneLine(line)
    ensures Lines(line + ['\n'] + more) == [line] + Lines(more)
    ensures line != [] ==> Lines(line) == [line]
  {
    var file := line + ['\n'] + more;
    assert file[..|line|] == line && file[|line|] == '\n' && file[|line| + 1..] == more;
    LineEndUnique(file, |line|);
    assert line[..|line|] == line;
    LineEndUnique(line, |line|);
  }

  lemma LoadFirst(l: Loaded, line: Text, rest: seq<Text>)
    ensures LoadLines(l, [line] + rest) == LoadLines(LoadLine(l, line), rest)
    ensures LoadLines(l, [line]) == LoadLine(l, line)
  {
    hide LoadLine;
    assert ([line] + rest)[1..] == rest;
    assert [line][1..] == [];
  }

  /** What a written object's line adds when it is read. */
  ghost function LoadWritten(l: Loaded, v: Json): Loaded {
    if Readable(v) then LoadValue(l, AsRead(v)) else l
  }

  lemma LoadObject(l: Loaded, v: Json)
    requires v.Obj? && Writable(v)
    ensures LoadLine(l, Serialize(v, false, 0)) == LoadWritten(l, v)
    ensures Serialize(v, false, 0) != []
  {
    hide ParseJson, Writable, LoadValue, Readable, AsRead;
    ParsesSerialized(v, false);
    NotEmpty(v);
    hide Serialize;
  }

  lemma LoadCutObject(l: Loaded, v: Json, n: nat)
    requires v.Obj? && Writable(v) && n < |Serialize(v, false, 0)|
    ensures LoadLine(l, Serialize(v, false, 0)[..n]) == l
  {
    hide ParseJson, Writable, LoadValue, Serialize;
    CutObjectIsRefused(v, false, n);
  }

  lemma OneLinePrefix(line: Text, n: nat)
    requires OneLine(line) && n <= |line|
    ensures OneLine(line[..n])
  {
  }

  /** Reading a file that starts with one object's line, cut at n. */
  lemma CutFirstLine(l: Loaded, v: Json, more: Text, n: nat)
    requires v.Obj? && Writable(v) && n <= |LineOf(v) + more|
    ensures var size := |Serialize(v, false, 0)|;
      LoadLines(l, Lines((LineOf(v) + more)[..n])) ==
      if n < size then l
      else if n == size then LoadWritten(l, v)
      else LoadLines(LoadWritten(l, v), Lines(more[..n - size - 1]))
  {
    hide Serialize, LoadWritten, Writable, LoadLine, LoadLines, Lines, OneLine;
    var text := Serialize(v, false, 0);
    CompactIsOneLine(v, 0);
    LoadObject(l, v);
    if n <= |text| {
      assert (text + ['\n'] + more)[..n] == text[..n];
      OneLinePrefix(text, n);
      LinesOfLine(text[..n], []);
      LoadFirst(l, text[..n], []);
      NoLines(l);
      if n < |text| {
        LoadCutObject(l, v, n);
      } else {
        assert text[..n] == text;
      }
    } else {
      var rest := more[..n - |text| - 1];
      assert (text + ['\n'] + more)[..n] == text + ['\n'] + rest;
      LinesOfLine(text, rest);
      LoadFirst(l, text, Lines(rest));
    }
  }

  lemma NoLines(l: Loaded)
    ensures LoadLines(l, Lines([])) == l
  {
  }

  lemma NotEmpty(v: Json)
    requires v.Obj?
    ensures Serialize(v, false, 0) != []
  {
  }

  /** Records whose whole object lies within the first n characters. */
  function Survivors(records: seq<MetricRecord>, n: nat): (k: nat)
    ensures k <= |records|
  {
    if records == [] || n < |Serialize(ToJson(records[0]), false, 0)| then 0
    else
      var size := |Serialize(ToJson(records[0]), false, 0)|;
      1 + if n == size then 0 else Survivors(records[1..], n - size - 1)
  }

  /** Records whose line, its break included, lies within the first n characters. */
  function CompleteLines(records: seq<MetricRecord>, n: nat): nat {
    if records == [] || n < |LineOf(ToJson(records[0]))| then 0
    else 1 + CompleteLines(records[1..], n - |LineOf(ToJson(records[0]))|)
  }

  lemma {:induction false} CompleteLinesSurvive(records: seq<MetricRecord>, n: nat)
    ensures CompleteLines(records, n) <= Survivors(records, n)
  {
    hide ToJson, Serialize;
    if records != [] && n >= |LineOf(ToJson(records[0]))| {
      CompleteLinesSurvive(records[1..], n - |LineOf(ToJson(records[0]))|);
    }
  }

  /** Records as they come back; one that holds an unreadable number does not. */
  function StoredAll(records: seq<MetricRecord>): (s: seq<MetricRecord>)
    ensures |s| <= |records|
  {
    if records == [] then []
    else (if RecordReadable(records[0]) then [Stored(records[0])] else []) + StoredAll(records[1..])
  }

  lemma MetricIsLoaded(l: Loaded, r: MetricRecord)
    ensures LoadWritten(l, ToJson(r)) == l.(records := l.records + StoredAll([r]))
  {
    hide At, Has, ToMembers, FromJson, Stored, AsReadMembers, SeverityName, OutcomeName, SeedJson, CounterMembers,
         RecordReadable, AllValuesReadable;
    ToJsonReadable(r);
    ReadLookups(r);
    RecordReadsBack(r);
    assert [r][1..] == [];
    assert MembersOf(AsRead(ToJson(r))) == AsReadMembers(ToMembers(r));
    hide Readable, AsRead;
  }

  lemma StoredFirst(records: seq<MetricRecord>, k: nat)
    requires 0 < k <= |records|
    ensures StoredAll(records[..k]) == StoredAll([records[0]]) + StoredAll(records[1..][..k - 1])
    ensures StoredAll([]) == []
  {
    hide RecordReadable, Stored;
    assert records[..k][1..] == records[1..][..k - 1];
    assert [records[0]][1..] == [];
  }

  lemma {:induction false} CutRecords(l: Loaded, records: seq<MetricRecord>, n: nat)
    requires n <= |RecordLines(records)|
    requires forall i :: 0 <= i < |records| ==> HasDistinctCounters(records[i])
    ensures LoadLines(l, Lines(RecordLines(records)[..n]))
            == l.(records := l.records + StoredAll(records[..Survivors(records, n)]))
    decreases |records|
  {
    hide HasDistinctCounters, ToJson, Serialize, LoadValue, LoadWritten, FromJson, LoadLines, Lines, LineOf, StoredAll;
    if records == [] {
      NoLines(l);
      NoneStored();
      assert RecordLines(records)[..n] == [] && l.records + [] == l.records;
    } else {
      var v := ToJson(records[0]);
      var size := |Serialize(v, false, 0)|;
      LineSize(v);
      RecordIsWritable(records[0]);
      CutFirstLine(l, v, RecordLines(records[1..]), n);
      MetricIsLoaded(l, records[0]);
      var k := Survivors(records, n);
      if n < size {
        NoneStored();
        assert records[..0] == [] && l.records + [] == l.records;
      } else if n == size {
        assert records[..1] == [records[0]];
      } else {
        CutRecords(l.(records := l.records + StoredAll([records[0]])), records[1..], n - size - 1);
        StoredFirst(records, k);
        assert l.records + StoredAll([records[0]]) + StoredAll(records[1..][..k - 1])
               == l.records + (StoredAll([records[0]]) + StoredAll(records[1..][..k - 1]));
      }
    }
  }

  lemma NoneStored()
    ensures StoredAll([]) == []
  {
  }

  /** What is stored of the first records is the first part of what is stored. */
  lemma {:induction false} StoredPrefix(records: seq<MetricRecord>, k: nat)
    requires k <= |records|
    ensures StoredAll(records[..k]) <= StoredAll(records)
  {
    hide RecordReadable, Stored;
    if k > 0 {
      StoredPrefix(records[1..], k - 1);
      assert records[..k][1..] == records[1..][..k - 1];
    } else {
      assert records[..0] == [];
    }
  }

  /** Records are all stored as they are exactly when each of them survives. */
  lemma {:induction false} AllSurviveIff(records: seq<MetricRecord>)
    requires forall i :: 0 <= i < |records| ==> RecordFinite(records[i])
    ensures StoredAll(records) == records <==> forall i :: 0 <= i < |records| ==> Kept(records[i])
  {
    hide RecordReadable, Stored, Kept, RecordFinite;
    if records != [] {
      RecordSurvivesIff(records[0]);
      AllSurviveIff(records[1..]);
      assert records == [records[0]] + records[1..];
      if StoredAll(records) == records {
        assert RecordReadable(records[0]);
        assert StoredAll(records)[0] == Stored(records[0]) && StoredAll(records)[1..] == StoredAll(records[1..]);
      }
    }
  }

  lemma LineSize(v: Json)
    ensures |LineOf(v)| == |Serialize(v, false, 0)| + 1
  {
  }

  lemma HeaderLookups(name: Text)
    ensures Writable(HeaderJson(name)) && HeaderJson(name).Obj? && Readable(HeaderJson(name))
    ensures var m := MembersOf(AsRead(HeaderJson(name)));
      && Has(m, "type") && At(m, "type") == Str("header")
      && Has(m, "implementation_name") && At(m, "implementation_name") == Str(name)
  {
    hide At, Has, AsReadMembers, AllValuesReadable;
    var m := HeaderJson(name).members;
    assert |m[0].key| == 4 && |m[1].key| == 6 && |m[2].key| == 19;
    AtIndex(m, 0);
    AtIndex(m, 2);
    LookupsAsRead(m);
    ValuesReadable(m);
    assert AsRead(HeaderJson(name)) == Obj(AsReadMembers(m));
  }

  lemma HeaderIsLoaded(l: Loaded, name: Text)
    ensures LoadWritten(l, HeaderJson(name)) == l.(implementationName := name)
  {
    hide At, Has, HeaderJson, AsRead, Readable, MembersOf, FromJson;
    HeaderLookups(name);
  }

  /**
   Crash safety: cutting the store file at any character and loading it gives
   exactly the records whose object was written out, a prefix of those appended
   that holds at least every complete line, and the name once the header is out.
   */
  lemma CutStoreLoadsPrefix(name: Text, records: seq<MetricRecord>, n: nat)
    requires n <= |FileOf(name, records)|
    requires forall i :: 0 <= i < |records| ==> HasDistinctCounters(records[i])
    ensures var header := |Serialize(HeaderJson(name), false, 0)|;
      var written := if n <= header then 0 else n - header - 1;
      && Load(FileOf(name, records)[..n]) ==
         Loaded(if n < header then "" else name, StoredAll(records[..Survivors(records, written)]))
      && CompleteLines(records, written) <= Survivors(records, written)
  {
    hide HeaderJson, Serialize, LoadWritten, HasDistinctCounters, LoadLines, Lines, LineOf, RecordLines, Survivors,
         CompleteLines, RecordReadable, Stored;
    var v := HeaderJson(name);
    LineSize(v);
    var header := |Serialize(v, false, 0)|;
    HeaderLookups(name);
    HeaderIsLoaded(Loaded("", []), name);
    CutFirstLine(Loaded("", []), v, RecordLines(records), n);
    if n > header {
      CutRecords(Loaded(name, []), records, n - header - 1);
      CompleteLinesSurvive(records, n - header - 1);
    } else {
      NothingWritten(records);
    }
  }

  lemma NothingWritten(records: seq<MetricRecord>)
    ensures Survivors(records, 0) == 0 && CompleteLines(records, 0) == 0
  {
    if records != [] {
      NotEmpty(ToJson(records[0]));
    }
  }

  lemma {:induction false} AllSurvive(records: seq<MetricRecord>)
    ensures Survivors(records, |RecordLines(records)|) == |records|
  {
    hide ToJson, Serialize;
    if records != [] {
      AllSurvive(records[1..]);
    }
  }

  /** Uncut, the file gives back everything that was appended. */
  lemma WholeStoreLoads(name: Text, records: seq<MetricRecord>)
    requires forall i :: 0 <= i < |records| ==> HasDistinctCounters(records[i])
    ensures Load(FileOf(name, records)) == Loaded(name, StoredAll(records))
  {
    hide *;
    var file := FileOf(name, records);
    FileSize(name, records);
    assert |file| - |Serialize(HeaderJson(name), false, 0)| - 1 == |RecordLines(records)|;
    CutStoreLoadsPrefix(name, records, |file|);
    AllSurvive(records);
    assert file[..|file|] == file;
    assert records[..|records|] == records;
  }

  lemma FileSize(name: Text, records: seq<MetricRecord>)
    ensures |FileOf(name, records)| == |Serialize(HeaderJson(name), false, 0)| + 1 + |RecordLines(records)|
  {
  }

  // ------------------------------------------------------- Lines that say nothing

  predicate EndsLine(file: Text) {
    file == [] || file[|file| - 1] == '\n'
  }

  lemma {:induction false} LoadsInTurn(l: Loaded, a: Text, b: Text)
    requires EndsLine(a)
    ensures LoadLines(l, Lines(a + b)) == LoadLines(LoadLines(l, Lines(a)), Lines(b))
    decreases |a|
  {
    hide LoadLine, Lines;
    if a == [] {
      assert a + b == b;
      NoLines(l);
    } else {
      var n := LineEnd(a);
      assert n < |a|;
      var line, more := a[..n], a[n + 1..];
      assert a == line + ['\n'] + more;
      assert a + b == line + ['\n'] + (more + b);
      LinesOfLine(line, more);
      LinesOfLine(line, more + b);
      LoadFirst(l, line, Lines(more));
      LoadFirst(l, line, Lines(more + b));
      LoadsInTurn(LoadLine(l, line), more, b);
    }
  }

  /** A line that is no JSON, or an object without a type or of a type the store does not know. */
  predicate SaysNothing(line: Text) {
    line == [] ||
    match ParseJson(line)
    case None => true
    case Some(v) =>
      var kind := At(MembersOf(v), "type");
      !Has(MembersOf(v), "type") || (kind != Str("header") && kind != Str("metric"))
  }

  lemma NothingLoaded(l: Loaded, line: Text)
    requires SaysNothing(line)
    ensures LoadLine(l, line) == l
  {
    hide ParseJson, FromJson, At, Has;
    assert "header" != [] && "metric" != [];
  }

  /** Wherever in a file such a line stands, the file loads as if it were not there. */
  lemma JunkIsPassedOver(before: Text, junk: Text, after: Text)
    requires EndsLine(before) && OneLine(junk) && SaysNothing(junk)
    ensures Load(before + (junk + ['\n'] + after)) == Load(before + after)
  {
    hide SaysNothing, LoadLine, Lines, OneLine;
    var l := Loaded("", []);
    LoadsInTurn(l, before, junk + ['\n'] + after);
    LoadsInTurn(l, before, after);
    LinesOfLine(junk, after);
    var sofar := LoadLines(l, Lines(before));
    LoadFirst(sofar, junk, Lines(after));
    NothingLoaded(sofar, junk);
  }

  // ------------------------------------------------------------- The store

  lemma {:induction false} RecordLinesAppend(records: seq<MetricRecord>, r: MetricRecord)
    ensures RecordLines(records + [r]) == RecordLines(records) + LineOf(ToJson(r))
  {
    hide ToJson, LineOf;
    if records == [] {
      assert RecordLines([r]) == LineOf(ToJson(r)) + [];
    } else {
      assert (records + [r])[1..] == records[1..] + [r];
      RecordLinesAppend(records[1..], r);
      assert LineOf(ToJson(records[0])) + (RecordLines(records[1..]) + LineOf(ToJson(r)))
             == LineOf(ToJson(records[0])) + RecordLines(records[1..]) + LineOf(ToJson(r));
    }
  }

  /** `some` is left of `all` when some of its elements are dropped. */
  ghost predicate IsPartOf<T>(some: seq<T>, all: seq<T>) {
    some == [] ||
    (all != [] && (IsPartOf(some, all[..|all| - 1]) ||
                   (some[|some| - 1] == all[|all| - 1] && IsPartOf(some[..|some| - 1], all[..|all| - 1]))))
  }

  lemma {:induction false} LinesAppend(base: Text, records: seq<MetricRecord>, r: MetricRecord)
    ensures base + RecordLines(records + [r]) == base + RecordLines(records) + LineOf(ToJson(r))
  {
    hide RecordLines, LineOf, ToJson;
    RecordLinesAppend(records, r);
    assert base + (RecordLines(records) + LineOf(ToJson(r))) == base + RecordLines(records) + LineOf(ToJson(r));
  }

  /**
   The append-only store.  `file` stands for what is on disk at its path; whether
   a stream can be opened there is up to the file system, call by call.
   */
  class Store {
    var file: Text
    var implementationName: Text
    var records: seq<MetricRecord>
    var isOpen: bool
    ghost var base: Text  // what was there before the first append
    ghost var written: seq<MetricRecord>  // the records whose stream could be opened

    ghost predicate Valid()
      reads this
    {
      && (forall i :: 0 <= i < |records| ==> HasDistinctCounters(records[i]))
      && (forall i :: 0 <= i < |written| ==> HasDistinctCounters(written[i]))
      && (isOpen ==> file == base + RecordLines(written) && IsPartOf(written, records))
    }

    ghost predicate BeganWithHeader()
      reads this
    {
      base == LineOf(HeaderJson(implementationName))
    }

    constructor ()
      ensures Valid() && !isOpen && records == []
    {
      file, implementationName, records, isOpen := "", "", [], false;
      base, written := "", [];
    }

    /** Truncates and writes the header; `found` is what is left at the path when that fails. */
    method Open(name: Text, opens: bool, found: Text) returns (ok: bool)
      modifies this
      ensures Valid() && ok == opens && records == [] && written == [] && implementationName == name
      ensures file == base
      ensures if opens then isOpen && BeganWithHeader() else isOpen == old(isOpen) && file == found
    {
      hide Serialize, HeaderJson;
      implementationName := name;
      records := [];
      written := [];
      if !opens {
        file, base := found, found;
        assert found + [] == found;
        return false;
      }
      var header := JsonCode.SerializeInto("", HeaderJson(name), false, 0);
      assert [] + Serialize(HeaderJson(name), false, 0) == Serialize(HeaderJson(name), false, 0);
      file := header + ['\n'];
      base := file;
      isOpen := true;
      assert file + [] == file;
      return true;
    }

    /** Keeps the record in memory, and on disk when the store and its stream are open. */
    method Append(r: MetricRecord, opens: bool)
      requires Valid() && HasDistinctCounters(r)
      modifies this
      ensures Valid() && isOpen == old(isOpen) && records == old(records) + [r]
      ensures file == old(file) + (if isOpen && opens then LineOf(ToJson(r)) else [])
      ensures written == old(written) + (if isOpen && opens then [r] else [])
      ensures base == old(base) && implementationName == old(implementationName)
    {
      hide Serialize, ToJson, RecordLines, HasDistinctCounters;
      records := records + [r];
      if isOpen && opens {
        var value := RecordToJson(r);
        var text := JsonCode.SerializeInto("", value, false, 0);
        assert [] + Serialize(ToJson(r), false, 0) == Serialize(ToJson(r), false, 0);
        LinesAppend(base, written, r);
        file := file + (text + ['\n']);
        written := written + [r];
      }
      assert records[..|records| - 1] == old(records);
      assert written != old(written) ==> written[..|written| - 1] == old(written);
    }

    method Close()
      requires Valid()
      modifies this`isOpen
      ensures Valid() && !isOpen
    {
      isOpen := false;
    }

    method TakeLine(line: Text)
      modifies this
      ensures Loaded(implementationName, records) == LoadLine(Loaded(old(implementationName), old(records)), line)
      ensures isOpen == old(isOpen) && file == old(file)
    {
      hide ParseJson, FromJson, At, Has;
      if line == [] {
        return;
      }
      var value := JsonCode.ParseDocument(line);
      if value.None? {
        return;
      }
      var m := MembersOf(value.value);
      if !Has(m, "type") {
        return;
      }
      var kind := AsString(At(m, "type"));
      if kind == "header" {
        if Has(m, "implementation_name") {
          implementationName := AsString(At(m, "implementation_name"));
        }
      } else if kind == "metric" {
        records := records + [FromJson(value.value)];
      }
    }

    /** Reads a file written earlier into this store, line by line; a file that cannot be opened changes nothing. */
    method LoadFile(content: Text, opens: bool) returns (ok: bool)
      modifies this
      ensures ok == opens && isOpen == old(isOpen)
      ensures if opens then
                file == content
                && Loaded(implementationName, records) == LoadLines(Loaded(old(implementationName), []), Lines(content))
              else
                file == old(file) && implementationName == old(implementationName) && records == old(records)
    {
      hide LoadLine;
      if !opens {
        return false;
      }
      file := content;
      records := [];
      var rest := content;
      while rest != []
        invariant file == content && isOpen == old(isOpen)
        invariant LoadLines(Loaded(implementationName, records), Lines(rest))
                  == LoadLines(Loaded(old(implementationName), []), Lines(content))
        decreases |rest|
      {
        ghost var before := Loaded(implementationName, records);
        var n := LineEnd(rest);
        var line := rest[..n];
        LoadFirst(before, line, if n < |rest| then Lines(rest[n + 1..]) else []);
        rest := if n < |rest| then rest[n + 1..] else [];
        TakeLine(line);
      }
      return true;
    }
  }

  /**
   Whatever was appended to an open store, a crash at any character of its file
   leaves a prefix of what was written, numbers as the text keeps them; and
   finite records come back as they were exactly when each of them survives.
   */
  lemma CrashedStoreLoadsPrefix(store: Store, n: nat)
    requires store.Valid() && store.isOpen && store.BeganWithHeader() && n <= |store.file|
    ensures Load(store.file[..n]).records <= StoredAll(store.written)
    ensures Load(store.file).records == StoredAll(store.written)
    ensures (forall i :: 0 <= i < |store.written| ==> RecordFinite(store.written[i])) ==>
              (Load(store.file).records == store.written
               <==> forall i :: 0 <= i < |store.written| ==> Kept(store.written[i]))
  {
    hide HeaderJson, Serialize, Survivors, Load, LineOf, RecordLines, StoredAll, RecordFinite, Kept;
    CutStoreLoadsPrefix(store.implementationName, store.written, n);
    WholeStoreLoads(store.implementationName, store.written);
    if forall i :: 0 <= i < |store.written| ==> RecordFinite(store.written[i]) {
      AllSurviveIff(store.written);
    }
    var size := |Serialize(HeaderJson(store.implementationName), false, 0)|;
    StoredPrefix(store.written, Survivors(store.written, if n <= size then 0 else n - size - 1));
  }
}
