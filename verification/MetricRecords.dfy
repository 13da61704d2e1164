/**
 Metric records (src/metrics/metrics_store.cpp): how a record becomes a JSON
 object, what comes back of it, and which records come back as they were.
 */
module MetricRecords {
  import opened Basics
  import opened Json
  import opened JsonNumbers
  import opened JsonRoundTrip
  import Doubles
  import WholeDoubles

  datatype Outcome = Pass | Fail | Skipped
  datatype Severity = Critical | Major | Minor | Info

  datatype Counter = Counter(name: Text, value: real)

  datatype MetricRecord = MetricRecord(
    testId: Text,
    title: Text,
    rfcClause: Text,
    severity: Severity,
    outcome: Outcome,
    intensity: Option<real>,
    intensityLabel: Text,
    seed: U64,
    narrative: Text,
    integrityViolation: bool,
    ungracefulFailure: bool,
    counters: seq<Counter>,
    implementationName: Text)

  // --------------------------------------------------------------- Names

  function OutcomeName(o: Outcome): Text {
    match o
    case Pass => "PASS"
    case Fail => "FAIL"
    case Skipped => "SKIPPED"
  }

  function OutcomeFromName(name: Text): Outcome {
    if name == "PASS" then Pass else if name == "FAIL" then Fail else Skipped
  }

  function SeverityName(s: Severity): Text {
    match s
    case Critical => "CRITICAL"
    case Major => "MAJOR"
    case Minor => "MINOR"
    case Info => "INFO"
  }

  function SeverityFromName(name: Text): Severity {
    if name == "CRITICAL" then Critical
    else if name == "MAJOR" then Major
    else if name == "MINOR" then Minor
    else Info
  }

  lemma NamesReadBack(o: Outcome, s: Severity)
    ensures OutcomeFromName(OutcomeName(o)) == o && SeverityFromName(SeverityName(s)) == s
  {
    assert OutcomeName(o)[0] != 'X' && SeverityName(s)[0] != 'X';
    if s.Minor? {
      assert SeverityName(s)[1] == 'I' && "MAJOR"[1] == 'A';
    }
    if o.Fail? {
      assert OutcomeName(o)[0] == 'F';
    }
  }

  // --------------------------------------------------------- Object access

  /** The first member with this key; JSON null when there is none. */
  function At(members: seq<Member>, key: Text): Json {
    if members == [] then Null
    else if members[0].key == key then members[0].value
    else At(members[1..], key)
  }

  predicate Has(members: seq<Member>, key: Text) {
    exists i :: 0 <= i < |members| && members[i].key == key
  }

  lemma {:induction false} AtIndex(members: seq<Member>, i: nat)
    requires i < |members| && DistinctKeys(members)
    ensures Has(members, members[i].key) && At(members, members[i].key) == members[i].value
  {
    if i > 0 {
      AtIndex(members[1..], i - 1);
    }
  }

  /**
   Setting a member: its key then has that value, where it stood or else at the end,
   and every other key has what it had.
   */
  lemma {:induction false} SettingMember(members: seq<Member>, key: Text, value: Json, other: Text)
    ensures var after := SetMember(members, key, value);
      && At(after, key) == value && (other != key ==> At(after, other) == At(members, other))
      && (if Has(members, key) then
            |after| == |members| && forall i :: 0 <= i < |after| ==> after[i].key == members[i].key
          else after == members + [Member(key, value)])
  {
    hide Has;
    if members == [] {
      assert SetMember(members, key, value)[1..] == [];
      NoMember(key);
    } else {
      HasFirstOrLater(members, key);
      if members[0].key != key {
        SettingMember(members[1..], key, value, other);
      }
    }
  }

  lemma NoMember(key: Text)
    ensures !Has([], key)
  {
  }

  lemma HasFirstOrLater(members: seq<Member>, key: Text)
    requires members != []
    ensures Has(members, key) <==> members[0].key == key || Has(members[1..], key)
  {
    if i :| 0 <= i < |members| && members[i].key == key {
      assert i > 0 ==> members[1..][i - 1].key == key;
    }
    if i :| 0 <= i < |members[1..]| && members[1..][i].key == key {
      assert members[i + 1].key == key;
    }
  }

  function MembersOf(v: Json): seq<Member> {
    if v.Obj? then v.members else []
  }

  function AsString(v: Json): Text {
    if v.Str? then v.s else ""
  }

  function AsNumber(v: Json): real {
    if v.Num? then RealOf(v.n) else 0.0
  }

  function AsBool(v: Json): bool {
    v.Bool? && v.b
  }

  // The seed is an unsigned word that passes through long long and double.
  function AsLongLong(seed: U64): int {
    if seed < WORDS / 2 then seed else seed - WORDS
  }

  function SeedJson(seed: U64): Json {
    Num(Integer(WholeDoubles.WholeToDouble(AsLongLong(seed))))
  }

  function AsSeed(v: Json): U64 {
    if v.Num? then AsInteger(v.n) % WORDS else 0
  }

  // ---------------------------------------------------------------- Records

  function CounterMembers(counters: seq<Counter>): (m: seq<Member>)
    ensures |m| == |counters|
    ensures forall i :: 0 <= i < |m| ==> m[i] == Member(counters[i].name, Num(Double(counters[i].value)))
  {
    seq(|counters|, i requires 0 <= i < |counters| => Member(counters[i].name, Num(Double(counters[i].value))))
  }

  function CountersFrom(members: seq<Member>): (c: seq<Counter>)
    ensures |c| == |members|
  {
    seq(|members|, i requires 0 <= i < |members| => Counter(members[i].key, AsNumber(members[i].value)))
  }

  function ToMembers(r: MetricRecord): seq<Member> {
    [Member("type", Str("metric")),
     Member("test_id", Str(r.testId)),
     Member("title", Str(r.title)),
     Member("rfc_clause", Str(r.rfcClause)),
     Member("severity", Str(SeverityName(r.severity))),
     Member("outcome", Str(OutcomeName(r.outcome)))]
    + (if r.intensity.Some? then [Member("intensity", Num(Double(r.intensity.value)))] else [])
    + [Member("intensity_label", Str(r.intensityLabel)),
       Member("seed", SeedJson(r.seed)),
       Member("narrative", Str(r.narrative)),
       Member("integrity_violation", Bool(r.integrityViolation)),
       Member("ungraceful_failure", Bool(r.ungracefulFailure)),
       Member("implementation_name", Str(r.implementationName)),
       Member("counters", Obj(CounterMembers(r.counters)))]
  }

  function ToJson(r: MetricRecord): Json {
    Obj(ToMembers(r))
  }

  function FromJson(v: Json): MetricRecord {
    var m := MembersOf(v);
    MetricRecord(
      AsString(At(m, "test_id")),
      AsString(At(m, "title")),
      AsString(At(m, "rfc_clause")),
      if Has(m, "severity") then SeverityFromName(AsString(At(m, "severity"))) else Info,
      if Has(m, "outcome") then OutcomeFromName(AsString(At(m, "outcome"))) else Skipped,
      if Has(m, "intensity") && At(m, "intensity").Num? then Some(AsNumber(At(m, "intensity"))) else None,
      AsString(At(m, "intensity_label")),
      AsSeed(At(m, "seed")),
      AsString(At(m, "narrative")),
      AsBool(At(m, "integrity_violation")),
      AsBool(At(m, "ungraceful_failure")),
      CountersFrom(MembersOf(At(m, "counters"))),
      AsString(At(m, "implementation_name")))
  }

  /** What is missing from an object is left as a new record has it. */
  lemma MissingMembersDefault(members: seq<Member>)
    requires forall i :: 0 <= i < |members| ==> members[i].key == "type"
    ensures FromJson(Obj(members)) ==
            MetricRecord("", "", "", Info, Skipped, None, "", 0, "", false, false, [], "")
  {
    hide FromJson, At;
    NoneThere(members, "test_id");
    NoneThere(members, "title");
    NoneThere(members, "rfc_clause");
    NoneThere(members, "severity");
    NoneThere(members, "outcome");
    NoneThere(members, "intensity");
    NoneThere(members, "intensity_label");
    NoneThere(members, "seed");
    NoneThere(members, "narrative");
    NoneThere(members, "integrity_violation");
    NoneThere(members, "ungraceful_failure");
    NoneThere(members, "counters");
    NoneThere(members, "implementation_name");
    FromNothing(members);
  }

  lemma FromNothing(m: seq<Member>)
    requires !Has(m, "severity") && !Has(m, "outcome") && !Has(m, "intensity")
    requires At(m, "test_id") == Null && At(m, "title") == Null && At(m, "rfc_clause") == Null
    requires At(m, "intensity_label") == Null && At(m, "seed") == Null && At(m, "narrative") == Null
    requires At(m, "integrity_violation") == Null && At(m, "ungraceful_failure") == Null
    requires At(m, "counters") == Null && At(m, "implementation_name") == Null
    ensures FromJson(Obj(m)) == MetricRecord("", "", "", Info, Skipped, None, "", 0, "", false, false, [], "")
  {
    hide At, Has;
  }

  lemma {:induction false} NoneThere(members: seq<Member>, key: Text)
    requires key != "type" && forall i :: 0 <= i < |members| ==> members[i].key == "type"
    ensures !Has(members, key) && At(members, key) == Null
  {
    if members != [] {
      NoneThere(members[1..], key);
    }
  }

  /** Counters as a map has them. */
  predicate HasDistinctCounters(r: MetricRecord) {
    forall i, j :: 0 <= i < j < |r.counters| ==> r.counters[i].name != r.counters[j].name
  }

  // ------------------------------------------------- What the store keeps

  function StoredDouble(x: real): real {
    ValueAsRead(Double(x))
  }

  function StoredSeed(seed: U64): U64 {
    AsSeed(AsRead(SeedJson(seed)))
  }

  function StoredCounters(counters: seq<Counter>): (c: seq<Counter>)
    ensures |c| == |counters|
    ensures forall i :: 0 <= i < |c| ==> c[i] == Counter(counters[i].name, StoredDouble(counters[i].value))
  {
    seq(|counters|, i requires 0 <= i < |counters| => Counter(counters[i].name, StoredDouble(counters[i].value)))
  }

  /** The record as it comes back: everything as it was, numbers as the text keeps them. */
  function Stored(r: MetricRecord): MetricRecord {
    r.(seed := StoredSeed(r.seed),
       intensity := if r.intensity.Some? then Some(StoredDouble(r.intensity.value)) else None,
       counters := StoredCounters(r.counters))
  }

  /** Each of its numbers is in the range the reader takes. */
  predicate RecordReadable(r: MetricRecord) {
    && (r.intensity.Some? ==> IsReadable(Double(r.intensity.value)))
    && (forall i :: 0 <= i < |r.counters| ==> IsReadable(Double(r.counters[i].value)))
  }

  /** A seed near zero as a signed number, or of at most six digits and zeros. */
  predicate SeedKept(seed: U64) {
    var n := WholeDoubles.Absolute(AsLongLong(seed));
    n < WholeDoubles.EXACT_INTEGERS || WholeDoubles.HasSixDigits(n)
  }

  /** Seeds from 2^53 on are lost, save those that six digits can spell. */
  lemma SeedSurvivesIff(seed: U64)
    ensures StoredSeed(seed) == seed <==> SeedKept(seed)
  {
    hide WholeDoubles.WholeToDouble, WholeDoubles.HasSixDigits, AsReadNumber, AsInteger, IsReadable;
    var v := AsLongLong(seed);
    IntegerSurvivesIff(v);
    var read := AsInteger(AsReadNumber(Integer(WholeDoubles.WholeToDouble(v))));
    assert StoredSeed(seed) == read % WORDS;
    assert read % WORDS == if read < 0 then read + WORDS else read;
  }

  lemma SomeSeedIsLost()
    ensures StoredSeed(0x20_0000_0000_0001) != 0x20_0000_0000_0001
  {
    var n := 0x20_0000_0000_0001;
    assert WholeDoubles.Scale(9_007_199) == 1;
    assert WholeDoubles.Scale(900_719_925) == 3;
    assert WholeDoubles.Scale(90_071_992_547) == 5;
    assert WholeDoubles.Scale(9_007_199_254_740) == 7;
    assert WholeDoubles.Scale(900_719_925_474_099) == 9;
    assert WholeDoubles.Scale(n) == 10;
    assert Power10(5) == 100_000;
    assert Power10(10) == 10_000_000_000;
    SeedSurvivesIff(n);
  }

  /** A whole number below 10^15, or the double nearest to a decimal of at most six digits. */
  ghost predicate DoubleKept(x: real) {
    IsExact(Double(x)) || Doubles.IsSixDigitDouble(Doubles.Magnitude(x))
  }

  ghost predicate FiniteDouble(x: real) {
    Doubles.Magnitude(x) < Doubles.Overflow()
  }

  /** Any finite counter or intensity, whole or not, keeps its value exactly then. */
  lemma DoubleSurvivesIff(x: real)
    requires FiniteDouble(x)
    ensures IsReadable(Double(x)) && StoredDouble(x) == x <==> DoubleKept(x)
  {
    hide IsReadable, ValueAsRead, IsExact, Doubles.IsSixDigitDouble, Doubles.Overflow;
    KeptIff(Double(x));
  }

  /** 1024.53125 is printed as 1024.53. */
  lemma SomeCounterIsLost()
    ensures !(IsReadable(Double(1024.53125)) && StoredDouble(1024.53125) == 1024.53125)
  {
    hide Doubles.ToDouble, Doubles.LeastNormal, Doubles.DecimalValue, Doubles.Exponent, Doubles.Overflow;
    var x := 1024.53125;
    assert x.Floor == 1024;
    assert Doubles.Power(10.0, 3) == 1000.0 && Doubles.Power(10.0, 4) == 10000.0;
    assert Doubles.Power(10.0, -2) == 0.01;
    Doubles.ExponentUnique(10.0, x, 3);
    if Doubles.IsSixDigitDouble(x) {
      var m: nat, k: int :| 0 < m < 1_000_000 && Doubles.DecimalValue(m, k) >= Doubles.LeastNormal()
                            && x == Doubles.ToDouble(Doubles.DecimalValue(m, k));
      Doubles.DoubleIsNear(Doubles.DecimalValue(m, k));
      Doubles.NoDigitBehindTheSixth(m, k, x);
      var n := Doubles.MultipleOfPlace(m, k, -2);
      BetweenHundredths(n, x);
    }
    LargePowers();
    DoubleSurvivesIff(x);
  }

  lemma BetweenHundredths(n: nat, x: real)
    requires x == 1024.53125
    ensures (x - n as real * 0.01) * 2_000_000_000.0 > n as real * 0.01
         || (x - n as real * 0.01) * 2_000_000_000.0 < 0.0 - n as real * 0.01
  {
    assert n <= 102453 || n >= 102454;
  }

  ghost predicate Kept(r: MetricRecord) {
    && SeedKept(r.seed)
    && (r.intensity.Some? ==> DoubleKept(r.intensity.value))
    && (forall i :: 0 <= i < |r.counters| ==> DoubleKept(r.counters[i].value))
  }

  ghost predicate RecordFinite(r: MetricRecord) {
    && (r.intensity.Some? ==> FiniteDouble(r.intensity.value))
    && (forall i :: 0 <= i < |r.counters| ==> FiniteDouble(r.counters[i].value))
  }

  /** A record survives the store exactly when each of its numbers does. */
  lemma RecordSurvivesIff(r: MetricRecord)
    requires RecordFinite(r)
    ensures RecordReadable(r) && Stored(r) == r <==> Kept(r)
  {
    hide DoubleKept, SeedKept, StoredDouble, StoredSeed, IsReadable, FiniteDouble;
    SeedSurvivesIff(r.seed);
    if r.intensity.Some? {
      DoubleSurvivesIff(r.intensity.value);
    }
    forall i | 0 <= i < |r.counters|
      ensures IsReadable(Double(r.counters[i].value)) && StoredDouble(r.counters[i].value) == r.counters[i].value
              <==> DoubleKept(r.counters[i].value)
    {
      DoubleSurvivesIff(r.counters[i].value);
    }
    assert StoredCounters(r.counters) == r.counters <==>
      forall i :: 0 <= i < |r.counters| ==> StoredCounters(r.counters)[i] == r.counters[i];
  }

  /** Where a record key stands, told by its length and second letter. */
  function KeyRank(key: Text): nat
    requires |key| >= 2
  {
    if |key| == 4 then (if key[1] == 'y' then 0 else 8)
    else if |key| == 7 then (if key[1] == 'e' then 1 else 5)
    else if |key| == 5 then 2
    else if |key| == 10 then 3
    else if |key| == 8 then (if key[1] == 'e' then 4 else 13)
    else if |key| == 9 then (if key[1] == 'n' then 6 else 9)
    else if |key| == 15 then 7
    else if |key| == 18 then 11
    else if key[1] == 'n' then 10 else 12
  }

  lemma RecordKeysRanked(r: MetricRecord, i: nat)
    requires i < |ToMembers(r)|
    ensures |ToMembers(r)[i].key| >= 2
    ensures KeyRank(ToMembers(r)[i].key) == if r.intensity.None? && i >= 6 then i + 1 else i
  {
    hide CounterMembers;
  }

  lemma RecordKeysDistinct(r: MetricRecord)
    ensures DistinctKeys(ToMembers(r))
  {
    hide ToMembers, KeyRank;
    var m := ToMembers(r);
    forall i, j | 0 <= i < j < |m|
      ensures m[i].key != m[j].key
    {
      RecordKeysRanked(r, i);
      RecordKeysRanked(r, j);
    }
  }

  lemma CountersReadBack(counters: seq<Counter>)
    ensures CountersFrom(AsReadMembers(CounterMembers(counters))) == StoredCounters(counters)
  {
    hide AsReadNumber, ValueAsRead;
    forall i | 0 <= i < |counters|
      ensures RealOf(AsReadNumber(Double(counters[i].value))) == StoredDouble(counters[i].value)
    {
      AsReadHasTheValue(Double(counters[i].value));
    }
  }

  lemma {:induction false} CountersReadable(counters: seq<Counter>)
    ensures AllValuesReadable(CounterMembers(counters)) <==>
            forall i :: 0 <= i < |counters| ==> IsReadable(Double(counters[i].value))
  {
    hide IsReadable;
    if counters != [] {
      CountersReadable(counters[1..]);
      assert CounterMembers(counters)[1..] == CounterMembers(counters[1..]);
    }
  }

  lemma {:induction false} ValuesReadable(members: seq<Member>)
    ensures AllValuesReadable(members) <==> forall i :: 0 <= i < |members| ==> Readable(members[i].value)
  {
    hide Readable;
    if members != [] {
      ValuesReadable(members[1..]);
    }
  }

  lemma ToJsonReadable(r: MetricRecord)
    ensures Readable(ToJson(r)) <==> RecordReadable(r)
  {
    hide IsReadable, AllValuesReadable, CounterMembers, SeverityName, OutcomeName, WholeDoubles.WholeToDouble;
    var m, k := ToMembers(r), if r.intensity.Some? then 1 else 0;
    ValuesReadable(m);
    CountersReadable(r.counters);
    IntegerSurvivesIff(AsLongLong(r.seed));
    assert m[12 + k].value == Obj(CounterMembers(r.counters));
    assert r.intensity.Some? ==> m[6].value == Num(Double(r.intensity.value));
    assert Readable(Obj(m)) <==> AllValuesReadable(m);
  }

  lemma RecordIsWritable(r: MetricRecord)
    requires HasDistinctCounters(r)
    ensures Writable(ToJson(r)) && ToJson(r).Obj?
  {
    hide SeverityName, OutcomeName, WholeDoubles.WholeToDouble;
    RecordKeysDistinct(r);
    var c := CounterMembers(r.counters);
    assert DistinctKeys(c);
    assert Writable(Obj(c));
  }

  /** Reading back changes no key and nothing but numbers. */
  lemma {:induction false} LookupAsRead(members: seq<Member>, key: Text)
    ensures At(AsReadMembers(members), key) == AsRead(At(members, key))
    ensures Has(AsReadMembers(members), key) <==> Has(members, key)
  {
    if members != [] {
      LookupAsRead(members[1..], key);
    }
    assert forall i :: 0 <= i < |members| ==> AsReadMembers(members)[i].key == members[i].key;
  }

  /** Looking up the first keys finds what the record says. */
  predicate HeadShows(m: seq<Member>, r: MetricRecord) {
    && Has(m, "type") && At(m, "type") == Str("metric")
    && At(m, "test_id") == Str(r.testId) && At(m, "title") == Str(r.title) && At(m, "rfc_clause") == Str(r.rfcClause)
    && Has(m, "severity") && At(m, "severity") == Str(SeverityName(r.severity))
    && Has(m, "outcome") && At(m, "outcome") == Str(OutcomeName(r.outcome))
  }

  /** And so for the last, numbers apart. */
  predicate TailShows(m: seq<Member>, r: MetricRecord) {
    && At(m, "intensity_label") == Str(r.intensityLabel) && At(m, "narrative") == Str(r.narrative)
    && At(m, "integrity_violation") == Bool(r.integrityViolation)
    && At(m, "ungraceful_failure") == Bool(r.ungracefulFailure)
    && At(m, "implementation_name") == Str(r.implementationName)
  }

  /** The numbers, as given. */
  predicate NumbersShow(m: seq<Member>, intensity: Option<Json>, seed: Json, counters: Json) {
    && (intensity.Some? ==> Has(m, "intensity") && At(m, "intensity") == intensity.value)
    && (intensity.None? ==> !Has(m, "intensity"))
    && At(m, "seed") == seed && At(m, "counters") == counters
  }

  function IntensityJson(r: MetricRecord): Option<Json> {
    if r.intensity.Some? then Some(Num(Double(r.intensity.value))) else None
  }

  function ReadIntensity(r: MetricRecord): Option<Json> {
    if r.intensity.Some? then Some(Num(AsReadNumber(Double(r.intensity.value)))) else None
  }

  lemma HeadLookups(r: MetricRecord)
    ensures HeadShows(ToMembers(r), r)
  {
    hide At, CounterMembers, SeverityName, OutcomeName, KeyRank, DistinctKeys, SeedJson;
    var m := ToMembers(r);
    RecordKeysDistinct(r);
    AtIndex(m, 0);
    AtIndex(m, 1);
    AtIndex(m, 2);
    AtIndex(m, 3);
    AtIndex(m, 4);
    AtIndex(m, 5);
  }

  lemma TailLookups(r: MetricRecord)
    ensures TailShows(ToMembers(r), r)
  {
    hide At, CounterMembers, SeverityName, OutcomeName, KeyRank, DistinctKeys, SeedJson;
    var m, k := ToMembers(r), if r.intensity.Some? then 1 else 0;
    RecordKeysDistinct(r);
    AtIndex(m, 6 + k);
    AtIndex(m, 8 + k);
    AtIndex(m, 9 + k);
    AtIndex(m, 10 + k);
    AtIndex(m, 11 + k);
  }

  lemma NumberLookups(r: MetricRecord)
    ensures NumbersShow(ToMembers(r), IntensityJson(r), SeedJson(r.seed), Obj(CounterMembers(r.counters)))
  {
    hide At, CounterMembers, SeverityName, OutcomeName, KeyRank, DistinctKeys, SeedJson;
    var m, k := ToMembers(r), if r.intensity.Some? then 1 else 0;
    RecordKeysDistinct(r);
    AtIndex(m, 6);
    AtIndex(m, 7 + k);
    AtIndex(m, 12 + k);
    if r.intensity.None? {
      NoIntensityKey(r);
    }
  }

  lemma NoIntensityKey(r: MetricRecord)
    requires r.intensity.None?
    ensures !Has(ToMembers(r), "intensity")
  {
    hide ToMembers, KeyRank;
    var m := ToMembers(r);
    forall i | 0 <= i < |m|
      ensures m[i].key != "intensity"
    {
      RecordKeysRanked(r, i);
      IntensityRank();
    }
  }

  lemma IntensityRank()
    ensures KeyRank("intensity") == 6
  {
  }

  /** Reading back changes none of these but the numbers. */
  lemma ShownAsRead(m: seq<Member>, r: MetricRecord)
    requires HeadShows(m, r) && TailShows(m, r)
    ensures HeadShows(AsReadMembers(m), r) && TailShows(AsReadMembers(m), r)
  {
    hide At, Has, AsReadMembers, AsReadNumber, SeverityName, OutcomeName;
    LookupsAsRead(m);
  }

  lemma NumbersAsRead(m: seq<Member>, r: MetricRecord)
    requires NumbersShow(m, IntensityJson(r), SeedJson(r.seed), Obj(CounterMembers(r.counters)))
    ensures NumbersShow(AsReadMembers(m), ReadIntensity(r), AsRead(SeedJson(r.seed)),
                        Obj(AsReadMembers(CounterMembers(r.counters))))
  {
    hide At, Has, AsReadMembers, AsReadNumber, SeedJson, CounterMembers;
    LookupsAsRead(m);
  }

  /** The same of a record read back, its numbers as read. */
  lemma ReadLookups(r: MetricRecord)
    ensures var m := AsReadMembers(ToMembers(r));
      && HeadShows(m, r) && TailShows(m, r)
      && NumbersShow(m, ReadIntensity(r), AsRead(SeedJson(r.seed)), Obj(AsReadMembers(CounterMembers(r.counters))))
  {
    hide *;
    HeadLookups(r);
    TailLookups(r);
    ShownAsRead(ToMembers(r), r);
    NumberLookups(r);
    NumbersAsRead(ToMembers(r), r);
  }

  /** A record read back from the JSON it was written as. */
  lemma RecordReadsBack(r: MetricRecord)
    ensures FromJson(AsRead(ToJson(r))) == Stored(r)
  {
    hide At, Has, ToMembers, CounterMembers, CountersFrom, AsReadMembers, AsReadNumber, SeverityFromName, OutcomeFromName,
         SeverityName, OutcomeName, SeedJson;
    assert MembersOf(AsRead(ToJson(r))) == AsReadMembers(ToMembers(r));
    ReadLookups(r);
    NamesReadBack(r.outcome, r.severity);
    CountersReadBack(r.counters);
    if r.intensity.Some? {
      AsReadHasTheValue(Double(r.intensity.value));
    }
    hide AsRead, ValueAsRead, RealOf;
  }

  lemma LookupsAsRead(members: seq<Member>)
    ensures forall key: Text {:trigger At(AsReadMembers(members), key)} ::
              At(AsReadMembers(members), key) == AsRead(At(members, key))
    ensures forall key: Text {:trigger Has(AsReadMembers(members), key)} ::
              Has(AsReadMembers(members), key) <==> Has(members, key)
  {
    forall key: Text
      ensures At(AsReadMembers(members), key) == AsRead(At(members, key))
      ensures Has(AsReadMembers(members), key) <==> Has(members, key)
    {
      LookupAsRead(members, key);
    }
  }

  lemma NextMember(r: MetricRecord, i: nat)
    requires i < |ToMembers(r)|
    ensures var m := ToMembers(r);
      && SetMember(m[..i], m[i].key, m[i].value) == m[..i + 1]
      && m[..i + 1] == m[..i] + [m[i]]
  {
    hide ToMembers;
    var m := ToMembers(r);
    RecordKeysDistinct(r);
    SetAppends(m[..i], m[i].key, m[i].value);
    assert m[..i + 1] == m[..i] + [m[i]];
  }

  /** Fills the counters' object as the map is walked. */
  method CountersToJson(counters: seq<Counter>) returns (members: seq<Member>)
    requires forall i, j :: 0 <= i < j < |counters| ==> counters[i].name != counters[j].name
    ensures members == CounterMembers(counters)
  {
    members := [];
    for n := 0 to |counters|
      invariant members == CounterMembers(counters)[..n]
    {
      SetAppends(members, counters[n].name, Num(Double(counters[n].value)));
      members := SetMember(members, counters[n].name, Num(Double(counters[n].value)));
    }
  }

  method StartJson(r: MetricRecord) returns (record: seq<Member>)
    ensures record == ToMembers(r)[..if r.intensity.Some? then 7 else 6]
  {
    hide SetMember, CounterMembers, SeverityName, OutcomeName;
    record := [];
    NextMember(r, 0);
    record := SetMember(record, "type", Str("metric"));
    NextMember(r, 1);
    record := SetMember(record, "test_id", Str(r.testId));
    NextMember(r, 2);
    record := SetMember(record, "title", Str(r.title));
    NextMember(r, 3);
    record := SetMember(record, "rfc_clause", Str(r.rfcClause));
    NextMember(r, 4);
    record := SetMember(record, "severity", Str(SeverityName(r.severity)));
    NextMember(r, 5);
    record := SetMember(record, "outcome", Str(OutcomeName(r.outcome)));
    if r.intensity.Some? {
      NextMember(r, 6);
      record := SetMember(record, "intensity", Num(Double(r.intensity.value)));
    }
  }

  /** Sets one member after another; the record's own keys never meet. */
  method RecordToJson(r: MetricRecord) returns (v: Json)
    requires HasDistinctCounters(r)
    ensures v == ToJson(r)
  {
    hide SetMember, CounterMembers, SeverityName, OutcomeName;
    ghost var k := if r.intensity.Some? then 1 else 0;
    var record := StartJson(r);
    NextMember(r, 6 + k);
    record := SetMember(record, "intensity_label", Str(r.intensityLabel));
    NextMember(r, 7 + k);
    record := SetMember(record, "seed", SeedJson(r.seed));
    NextMember(r, 8 + k);
    record := SetMember(record, "narrative", Str(r.narrative));
    NextMember(r, 9 + k);
    record := SetMember(record, "integrity_violation", Bool(r.integrityViolation));
    NextMember(r, 10 + k);
    record := SetMember(record, "ungraceful_failure", Bool(r.ungracefulFailure));
    NextMember(r, 11 + k);
    record := SetMember(record, "implementation_name", Str(r.implementationName));
    var counters := CountersToJson(r.counters);
    NextMember(r, 12 + k);
    record := SetMember(record, "counters", Obj(counters));
    v := Obj(record);
  }
}
