/**
 Numbers in JSON text (src/metrics/json_writer.cpp, `format_number` and
 `parse_number`): what is printed for a finite double, what the reader makes of
 it, and which doubles keep their value.
 */
module JsonNumbers {
  import opened Basics
  import opened Doubles
  import opened WholeDoubles
  import D = Decimal

  // A number is a double; one made as an integer carries a flag, and is whole.
  datatype Number = Integer(value: int) | Double(x: real)

  function RealOf(n: Number): real {
    match n
    case Integer(value) => value as real
    case Double(x) => x
  }

  predicate IsWhole(x: real) {
    x.Floor as real == x
  }

  // -------------------------------------------------------------- Printing

  /** Printed in full, by std::to_string. */
  predicate IsExact(n: Number) {
    match n
    case Integer(value) => Absolute(value) < EXACT_INTEGERS
    case Double(x) => IsWhole(x) && Magnitude(x) < EXACT_DOUBLES as real
  }

  function StripZeros(m: Positive): Positive {
    if m % 10 == 0 then StripZeros(m / 10) else m
  }

  function ZeroDigits(n: nat): (t: Text)
    ensures |t| == n && D.AllDigits(t)
  {
    seq(n, _ => '0')
  }

  /** At least two digits of exponent. */
  function ExponentMark(e: int): Text {
    (if e < 0 then "e-" else "e+") + ExponentDigits(Absolute(e))
  }

  predicate InFixedNotation(e: int) {
    -4 <= e < 6
  }

  /** The layout of %g for these digits, the first of them at place e. */
  function GeneralText(digits: Text, e: int): Text
    requires digits != []
  {
    if !InFixedNotation(e) then
      digits[..1] + (if |digits| > 1 then "." + (digits[1..] + ExponentMark(e)) else ExponentMark(e))
    else if e < 0 then "0" + ("." + (ZeroDigits(-e - 1) + digits))
    else if |digits| <= e + 1 then digits + ZeroDigits(e + 1 - |digits|)
    else digits[..e + 1] + ("." + digits[e + 1..])
  }

  function SixDigitText(x: Measure): (t: Text)
    ensures t != [] && D.AllDigits(t)
  {
    MantissaBounds(x);
    D.Digits(StripZeros(SixMantissa(x)))
  }

  /** The place of the first digit once rounded. */
  function LeadingPlace(x: Measure): int {
    Exponent(10.0, x) - 5 + |D.Digits(SixMantissa(x))| - 1
  }

  /** %.6g */
  function SixDigits(x: real): Text
    requires x != 0.0
  {
    var a := Magnitude(x);
    (if x < 0.0 then "-" else "") + GeneralText(SixDigitText(a), LeadingPlace(a))
  }

  function NumberText(n: Number): Text {
    if IsExact(n) then D.ToString(RealOf(n).Floor) else SixDigits(RealOf(n))
  }

  // --------------------------------------------------------------- Reading

  predicate IsNumberChar(c: char) {
    D.IsDigit(c) || c == '-' || c == '+' || c == '.' || c == 'e' || c == 'E'
  }

  predicate HasFractionMark(token: Text) {
    exists i :: 0 <= i < |token| && (token[i] == '.' || token[i] == 'e' || token[i] == 'E')
  }

  function Unsigned(token: Text): Text {
    if token != [] && (token[0] == '-' || token[0] == '+') then token[1..] else token
  }

  predicate IsNegative(token: Text) {
    token != [] && token[0] == '-'
  }

  /** std::stod converts a token that begins, after a sign, with a digit or a point and a digit. */
  predicate StodAccepts(token: Text) {
    var u := Unsigned(token);
    (u != [] && D.IsDigit(u[0])) || (|u| > 1 && u[0] == '.' && D.IsDigit(u[1]))
  }

  /** mantissa * 10^exponent */
  datatype Decimal = Decimal(mantissa: nat, exponent: int)

  function ReadExponent(t: Text): int {
    if t == [] || (t[0] != 'e' && t[0] != 'E') then 0
    else
      var digits := Unsigned(t[1..]);
      var n: int := D.Value(digits[..D.DigitRun(digits)]);
      if |t| > 1 && t[1] == '-' then -n else n
  }

  /** The longest part std::stod understands, its sign apart. */
  function ReadDecimal(token: Text): Decimal {
    var u := Unsigned(token);
    var whole := u[..D.DigitRun(u)];
    var rest := u[|whole|..];
    if rest != [] && rest[0] == '.' then
      var fraction := rest[1..][..D.DigitRun(rest[1..])];
      Decimal(D.Value(whole + fraction), ReadExponent(rest[1 + |fraction|..]) - |fraction|)
    else Decimal(D.Value(whole), ReadExponent(rest))
  }

  function Size(d: Decimal): real {
    DecimalValue(d.mantissa, d.exponent)
  }

  /** std::stod throws out_of_range above the largest double and, for what is not zero, below the least normal one. */
  predicate InRange(x: real) {
    x == 0.0 || (LeastNormal() <= x && ToDouble(x) < Overflow())
  }

  /** An integer unless a point or an exponent was written; otherwise a plain double. */
  function ReadNumber(token: Text): Option<Number> {
    if !StodAccepts(token) || !InRange(Size(ReadDecimal(token))) then None
    else
      var x := Negated(IsNegative(token), ToDouble(Size(ReadDecimal(token))));
      Some(if HasFractionMark(token) then Double(x) else Integer(x.Floor))
  }

  // ------------------------------------------------------ What is read back

  /** Printed by %.6g without point and exponent. */
  predicate PrintsPlain(x: Measure) {
    0 <= LeadingPlace(x) < 6 && |SixDigitText(x)| <= LeadingPlace(x) + 1
  }

  /** The value of what was printed. */
  function ValueAsRead(n: Number): real {
    var x := RealOf(n);
    if IsExact(n) then x else Negated(x < 0.0, ToDouble(Rounded6(Magnitude(x))))
  }

  predicate IsReadable(n: Number) {
    IsExact(n) || InRange(Rounded6(Magnitude(RealOf(n))))
  }

  /** The number the reader makes of a printed number. */
  function AsReadNumber(n: Number): Number {
    if IsExact(n) || PrintsPlain(Magnitude(RealOf(n))) then Integer(ValueAsRead(n).Floor)
    else Double(ValueAsRead(n))
  }

  // -------------------------------------------------- Reading decimal text

  lemma {:induction false} ZerosInFront(n: nat, t: Text)
    requires D.AllDigits(t)
    ensures D.AllDigits(ZeroDigits(n) + t) && D.Value(ZeroDigits(n) + t) == D.Value(t)
    decreases |t| + n
  {
    var u := ZeroDigits(n) + t;
    if t != [] {
      var front := t[..|t| - 1];
      assert u[..|u| - 1] == ZeroDigits(n) + front;
      ZerosInFront(n, front);
    } else if n > 0 {
      assert u[..|u| - 1] == ZeroDigits(n - 1) + [];
      ZerosInFront(n - 1, []);
    }
  }

  lemma {:induction false} ZerosBehind(t: Text, n: nat)
    requires D.AllDigits(t)
    ensures D.AllDigits(t + ZeroDigits(n)) && D.Value(t + ZeroDigits(n)) == TimesPower10(D.Value(t), n)
  {
    var u := t + ZeroDigits(n);
    if n > 0 {
      assert u[..|u| - 1] == t + ZeroDigits(n - 1);
      ZerosBehind(t, n - 1);
    } else {
      assert u == t;
    }
  }

  /** The exponent without its sign. */
  function ExponentDigits(n: nat): Text {
    (if n < 10 then "0" else "") + D.Digits(n)
  }

  lemma ExponentDigitsRead(n: nat)
    ensures D.AllDigits(ExponentDigits(n)) && ExponentDigits(n) != [] && D.Value(ExponentDigits(n)) == n
  {
    hide D.Digits, D.Value, D.DigitRun;
    D.DigitsReadBack(n);
    ZerosInFront(1, D.Digits(n));
    assert n < 10 ==> ExponentDigits(n) == ZeroDigits(1) + D.Digits(n);
    assert n >= 10 ==> ExponentDigits(n) == D.Digits(n);
  }

  lemma ExponentReads(e: int)
    ensures ReadExponent(ExponentMark(e)) == e
  {
    hide D.Value, D.DigitRun, ExponentDigits;
    var digits := ExponentDigits(Absolute(e));
    ExponentDigitsRead(Absolute(e));
    var t := ExponentMark(e);
    D.DigitRunUnique(digits, |digits|);
    assert t[1..] == (if e < 0 then "-" else "+") + digits;
    assert Unsigned(t[1..]) == digits;
    assert digits[..|digits|] == digits;
  }

  lemma MarkIsNumberChars(e: int)
    ensures forall i :: 0 <= i < |ExponentMark(e)| ==> IsNumberChar(ExponentMark(e)[i])
  {
    hide ExponentDigits, D.Value;
    ExponentDigitsRead(Absolute(e));
  }

  lemma ReadsPoint(token: Text, head: Text, tail: Text, mark: Text)
    requires Unsigned(token) == head + ("." + (tail + mark))
    requires D.AllDigits(head) && D.AllDigits(tail) && (mark == [] || mark[0] == 'e')
    ensures ReadDecimal(token) == Decimal(D.Value(head + tail), ReadExponent(mark) - |tail|)
  {
    hide D.Value, D.DigitRun, ReadExponent;
    var u := Unsigned(token);
    var rest := "." + (tail + mark);
    D.DigitRunUnique(u, |head|);
    assert u[..|head|] == head && u[|head|..] == rest;
    assert rest[1..] == tail + mark;
    D.DigitRunUnique(tail + mark, |tail|);
    assert (tail + mark)[..|tail|] == tail && rest[1 + |tail|..] == mark;
  }

  lemma ReadsNoPoint(token: Text, head: Text, mark: Text)
    requires Unsigned(token) == head + mark
    requires D.AllDigits(head) && (mark == [] || mark[0] == 'e')
    ensures ReadDecimal(token) == Decimal(D.Value(head), ReadExponent(mark))
  {
    hide D.Value, D.DigitRun, ReadExponent;
    var u := Unsigned(token);
    D.DigitRunUnique(u, |head|);
    assert u[..|head|] == head && u[|head|..] == mark;
  }

  lemma ShiftedValue(m: nat, j: nat, k: int)
    ensures DecimalValue(TimesPower10(m, j), k) == DecimalValue(m, j + k)
  {
    hide Power;
    TimesPower10IsProduct(m, j);
    WholePowerIsPower(j);
    PowerSum(10.0, j, k);
    var a, b, c := m as real, Power10(j) as real, Power(10.0, k);
    assert TimesPower10(m, j) as real == a * b;
    assert a * b * c == a * (b * c);
  }

  lemma ReadsScientific(token: Text, digits: Text, e: int)
    requires digits != [] && D.AllDigits(digits) && !InFixedNotation(e)
    requires Unsigned(token) == GeneralText(digits, e)
    ensures ReadDecimal(token) == Decimal(D.Value(digits), e + 1 - |digits|)
  {
    hide D.Value, ReadDecimal, ReadExponent, ExponentMark, Unsigned;
    ExponentReads(e);
    MarkBegins(e);
    if |digits| > 1 {
      ReadsPoint(token, digits[..1], digits[1..], ExponentMark(e));
      assert digits[..1] + digits[1..] == digits;
    } else {
      assert digits[..1] == digits;
      ReadsNoPoint(token, digits, ExponentMark(e));
    }
  }

  lemma ReadsSmall(token: Text, digits: Text, e: int)
    requires digits != [] && D.AllDigits(digits) && -4 <= e < 0
    requires Unsigned(token) == GeneralText(digits, e)
    ensures ReadDecimal(token) == Decimal(D.Value(digits), e + 1 - |digits|)
  {
    var tail := ZeroDigits(-e - 1) + digits;
    assert Unsigned(token) == "0" + ("." + (tail + [])) by {
      assert tail + [] == tail;
    }
    ZerosInFront(-e - 1, digits);
    ZerosInFront(1, tail);
    assert ZeroDigits(1) == "0";
    hide D.Value, ReadDecimal, ReadExponent, Unsigned, GeneralText, ZeroDigits;
    NoExponent();
    ReadsPoint(token, "0", tail, []);
  }

  lemma ReadsPlain(token: Text, digits: Text, e: int)
    requires digits != [] && D.AllDigits(digits) && 0 <= e < 6 && |digits| <= e + 1
    requires Unsigned(token) == GeneralText(digits, e)
    ensures ReadDecimal(token) == Decimal(TimesPower10(D.Value(digits), e + 1 - |digits|), 0)
  {
    hide D.Value, ReadDecimal, ReadExponent, Unsigned;
    NoExponent();
    var whole := digits + ZeroDigits(e + 1 - |digits|);
    assert whole + [] == whole;
    ZerosBehind(digits, e + 1 - |digits|);
    ReadsNoPoint(token, whole, []);
  }

  lemma MixedParts(digits: Text, e: int)
    requires D.AllDigits(digits) && 0 <= e < 6 && |digits| > e + 1
    ensures GeneralText(digits, e) == digits[..e + 1] + ("." + (digits[e + 1..] + []))
    ensures digits[..e + 1] + digits[e + 1..] == digits
    ensures D.AllDigits(digits[..e + 1]) && D.AllDigits(digits[e + 1..])
  {
    assert digits[e + 1..] + [] == digits[e + 1..];
  }

  lemma ReadsMixed(token: Text, digits: Text, e: int)
    requires digits != [] && D.AllDigits(digits) && 0 <= e < 6 && |digits| > e + 1
    requires Unsigned(token) == GeneralText(digits, e)
    ensures ReadDecimal(token) == Decimal(D.Value(digits), e + 1 - |digits|)
  {
    hide D.Value, ReadDecimal, ReadExponent, Unsigned, GeneralText, D.AllDigits;
    NoExponent();
    MixedParts(digits, e);
    ReadsPoint(token, digits[..e + 1], digits[e + 1..], []);
  }

  /** Whatever the layout, the text reads as its digits with the first of them at place e. */
  lemma GeneralReads(token: Text, digits: Text, e: int)
    requires digits != [] && D.AllDigits(digits) && Unsigned(token) == GeneralText(digits, e)
    ensures Size(ReadDecimal(token)) == DecimalValue(D.Value(digits), e + 1 - |digits|)
  {
    hide D.Value, ReadDecimal, DecimalValue, Unsigned, GeneralText;
    if !InFixedNotation(e) {
      ReadsScientific(token, digits, e);
    } else if e < 0 {
      ReadsSmall(token, digits, e);
    } else if |digits| <= e + 1 {
      ReadsPlain(token, digits, e);
      ShiftedValue(D.Value(digits), e + 1 - |digits|, 0);
    } else {
      ReadsMixed(token, digits, e);
    }
  }

  lemma NoExponent()
    ensures ReadExponent([]) == 0
  {
  }

  lemma MarkBegins(e: int)
    ensures ExponentMark(e) != [] && ExponentMark(e)[0] == 'e'
  {
  }

  lemma GeneralShape(digits: Text, e: int)
    requires digits != [] && D.AllDigits(digits)
    ensures var u := GeneralText(digits, e);
      && u != [] && D.IsDigit(u[0]) && (forall i :: 0 <= i < |u| ==> IsNumberChar(u[i]))
      && (HasFractionMark(u) <==> !(0 <= e < 6 && |digits| <= e + 1))
  {
    hide D.Digits, ExponentMark;
    var u := GeneralText(digits, e);
    MarkIsNumberChars(e);
    MarkBegins(e);
    if !InFixedNotation(e) {
      assert u[if |digits| > 1 then |digits| + 1 else 1] == 'e';
    } else if e < 0 {
      assert u[1] == '.';
    } else if |digits| > e + 1 {
      assert u[e + 1] == '.';
    }
  }

  // ------------------------------------------------------------ Round trip

  /** Stripping zeros costs as many digits as it divides by ten. */
  lemma {:induction false} StrippedZeros(m: Positive) returns (j: nat)
    ensures m == TimesPower10(StripZeros(m), j)
    ensures |D.Digits(m)| == |D.Digits(StripZeros(m))| + j
  {
    if m % 10 == 0 {
      j := StrippedZeros(m / 10);
      j := j + 1;
    } else {
      j := 0;
    }
  }

  /** The digits printed stand for the number rounded to six of them. */
  lemma SixDigitsStandFor(x: Measure)
    ensures DecimalValue(D.Value(SixDigitText(x)), LeadingPlace(x) + 1 - |SixDigitText(x)|) == Rounded6(x)
  {
    hide D.Digits, D.Value, Power, Exponent, Nearest;
    MantissaBounds(x);
    var n, place := SixMantissa(x), Exponent(10.0, x) - 5;
    D.ValueOfDigits(StripZeros(n));
    var j := StrippedZeros(n);
    ShiftedValue(StripZeros(n), j, place);
  }

  lemma SignedToken(x: real)
    requires x != 0.0
    ensures var a := Magnitude(x);
      && Unsigned(SixDigits(x)) == GeneralText(SixDigitText(a), LeadingPlace(a))
      && IsNegative(SixDigits(x)) == (x < 0.0)
      && StodAccepts(SixDigits(x)) && SixDigits(x) != []
      && (forall i :: 0 <= i < |SixDigits(x)| ==> IsNumberChar(SixDigits(x)[i]))
      && (HasFractionMark(SixDigits(x)) <==> !PrintsPlain(a))
  {
    hide SixDigitText, LeadingPlace, GeneralText;
    var a := Magnitude(x);
    var u := GeneralText(SixDigitText(a), LeadingPlace(a));
    GeneralShape(SixDigitText(a), LeadingPlace(a));
    if x < 0.0 {
      assert SixDigits(x) == "-" + u;
      MarkBehindSign(u);
    } else {
      assert SixDigits(x) == u;
    }
  }

  lemma MarkBehindSign(u: Text)
    ensures HasFractionMark("-" + u) <==> HasFractionMark(u)
  {
    var token := "-" + u;
    assert forall i :: 0 <= i < |u| ==> token[i + 1] == u[i];
    if HasFractionMark(token) {
      var i :| 0 <= i < |token| && (token[i] == '.' || token[i] == 'e' || token[i] == 'E');
      assert u[i - 1] == token[i];
    }
  }

  lemma SixDigitsReadBack(x: real)
    requires x != 0.0
    ensures ReadNumber(SixDigits(x)) ==
            if !InRange(Rounded6(Magnitude(x))) then None
            else
              var y := Negated(x < 0.0, ToDouble(Rounded6(Magnitude(x))));
              Some(if PrintsPlain(Magnitude(x)) then Integer(y.Floor) else Double(y))
  {
    hide SixDigitText, LeadingPlace, GeneralText, SixDigits, ToDouble, Rounded6, InRange, ReadDecimal, D.Value,
         HasFractionMark, IsNegative, StodAccepts, DecimalValue, PrintsPlain, Unsigned;
    var a := Magnitude(x);
    SignedToken(x);
    GeneralReads(SixDigits(x), SixDigitText(a), LeadingPlace(a));
    SixDigitsStandFor(a);
  }

  lemma SmallIsInRange(n: nat)
    requires n < EXACT_INTEGERS
    ensures ToDouble(n as real) == n as real && InRange(n as real)
  {
    hide Power, ToDouble;
    DoubleAgrees(n);
    SpacingOfSmall(n);
    NearestIsMultiple(n, 1);
    PowerZero(2.0);
    PowerGrows(2.0, -1022, 0);
    ManyPowersOfTwo();
    PowerGrows(2.0, 53, 1024);
  }

  lemma FloorOfWhole(n: int)
    ensures (n as real).Floor == n && (-(n as real)).Floor == -n
  {
    assert -(n as real) == (-n) as real;
  }

  lemma ExactReadsBack(v: int)
    requires Absolute(v) < EXACT_INTEGERS
    ensures ReadNumber(D.ToString(v)) == Some(Integer(v)) && D.ToString(v) != []
    ensures forall i :: 0 <= i < |D.ToString(v)| ==> IsNumberChar(D.ToString(v)[i])
  {
    hide D.Digits, D.Value, D.DigitRun, ToDouble, InRange, ReadDecimal, ReadExponent;
    var token, digits := D.ToString(v), D.Digits(Absolute(v));
    D.DigitsReadBack(Absolute(v));
    assert digits + [] == digits;
    assert Unsigned(token) == digits;
    ReadsNoPoint(token, digits, []);
    NoExponent();
    PowerZero(10.0);
    SmallIsInRange(Absolute(v));
    FloorOfWhole(Absolute(v));
    assert forall i :: 0 <= i < |token| ==> token[i] == '-' || D.IsDigit(token[i]);
  }

  /** Every finite number is printed as a token, and read back as said unless its six digits leave the normal range. */
  lemma NumberReadsBack(n: Number)
    ensures ReadNumber(NumberText(n)) == if IsReadable(n) then Some(AsReadNumber(n)) else None
    ensures NumberText(n) != [] && forall i :: 0 <= i < |NumberText(n)| ==> IsNumberChar(NumberText(n)[i])
  {
    hide ReadNumber, ToDouble, Rounded6, SixDigits, InRange, PrintsPlain, D.ToString;
    if IsExact(n) {
      ExactReadsBack(RealOf(n).Floor);
    } else {
      SixDigitsReadBack(RealOf(n));
      SignedToken(RealOf(n));
    }
  }

  // ------------------------------------------------- Exactly what survives

  /** A plain token stands for a whole number below a million. */
  lemma PlainIsWhole(x: Measure)
    requires PrintsPlain(x)
    ensures IsWhole(ToDouble(Rounded6(x))) && x < 1_000_000.0
  {
    hide Power, Exponent, SixDigitText, ToDouble, D.Value, D.Digits, Rounded6, DecimalValue, SixMantissa;
    SixDigitsStandFor(x);
    var z := LeadingPlace(x) + 1 - |SixDigitText(x)|;
    var w := TimesPower10(D.Value(SixDigitText(x)), z);
    ShiftedValue(D.Value(SixDigitText(x)), z, 0);
    WholeValue(w);
    DoubleAgrees(w);
    LargeLeads(x);
  }

  lemma WholeValue(w: nat)
    ensures DecimalValue(w, 0) == w as real
  {
    PowerZero(10.0);
  }

  lemma {:induction false} DigitsAtLeast(n: nat, k: nat)
    requires n >= Power10(k)
    ensures |D.Digits(n)| >= k + 1
  {
    if k > 0 {
      DigitsAtLeast(n / 10, k - 1);
    }
  }

  lemma LargeLeads(x: Measure)
    ensures x >= 1_000_000.0 ==> LeadingPlace(x) >= 6
  {
    hide Power, Exponent, D.Digits, SixMantissa;
    MantissaBounds(x);
    assert Power10(3) == 1000;
    DigitsAtLeast(SixMantissa(x), 5);
    PowersInUse();
    var e := Exponent(10.0, x);
    if e < 5 {
      PowerGrows(10.0, e + 1, 6);
    }
  }

  /** The number read back has the value of what was printed. */
  lemma AsReadHasTheValue(n: Number)
    ensures RealOf(AsReadNumber(n)) == ValueAsRead(n)
  {
    hide ToDouble, Rounded6, PrintsPlain;
    var x := RealOf(n);
    if IsExact(n) {
      NegatedWhole(x);
    } else if PrintsPlain(Magnitude(x)) {
      PlainIsWhole(Magnitude(x));
      NegatedWhole(ToDouble(Rounded6(Magnitude(x))));
    }
  }

  lemma NegatedWhole(x: real)
    requires IsWhole(x)
    ensures IsWhole(-x)
  {
    var n := x.Floor;
    assert -x == (-n) as real;
  }

  predicate IsFinite(n: Number) {
    Magnitude(RealOf(n)) < Overflow()
  }

  /** Not lost and not changed. */
  predicate IsKept(n: Number) {
    IsReadable(n) && ValueAsRead(n) == RealOf(n)
  }

  lemma RoundedIsMeasure(x: Measure)
    ensures Rounded6(x) > 0.0
  {
    hide Power, Exponent, Nearest;
    MantissaBounds(x);
    Scaled(1.0, SixMantissa(x) as real, SixthPlace(x));
  }

  /** A number keeps its value exactly when it is printed in full or is the double nearest to a six-digit decimal. */
  lemma KeptIff(n: Number)
    requires IsFinite(n)
    ensures IsKept(n) <==> IsExact(n) || IsSixDigitDouble(Magnitude(RealOf(n)))
  {
    hide ToDouble, Rounded6, Overflow, LeastNormal, IsSixDigitDouble;
    if !IsExact(n) {
      var a := Magnitude(RealOf(n));
      RoundedIsMeasure(a);
      SixDigitDoubleIsNormal(a);
      if Rounded6(a) >= LeastNormal() {
        SixDigitsSufficeIff(a);
      }
    }
  }

  lemma SixDigitDoubleIsNormal(x: Measure)
    ensures IsSixDigitDouble(x) ==> Rounded6(x) >= LeastNormal()
  {
    hide ToDouble, Rounded6, LeastNormal, DecimalValue;
    if IsSixDigitDouble(x) {
      var m: nat, k: int :| 0 < m < 1_000_000 && DecimalValue(m, k) >= LeastNormal() && x == ToDouble(DecimalValue(m, k));
      SixDigitsSurvive(m, k);
    }
  }

  /** An integer below 2^53, or a double not printed as one and nearest to a six-digit decimal. */
  ghost predicate KeepsForm(n: Number) {
    match n
    case Integer(_) => IsExact(n)
    case Double(x) => !IsExact(n) && IsSixDigitDouble(Magnitude(x))
  }

  /** A number is read back as the very same JSON value, integer flag included, exactly under that condition. */
  lemma IntactIff(n: Number)
    requires IsFinite(n)
    ensures IsReadable(n) && AsReadNumber(n) == n <==> KeepsForm(n)
  {
    hide ToDouble, Rounded6, Overflow, LeastNormal, IsSixDigitDouble, PrintsPlain, InRange;
    KeptIff(n);
    AsReadHasTheValue(n);
    if !IsExact(n) {
      var a := Magnitude(RealOf(n));
      if PrintsPlain(a) {
        PlainIsWhole(a);
      }
    }
  }

  /** Among whole numbers up to 10^19 it is enough to count digits. */
  lemma WholeIsSixDigitIff(n: nat)
    requires 1_000_000 <= n <= EXACT_RANGE
    ensures IsSixDigitDouble(n as real) <==> HasSixDigits(n)
  {
    hide ToDouble, Rounded6, IsSixDigitDouble, WholeToDouble, WholeRounded6, HasSixDigits;
    SixDigitsAgree(n);
    RoundedIsNear(n);
    SmallIsInRange(1);
    SixDigitsSufficeIff(n as real);
    SixDigitsAreDouble(n);
    DoubleAgrees(WholeRounded6(n));
  }

  /** static_cast<long long> of the double. */
  function AsInteger(n: Number): int {
    match n
    case Integer(value) => value
    case Double(x) => if x < 0.0 then -(-x).Floor else x.Floor
  }

  /** An integer taken through a double, as JsonValue::integer takes it, survives if it is small or has six digits. */
  lemma IntegerSurvivesIff(value: int)
    requires Absolute(value) <= 0x8000_0000_0000_0000
    ensures var n := Integer(WholeToDouble(value));
      && IsReadable(n)
      && (AsInteger(AsReadNumber(n)) == value <==> Absolute(value) < EXACT_INTEGERS || HasSixDigits(Absolute(value)))
      && (value < 0 ==> -0x1_0000_0000_0000_0000 < AsInteger(AsReadNumber(n)) <= 0)
      && (value >= 0 ==> 0 <= AsInteger(AsReadNumber(n)) < 0x1_0000_0000_0000_0000)
  {
    hide ToDouble, Rounded6, WholeRounded6, HasSixDigits, Spacing, NearestMultiple, PrintsPlain, InRange;
    var n := Absolute(value);
    if n < EXACT_INTEGERS {
      SpacingOfSmall(n);
      NearestIsMultiple(n, 1);
    } else {
      var w := WholeToDouble(value);
      var a := Absolute(w);
      WholeDoubleIsNear(n);
      LargeReadsBack(a);
      RoundedIsNear(a);
      RoundedHasSixDigits(a);
      AsReadHasTheValue(Integer(w));
      if HasSixDigits(n) {
        SixDigitNumberIsDouble(n);
      }
    }
  }

  lemma LargeReadsBack(a: nat)
    requires EXACT_INTEGERS <= a <= EXACT_RANGE
    ensures ToDouble(Rounded6(a as real)) == WholeRounded6(a) as real
    ensures InRange(Rounded6(a as real))
  {
    hide ToDouble, Rounded6, WholeToDouble, WholeRounded6, Power;
    SixDigitsAgree(a);
    RoundedIsNear(a);
    SixDigitsAreDouble(a);
    DoubleAgrees(WholeRounded6(a));
    SmallIsInRange(1);
    LargePowers();
  }

  lemma LargePowers()
    ensures 20_000_000_000_000_000_000.0 <= Overflow()
  {
    hide Power;
    ManyPowersOfTwo();
    PowerSum(2.0, 53, 53);
    PowerGrows(2.0, 106, 1024);
  }

  // -------------------------------------------------------- What is printed

  /** In full exactly for integers below 2^53 in size, and other whole numbers below 10^15. */
  lemma PrintedInFullIff(n: Number)
    ensures IsExact(n) <==>
            match n
            case Integer(value) => -9_007_199_254_740_992 < value < 9_007_199_254_740_992
            case Double(x) => x.Floor as real == x && -1_000_000_000_000_000.0 < x < 1_000_000_000_000_000.0
  {
  }

  lemma MarkInText(digits: Text, e: int)
    requires digits != [] && D.AllDigits(digits)
    ensures (exists i :: 0 <= i < |GeneralText(digits, e)| && GeneralText(digits, e)[i] == 'e') <==> e < -4 || e >= 6
  {
    hide D.Digits, ExponentMark;
    var u := GeneralText(digits, e);
    MarkBegins(e);
    if e < -4 || e >= 6 {
      assert u[if |digits| > 1 then |digits| + 1 else 1] == 'e';
    }
  }

  /** With an exponent exactly when the first digit stands below the fourth place behind the point or above the sixth before it. */
  lemma ExponentShownIff(x: real)
    requires x != 0.0
    ensures (exists i :: 0 <= i < |SixDigits(x)| && SixDigits(x)[i] == 'e') <==>
            LeadingPlace(Magnitude(x)) < -4 || LeadingPlace(Magnitude(x)) >= 6
  {
    hide SixDigitText, LeadingPlace, GeneralText;
    var a := Magnitude(x);
    var u := GeneralText(SixDigitText(a), LeadingPlace(a));
    MarkInText(SixDigitText(a), LeadingPlace(a));
    if x < 0.0 {
      var t := SixDigits(x);
      assert t[0] == '-' && forall i :: 0 <= i < |u| ==> t[i + 1] == u[i];
      if i :| 0 <= i < |t| && t[i] == 'e' {
        assert u[i - 1] == 'e';
      }
    } else {
      assert SixDigits(x) == u;
    }
  }

  lemma {:induction false} StrippedEndsInDigit(m: Positive)
    ensures StripZeros(m) % 10 != 0 && StripZeros(m) <= m
  {
    if m % 10 == 0 {
      StrippedEndsInDigit(m / 10);
    }
  }

  lemma {:induction false} DigitsBeginAndEnd(n: Positive)
    ensures var t := D.Digits(n);
      t[0] != '0' && (t[|t| - 1] == '0' <==> n % 10 == 0)
  {
    if n >= 10 {
      DigitsBeginAndEnd(n / 10);
    }
  }

  /** The digits printed begin and end with one that is not 0. */
  lemma PrintedDigits(x: Measure)
    ensures var t := SixDigitText(x); t[0] != '0' && t[|t| - 1] != '0'
  {
    hide D.Digits;
    MantissaBounds(x);
    StrippedEndsInDigit(SixMantissa(x));
    DigitsBeginAndEnd(StripZeros(SixMantissa(x)));
  }
}
