/**
 IEEE doubles and the six significant digits of %.6g, as exact reals: rounding
 to the nearest, half to even, at a binary or a decimal place.
 */
module Doubles {
  import opened Basics

  type Base = b: real | b == 2.0 || b == 10.0 witness 2.0
  type Measure = x: real | x > 0.0 witness 1.0

  function Power(b: Base, k: int): (p: Measure)
    decreases if k < 0 then -k else k
  {
    if k == 0 then 1.0 else if k > 0 then b * Power(b, k - 1) else Power(b, k + 1) / b
  }

  lemma PowerStep(b: Base, k: int)
    ensures Power(b, k + 1) == b * Power(b, k)
  {
  }

  lemma Reorder(b: real, p: real, q: real)
    ensures b * (p * q) == p * (b * q)
  {
  }

  lemma {:induction false} PowerSum(b: Base, i: int, j: int)
    ensures Power(b, i + j) == Power(b, i) * Power(b, j)
    decreases if j < 0 then -j else j
  {
    hide Power;
    if j > 0 {
      PowerSum(b, i, j - 1);
      PowerStep(b, i + j - 1);
      PowerStep(b, j - 1);
      Reorder(b, Power(b, i), Power(b, j - 1));
    } else if j < 0 {
      PowerSum(b, i, j + 1);
      PowerStep(b, i + j);
      PowerStep(b, j);
      Reorder(b, Power(b, i), Power(b, j));
    } else {
      PowerZero(b);
    }
  }

  lemma PowerZero(b: Base)
    ensures Power(b, 0) == 1.0 && Power(b, 1) == b
  {
    PowerStep(b, 0);
  }

  lemma {:induction false} PowerGrows(b: Base, i: int, j: int)
    requires i < j
    ensures b * Power(b, i) <= Power(b, j)
    decreases j - i
  {
    if i + 1 < j {
      PowerGrows(b, i, j - 1);
      PowerStep(b, j - 1);
    } else {
      PowerStep(b, i);
    }
  }

  /** How far from one, by a whole number. */
  function Distance(x: Measure): nat {
    DistanceIsNatural(x);
    if x < 1.0 then (1.0 / x).Floor else x.Floor
  }

  lemma DistanceIsNatural(x: Measure)
    ensures (1.0 / x).Floor >= 0
  {
    Inverse(x, 1.0 / x);
  }

  /** The place of the leading digit. */
  function Exponent(b: Base, x: Measure): (e: int)
    ensures Power(b, e) <= x < Power(b, e + 1)
    decreases x < 1.0, Distance(x)
  {
    if x >= b then
      Shrinks(b, x);
      var e := Exponent(b, x / b);
      MovedUp(b, x, e);
      e + 1
    else if x < 1.0 then
      Grows(b, x);
      var e := Exponent(b, x * b);
      MovedDown(b, x, e);
      e - 1
    else
      PowerZero(b);
      0
  }

  lemma MovedUp(b: Base, x: Measure, e: int)
    requires Power(b, e) <= x / b < Power(b, e + 1)
    ensures Power(b, e + 1) <= x < Power(b, e + 2)
  {
    hide Power;
    PowerStep(b, e);
    PowerStep(b, e + 1);
    if b == 2.0 {
    } else {
    }
  }

  lemma MovedDown(b: Base, x: Measure, e: int)
    requires Power(b, e) <= x * b < Power(b, e + 1)
    ensures Power(b, e - 1) <= x < Power(b, e)
  {
    hide Power;
    PowerStep(b, e - 1);
    PowerStep(b, e);
    if b == 2.0 {
    } else {
    }
  }

  lemma Shrinks(b: Base, x: Measure)
    requires x >= b
    ensures 1.0 <= x / b && Distance(x / b) < Distance(x)
  {
    if b == 2.0 {
    } else {
    }
  }

  lemma Grows(b: Base, x: Measure)
    requires x < 1.0
    ensures x * b > 0.0 && (x * b < 1.0 ==> Distance(x * b) < Distance(x))
  {
    var y := 1.0 / x;
    assert y * x == 1.0;
    Inverse(x, y);
    assert y / b * (x * b) == 1.0;
    Inverse(x * b, y / b);
    if b == 2.0 {
    } else {
    }
  }

  lemma Inverse(x: Measure, y: real)
    requires y * x == 1.0
    ensures y == 1.0 / x && y > 0.0
    ensures x < 1.0 ==> y > 1.0
  {
  }

  lemma ExponentUnique(b: Base, x: Measure, e: int)
    requires Power(b, e) <= x < Power(b, e + 1)
    ensures Exponent(b, x) == e
  {
    var f := Exponent(b, x);
    if e + 1 < f {
      PowerGrows(b, e + 1, f);
    } else if f + 1 < e {
      PowerGrows(b, f + 1, e);
    }
  }

  // ------------------------------------------------------------- Rounding

  /** The nearest integer, half to even. */
  function Nearest(x: real): (n: int)
    ensures -0.5 <= n as real - x <= 0.5
  {
    var n, r := x.Floor, x - x.Floor as real;
    if r < 0.5 || (r == 0.5 && n % 2 == 0) then n else n + 1
  }

  lemma NearestUnique(x: real, n: int)
    requires -0.5 < n as real - x < 0.5
    ensures Nearest(x) == n
  {
  }

  function RoundTo(x: real, unit: Measure): real {
    Nearest(x / unit) as real * unit
  }

  lemma RoundToIsNear(x: real, unit: Measure)
    ensures 0.0 - unit / 2.0 <= RoundTo(x, unit) - x <= unit / 2.0
  {
    var q := x / unit;
    var d := Nearest(q) as real - q;
    assert x == q * unit;
    assert RoundTo(x, unit) - x == d * unit;
    HalfAtMost(d, unit);
    hide RoundTo, Nearest;
  }

  lemma HalfAtMost(d: real, unit: Measure)
    requires -0.5 <= d <= 0.5
    ensures 0.0 - unit / 2.0 <= d * unit <= unit / 2.0
  {
    Scaled(d, 0.5, unit);
    Scaled(-0.5, d, unit);
  }

  lemma Scaled(a: real, b: real, unit: Measure)
    ensures a <= b ==> a * unit <= b * unit
    ensures a < b ==> a * unit < b * unit
  {
  }

  lemma RoundToUnique(x: real, unit: Measure, n: int)
    requires 0.0 - unit / 2.0 < n as real * unit - x < unit / 2.0
    ensures RoundTo(x, unit) == n as real * unit
  {
    var q := x / unit;
    var d := n as real - q;
    assert x == q * unit;
    assert n as real * unit - x == d * unit;
    Unscaled(d, 0.5, unit);
    Unscaled(-0.5, d, unit);
    NearestUnique(q, n);
  }

  lemma Unscaled(a: real, b: real, unit: Measure)
    requires a * unit < b * unit
    ensures a < b
  {
    Scaled(b, a, unit);
  }

  lemma MultipleStays(unit: Measure, n: int)
    ensures RoundTo(n as real * unit, unit) == n as real * unit
  {
    RoundToUnique(n as real * unit, unit, n);
  }

  // ---------------------------------------------------------------- Doubles

  const LEAST_PLACE := -1074

  /** The least normal double, 2^-1022, and the first magnitude too large for one. */
  function LeastNormal(): Measure {
    Power(2.0, -1022)
  }

  function Overflow(): Measure {
    Power(2.0, 1024)
  }

  /** The distance of neighbouring doubles. */
  function Ulp(x: Measure): Measure {
    var place := Exponent(2.0, x) - 52;
    Power(2.0, if place < LEAST_PLACE then LEAST_PLACE else place)
  }

  function Negated(negative: bool, x: real): real {
    if negative then -x else x
  }

  function Magnitude(x: real): real {
    if x < 0.0 then -x else x
  }

  /** The nearest double, the range of exponents apart. */
  function ToDouble(x: real): real {
    if x == 0.0 then 0.0 else Negated(x < 0.0, RoundTo(Magnitude(x), Ulp(Magnitude(x))))
  }

  /** Six significant digits. */
  function SixthPlace(x: Measure): Measure {
    Power(10.0, Exponent(10.0, x) - 5)
  }

  function Rounded6(x: Measure): real {
    RoundTo(x, SixthPlace(x))
  }

  // --------------------------------------- Six digits survive being a double

  lemma NormalExponent(x: Measure)
    requires x >= LeastNormal()
    ensures Exponent(2.0, x) >= -1022
  {
    hide Power, Exponent;
    var e := Exponent(2.0, x);
    if e < -1022 {
      if e + 1 < -1022 {
        PowerGrows(2.0, e + 1, -1022);
      }
    }
  }

  lemma UlpIsFine(x: Measure)
    requires x >= LeastNormal()
    ensures Power(2.0, 52) * Ulp(x) <= x
  {
    hide Power, Exponent;
    NormalExponent(x);
    PowerSum(2.0, 52, Exponent(2.0, x) - 52);
  }

  lemma {:induction false} WholePowerIsPower(k: nat)
    ensures Power10(k) as real == Power(10.0, k)
  {
    if k > 0 {
      WholePowerIsPower(k - 1);
    }
  }

  /** m * 10^k */
  function DecimalValue(m: nat, k: int): real {
    m as real * Power(10.0, k)
  }

  lemma PowersInUse()
    ensures Power(2.0, 52) >= 1_000_000_000.0
    ensures Power(10.0, 5) == 100_000.0 && Power(10.0, 6) == 1_000_000.0
  {
    assert Power(2.0, 8) == 256.0;
    assert Power(2.0, 16) == 65536.0;
    assert Power(2.0, 24) == 16777216.0;
    assert Power(2.0, 32) == 4294967296.0;
    PowerGrows(2.0, 32, 52);
    assert Power(10.0, 3) == 1000.0;
  }

  /** A double is within a 2^53rd of what it was rounded from. */
  lemma DoubleIsNear(d: Measure)
    requires d >= LeastNormal()
    ensures 0.0 < ToDouble(d)
    ensures 0.0 - d <= (ToDouble(d) - d) * 2_000_000_000.0 <= d
  {
    hide Power, Exponent, Ulp, RoundTo;
    var unit := Ulp(d);
    UlpIsFine(d);
    PowersInUse();
    Scaled(1_000_000_000.0, Power(2.0, 52), unit);
    assert 1_000_000_000.0 * unit <= d;
    RoundToIsNear(d, unit);
  }

  lemma SixDigitsAtMost(m: nat, k: int)
    requires m < 1_000_000
    ensures DecimalValue(m, k) <= 999_999.0 * Power(10.0, k)
  {
    hide Power;
    var a := m as real;
    assert a <= 999_999.0;
    Scaled(a, 999_999.0, Power(10.0, k));
    assert DecimalValue(m, k) == a * Power(10.0, k);
  }

  lemma MillionfoldBelow(k: int, e: int)
    requires k <= e - 6
    ensures 1_000_000.0 * Power(10.0, k) <= Power(10.0, e)
  {
    hide Power;
    PowersInUse();
    PowerSum(10.0, e - 6, 6);
    if k < e - 6 {
      PowerGrows(10.0, k, e - 6);
    }
  }

  lemma NotTooFar(p: Measure, d: real, v: real)
    requires (v - d) * 2_000_000_000.0 <= d <= 999_999.0 * p
    ensures v < 1_000_000.0 * p
  {
  }

  /** A number so close to m * 10^k has its sixth digit no further left than place k. */
  lemma NoDigitBehindTheSixth(m: nat, k: int, v: Measure)
    requires 0 < m < 1_000_000
    requires (v - DecimalValue(m, k)) * 2_000_000_000.0 <= DecimalValue(m, k)
    ensures k >= Exponent(10.0, v) - 5
  {
    hide Power, Exponent, DecimalValue;
    var e := Exponent(10.0, v);
    SixDigitsAtMost(m, k);
    NotTooFar(Power(10.0, k), DecimalValue(m, k), v);
    if k < e - 5 {
      MillionfoldBelow(k, e);
    }
  }

  lemma MultipleOfPlace(m: nat, k: int, place: int) returns (n: nat)
    requires k >= place
    ensures n as real * Power(10.0, place) == DecimalValue(m, k)
  {
    hide Power;
    n := m * Power10(k - place);
    WholePowerIsPower(k - place);
    PowerSum(10.0, place, k - place);
    Regrouped(m as real, Power10(k - place) as real, Power(10.0, place));
  }

  lemma Regrouped(a: real, b: real, c: real)
    ensures a * b * c == a * (c * b)
  {
  }

  /** Six digits survive: a decimal of six digits comes back from the double nearest to it. */
  lemma SixDigitsSurvive(m: nat, k: int)
    requires 0 < m < 1_000_000 && DecimalValue(m, k) >= LeastNormal()
    ensures ToDouble(DecimalValue(m, k)) > 0.0
    ensures Rounded6(ToDouble(DecimalValue(m, k))) == DecimalValue(m, k)
  {
    hide Power, Exponent, ToDouble, RoundTo, DecimalValue;
    var d := DecimalValue(m, k);
    DoubleIsNear(d);
    var v := ToDouble(d);
    NoDigitBehindTheSixth(m, k, v);
    var place := Exponent(10.0, v) - 5;
    var n := MultipleOfPlace(m, k, place);
    PowersInUse();
    PowerSum(10.0, place, 6);
    var unit := Power(10.0, place);
    assert v < 1_000_000.0 * unit;
    CloseEnough(d, v, unit);
    RoundToUnique(v, unit, n);
  }

  lemma CloseEnough(d: real, v: real, unit: real)
    requires 0.0 - d <= (v - d) * 2_000_000_000.0 <= d && 0.0 < v < 1_000_000.0 * unit
    ensures 0.0 - unit / 2.0 < d - v < unit / 2.0
  {
  }

  /** The six digits themselves. */
  function SixMantissa(x: Measure): (n: nat)
    ensures 100_000 <= n <= 1_000_000
  {
    MantissaBounds(x);
    Nearest(x / SixthPlace(x))
  }

  lemma QuotientTimes(x: real, unit: Measure)
    ensures x / unit * unit == x
  {
  }

  lemma MantissaBounds(x: Measure)
    ensures 100_000 <= Nearest(x / SixthPlace(x)) <= 1_000_000
  {
    hide Power, Exponent;
    var place, q := SixthPlace(x), x / SixthPlace(x);
    var e := Exponent(10.0, x);
    PowersInUse();
    PowerSum(10.0, 5, e - 5);
    PowerSum(10.0, 6, e - 5);
    assert 5 + (e - 5) == e && 6 + (e - 5) == e + 1;
    assert x < Power(10.0, e + 1);
    assert Power(10.0, e + 1) == 1_000_000.0 * place;
    QuotientTimes(x, place);
    Unscaled(q, 1_000_000.0, place);
    Scaled(q, 100_000.0, place);
  }

  /** The double nearest to some decimal of at most six digits, within the normal range. */
  ghost predicate IsSixDigitDouble(x: real) {
    exists m: nat, k: int {:trigger DecimalValue(m, k)} ::
      0 < m < 1_000_000 && DecimalValue(m, k) >= LeastNormal() && x == ToDouble(DecimalValue(m, k))
  }

  lemma {:induction false} TenfoldDigits(m: nat, k: int)
    ensures DecimalValue(10 * m, k) == DecimalValue(m, k + 1)
  {
    PowerStep(10.0, k);
  }

  /** Rounding to six digits and back to a double is harmless exactly for the doubles of six digits. */
  lemma SixDigitsSufficeIff(x: Measure)
    requires Rounded6(x) >= LeastNormal()
    ensures ToDouble(Rounded6(x)) == x <==> IsSixDigitDouble(x)
  {
    hide Power, Exponent, ToDouble, LeastNormal, Nearest;
    if ToDouble(Rounded6(x)) == x {
      MantissaBounds(x);
      var n, k := SixMantissa(x), Exponent(10.0, x) - 5;
      assert Rounded6(x) == DecimalValue(n, k);
      if n == 1_000_000 {
        TenfoldDigits(100_000, k);
        assert x == ToDouble(DecimalValue(100_000, k + 1));
      }
    }
    if IsSixDigitDouble(x) {
      var m: nat, k: int :| 0 < m < 1_000_000 && DecimalValue(m, k) >= LeastNormal() && x == ToDouble(DecimalValue(m, k));
      SixDigitsSurvive(m, k);
    }
  }
}
