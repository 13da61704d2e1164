/**
 Whole numbers as doubles and in six digits, by integer arithmetic, and that it
 agrees with the real arithmetic of `Doubles`.
 */
module WholeDoubles {
  import opened Basics
  import opened Doubles

  const EXACT_INTEGERS := 0x20_0000_0000_0000  // 2^53
  const EXACT_DOUBLES := 1_000_000_000_000_000

  function Absolute(v: int): nat {
    if v < 0 then -v else v
  }

  function Signed(negative: bool, n: nat): int {
    if negative then 0 - n else n
  }

  // ------------------------------------------------------------- Rounding

  function TimesPower10(m: nat, k: nat): nat {
    if k == 0 then m else 10 * TimesPower10(m, k - 1)
  }

  lemma {:induction false} TimesPower10IsProduct(m: nat, k: nat)
    ensures TimesPower10(m, k) == m * Power10(k)
  {
    if k > 0 {
      TimesPower10IsProduct(m, k - 1);
    }
  }

  /** Round to a multiple of `unit`, half to even. */
  function NearestMultiple(n: nat, unit: Positive): nat {
    var q, r := n / unit, n % unit;
    if 2 * r < unit || (2 * r == unit && q % 2 == 0) then q * unit else (q + 1) * unit
  }

  lemma NearestIsMultiple(n: nat, unit: Positive)
    ensures NearestMultiple(n, unit) % unit == 0
    ensures NearestMultiple(n, unit) == n <==> n % unit == 0
    ensures n - unit < NearestMultiple(n, unit) <= n + unit
    ensures NearestMultiple(n, unit) >= (n / unit) * unit
    ensures NearestMultiple(n, unit) == (n / unit) * unit || NearestMultiple(n, unit) == (n / unit + 1) * unit
  {
    var q, r := n / unit, n % unit;
    assert n == q * unit + r;
    assert (q + 1) * unit == q * unit + unit;
    MultipleHasNoRest(q, unit);
    MultipleHasNoRest(q + 1, unit);
  }

  lemma StepsApart(d: int, p: Positive)
    ensures d > 0 ==> d * p >= p
    ensures d < 0 ==> d * p <= 0 - p
  {
  }

  lemma QuotientUnique(n: nat, p: Positive, q: nat, r: nat)
    requires n == q * p + r && r < p
    ensures n / p == q && n % p == r
  {
    var d, rest := n / p, n % p;
    assert n == d * p + rest;
    assert (q - d) * p == q * p - d * p == rest - r;
    StepsApart(q - d, p);
  }

  lemma MultipleHasNoRest(q: nat, unit: Positive)
    ensures q * unit >= 0 && (q * unit) % unit == 0 && (q * unit) / unit == q
  {
    assert q * unit >= 0;
    QuotientUnique(q * unit, unit, q, 0);
  }

  /** The distance between neighbouring doubles at a whole number. */
  function Spacing(n: nat): Positive {
    if n < EXACT_INTEGERS then 1 else 2 * Spacing(n / 2)
  }

  /** The double nearest to a whole number. */
  function WholeToDouble(v: int): int {
    Signed(v < 0, NearestMultiple(Absolute(v), Spacing(Absolute(v))))
  }

  /** Decimal places of a whole number beyond its first six digits. */
  function Scale(n: nat): nat {
    if n < 1_000_000 then 0 else 1 + Scale(n / 10)
  }

  /** The six significant digits %.6g keeps. */
  function WholeRounded6(n: nat): nat {
    NearestMultiple(n, Power10(Scale(n)))
  }

  lemma RoundedIsPositive(n: nat)
    requires n > 0
    ensures WholeRounded6(n) > 0
  {
    ScaleBounds(n);
    NearestIsPositive(n, Power10(Scale(n)));
  }

  lemma NearestIsPositive(n: nat, unit: Positive)
    requires n / unit > 0
    ensures NearestMultiple(n, unit) > 0
  {
    var q := n / unit;
    assert q * unit >= unit;
    assert (q + 1) * unit >= unit;
  }

  /** The leading part has six digits, or the number has fewer. */
  lemma {:induction false} ScaleBounds(n: nat)
    ensures n / Power10(Scale(n)) < 1_000_000
    ensures n >= 100_000 ==> n / Power10(Scale(n)) >= 100_000
    ensures n > 0 ==> n / Power10(Scale(n)) > 0
  {
    if n >= 1_000_000 {
      ScaleBounds(n / 10);
      QuotientOfQuotient(n, Power10(Scale(n / 10)));
    }
  }

  lemma QuotientOfQuotient(n: nat, p: Positive)
    ensures n / (10 * p) == n / 10 / p
  {
    var q, r := n / 10, n % 10;
    var s, t := q / p, q % p;
    assert n == 10 * (s * p + t) + r == s * (10 * p) + (10 * t + r);
    assert 10 * t + r < 10 * p;
    QuotientUnique(n, 10 * p, s, 10 * t + r);
  }

  // ------------------------------------------------- Exactly what survives

  predicate Divides(d: Positive, n: nat) {
    n % d == 0
  }

  /** No digit beyond the first six. */
  predicate HasSixDigits(n: nat) {
    Divides(Power10(Scale(n)), n)
  }

  lemma DividesTransitively(a: Positive, b: Positive, n: nat)
    requires Divides(a, b) && Divides(b, n)
    ensures Divides(a, n)
  {
    var x, y := n / b, b / a;
    assert n == x * b && b == y * a;
    assert n == (x * y) * a;
    assert x * y >= 0;
    MultipleHasNoRest(x * y, a);
  }

  lemma {:induction false} SpacingDivides(n: nat, j: nat)
    requires n < EXACT_INTEGERS * Power2(j)
    ensures Divides(Spacing(n), Power2(j))
  {
    if n >= EXACT_INTEGERS {
      SpacingDivides(n / 2, j - 1);
      var q := Power2(j - 1) / Spacing(n / 2);
      assert Power2(j - 1) == q * Spacing(n / 2);
      assert Power2(j) == q * (2 * Spacing(n / 2));
      MultipleHasNoRest(q, Spacing(n));
    }
  }

  /** Beyond 2^53 neighbouring doubles are at least two apart, and no further than a 2^52th. */
  lemma {:induction false} SpacingIsFine(n: nat)
    requires n >= EXACT_INTEGERS
    ensures Spacing(n) >= 2 && n / Spacing(n) >= EXACT_INTEGERS / 2
  {
    if n / 2 >= EXACT_INTEGERS {
      SpacingIsFine(n / 2);
      var p := Spacing(n / 2);
      var h := n / 2;
      assert h / p * p >= 0;
      QuotientUnique(n, 2 * p, h / p, 2 * (h % p) + n % 2);
    }
  }

  lemma {:induction false} TenHasTwos(j: nat, k: nat)
    requires j <= k
    ensures Divides(Power2(j), Power10(k))
  {
    if j > 0 {
      TenHasTwos(j - 1, k - 1);
      var q := Power10(k - 1) / Power2(j - 1);
      assert Power10(k - 1) == q * Power2(j - 1);
      assert Power10(k) == (5 * q) * Power2(j);
      MultipleHasNoRest(5 * q, Power2(j));
    } else {
      assert Power10(k) % 1 == 0;
    }
  }

  lemma {:induction false} PowersOfTenDivide(j: nat, k: nat)
    requires j <= k
    ensures Divides(Power10(j), Power10(k))
  {
    if j > 0 {
      PowersOfTenDivide(j - 1, k - 1);
      var q := Power10(k - 1) / Power10(j - 1);
      assert Power10(k - 1) == q * Power10(j - 1);
      assert Power10(k) == q * Power10(j);
      MultipleHasNoRest(q, Power10(j));
    } else {
      assert Power10(k) % 1 == 0;
    }
  }

  lemma {:induction false} ScaleAtLeast(n: nat, k: nat)
    requires n >= TimesPower10(100_000, k)
    ensures Scale(n) >= k
  {
    if k > 0 {
      TimesTenGrows(k - 1);
      ScaleAtLeast(n / 10, k - 1);
    }
  }

  lemma {:induction false} TimesTenGrows(k: nat)
    ensures TimesPower10(100_000, k) >= 100_000
  {
    if k > 0 {
      TimesTenGrows(k - 1);
    }
  }

  lemma {:induction false} ScaleAtMost(m: nat, k: nat)
    requires m < 1_000_000
    ensures Scale(TimesPower10(m, k)) <= k
  {
    if k > 0 {
      ScaleAtMost(m, k - 1);
    }
  }

  /** Six-digit numbers of up to twenty digits are doubles. */
  lemma SixDigitNumberIsDouble(n: nat)
    requires n < 0x1_0000_0000_0000_0000 && HasSixDigits(n)
    ensures NearestMultiple(n, Spacing(n)) == n
  {
    hide Scale, Power10, Spacing;
    if n >= EXACT_INTEGERS {
      TwosInScale(n);
    } else {
      SpacingOfSmall(n);
    }
    NearestIsMultiple(n, Spacing(n));
  }

  lemma SpacingOfSmall(n: nat)
    requires n < EXACT_INTEGERS
    ensures Spacing(n) == 1
  {
  }

  lemma TwosInScale(n: nat)
    requires EXACT_INTEGERS <= n < 0x1_0000_0000_0000_0000 && HasSixDigits(n)
    ensures Divides(Spacing(n), n)
  {
    hide Scale, Spacing, Divides;
    var j, k := if n < 10_000_000_000_000_000 then 1 else 11, Scale(n);
    SmallPowers();
    SpacingDivides(n, j);
    ScaleAtLeast(n, if n < 10_000_000_000_000_000 then 10 else 11);
    TenHasTwos(j, k);
    DividesTransitively(Spacing(n), Power2(j), Power10(k));
    DividesTransitively(Spacing(n), Power10(k), n);
  }

  lemma SmallPowers()
    ensures Power2(1) == 2 && Power2(11) == 2048
    ensures TimesPower10(100_000, 10) == 1_000_000_000_000_000
    ensures TimesPower10(100_000, 11) == 10_000_000_000_000_000
  {
    assert TimesPower10(100_000, 5) == 10_000_000_000;
    assert Power2(6) == 64;
  }

  lemma RoundedHasSixDigits(n: nat)
    ensures HasSixDigits(WholeRounded6(n))
  {
    hide Scale, Power10, TimesPower10, NearestMultiple;
    var k, p := Scale(n), Power10(Scale(n));
    var r := WholeRounded6(n);
    NearestIsMultiple(n, p);
    ScaleBounds(n);
    var q := if r == (n / p) * p then n / p else n / p + 1;
    assert r == q * p;
    TimesPower10IsProduct(q, k);
    if q < 1_000_000 {
      ScaleAtMost(q, k);
      PowersOfTenDivide(Scale(r), k);
      DividesTransitively(Power10(Scale(r)), p, r);
    } else {
      MillionIsRound(k);
      TimesPower10IsProduct(100_000, k + 1);
      ScaleAtMost(100_000, k + 1);
      PowersOfTenDivide(Scale(r), k + 1);
      MultipleHasNoRest(100_000, Power10(k + 1));
      DividesTransitively(Power10(Scale(r)), Power10(k + 1), r);
    }
  }

  lemma {:induction false} MillionIsRound(k: nat)
    ensures TimesPower10(1_000_000, k) == TimesPower10(100_000, k + 1)
  {
    if k > 0 {
      MillionIsRound(k - 1);
    }
  }

  lemma RoundedIsNear(n: nat)
    requires n >= 1_000_000
    ensures 0 < WholeRounded6(n) <= n + n / 100_000
    ensures WholeRounded6(n) == n <==> HasSixDigits(n)
  {
    hide Scale, Power10, NearestMultiple;
    var p := Power10(Scale(n));
    NearestIsMultiple(n, p);
    ScaleBounds(n);
    RoundedIsPositive(n);
    UnitIsSmall(n, p);
  }

  lemma UnitIsSmall(n: nat, p: Positive)
    requires n / p >= 100_000
    ensures p <= n / 100_000
  {
    var q := n / p;
    StepsApart(q - 100_000, p);
    assert n >= q * p == (q - 100_000) * p + 100_000 * p;
  }

  const EXACT_RANGE := 10_000_000_000_000_000_000

  /** A whole number beyond the exact range reads back as its first six digits. */
  lemma SixDigitsAreDouble(value: int)
    requires 1_000_000 <= Absolute(value) <= EXACT_RANGE
    ensures WholeToDouble(Signed(value < 0, WholeRounded6(Absolute(value)))) == Signed(value < 0, WholeRounded6(Absolute(value)))
  {
    hide WholeRounded6, Spacing, NearestMultiple, HasSixDigits;
    var n := Absolute(value);
    RoundedIsNear(n);
    RoundedHasSixDigits(n);
    SixDigitNumberIsDouble(WholeRounded6(n));
  }

  lemma WholeDoubleIsNear(n: nat)
    requires EXACT_INTEGERS <= n <= 0x8000_0000_0000_0000
    ensures EXACT_INTEGERS <= NearestMultiple(n, Spacing(n)) <= n + 2048
  {
    hide Spacing, NearestMultiple;
    var u := Spacing(n);
    NearestIsMultiple(n, u);
    SpacingIsFine(n);
    SmallPowers();
    SpacingDivides(n, 11);
    assert u <= 2048;
    ProductAtLeast(n / u, u);
  }

  lemma ProductAtLeast(q: nat, u: Positive)
    requires q >= EXACT_INTEGERS / 2 && u >= 2
    ensures q * u >= EXACT_INTEGERS
  {
  }

  // ------------------------------------------ Agreement with exact reals

  lemma RealQuotient(n: nat, u: Positive)
    ensures var q, r := n / u, n % u;
      n as real / u as real == q as real + r as real / u as real
    ensures 0.0 <= (n % u) as real / u as real < 1.0
  {
    var q, r := n / u, n % u;
    var d := u as real;
    assert n == q * u + r;
    assert n as real == q as real * d + r as real;
    Fraction(r as real, d);
    Shared(q as real, r as real, d);
  }

  lemma Shared(q: real, r: real, d: Measure)
    ensures (q * d + r) / d == q + r / d
  {
    assert (q + r / d) * d == q * d + r;
  }

  lemma Fraction(r: real, d: Measure)
    requires 0.0 <= r < d
    ensures 0.0 <= r / d < 1.0
    ensures 2.0 * r < d <==> r / d < 0.5
    ensures 2.0 * r == d <==> r / d == 0.5
  {
    QuotientTimes(r, d);
    var x := r / d;
    Compared(x, 0.0, d);
    Compared(x, 1.0, d);
    Compared(x, 0.5, d);
  }

  lemma Compared(a: real, b: real, d: Measure)
    ensures a < b <==> a * d < b * d
    ensures a == b <==> a * d == b * d
  {
    Scaled(a, b, d);
    Scaled(b, a, d);
  }

  lemma RoundingAgrees(n: nat, u: Positive)
    ensures RoundTo(n as real, u as real) == NearestMultiple(n, u) as real
  {
    var q, r := n / u, n % u;
    var x := n as real / u as real;
    RealQuotient(n, u);
    Fraction(r as real, u as real);
    assert x.Floor == q;
    assert Nearest(x) == if 2 * r < u || (2 * r == u && q % 2 == 0) then q else q + 1;
  }

  /** The sixth digit of a whole number of six digits or more. */
  lemma PlaceAgrees(n: nat)
    requires n >= 100_000
    ensures SixthPlace(n as real) == Power10(Scale(n)) as real
  {
    hide Power, Exponent, Scale, Power10;
    var k, p := Scale(n), Power10(Scale(n));
    ScaleBounds(n);
    WholePowerIsPower(k);
    PowersInUse();
    PowerSum(10.0, 5, k);
    PowerSum(10.0, 6, k);
    BetweenMultiples(n, p);
    ExponentUnique(10.0, n as real, k + 5);
  }

  lemma BetweenMultiples(n: nat, p: Positive)
    requires 100_000 <= n / p < 1_000_000
    ensures 100_000.0 * p as real <= n as real < 1_000_000.0 * p as real
  {
    var q := n / p;
    assert n == q * p + n % p;
    StepsApart(q - 100_000, p);
    StepsApart(1_000_000 - q, p);
    assert (q - 100_000) * p == q * p - 100_000 * p;
    assert (1_000_000 - q) * p == 1_000_000 * p - q * p;
    assert 100_000 * p <= n < 1_000_000 * p;
  }

  lemma SixDigitsAgree(n: nat)
    requires n >= 100_000
    ensures Rounded6(n as real) == WholeRounded6(n) as real
  {
    PlaceAgrees(n);
    RoundingAgrees(n, Power10(Scale(n)));
  }

  lemma {:induction false} SpacingIsPower(n: nat) returns (j: nat)
    requires n >= EXACT_INTEGERS / 2
    ensures Spacing(n) as real == Power(2.0, j)
    ensures EXACT_INTEGERS / 2 * Spacing(n) <= n < EXACT_INTEGERS * Spacing(n)
  {
    if n < EXACT_INTEGERS {
      j := 0;
    } else {
      j := SpacingIsPower(n / 2);
      PowerStep(2.0, j);
      j := j + 1;
    }
  }

  lemma ManyPowersOfTwo()
    ensures Power(2.0, 52) == 4503599627370496.0 && Power(2.0, 53) == 9007199254740992.0
  {
    assert Power(2.0, 8) == 256.0;
    assert Power(2.0, 16) == 65536.0;
    assert Power(2.0, 24) == 16777216.0;
    assert Power(2.0, 32) == 4294967296.0;
    assert Power(2.0, 40) == 1099511627776.0;
    assert Power(2.0, 48) == 281474976710656.0;
  }

  lemma UlpAgrees(n: nat)
    requires n >= EXACT_INTEGERS / 2
    ensures Ulp(n as real) == Spacing(n) as real
  {
    hide Power, Exponent, Spacing;
    var j := SpacingIsPower(n);
    ManyPowersOfTwo();
    PowerSum(2.0, 52, j);
    PowerSum(2.0, 53, j);
    ExponentUnique(2.0, n as real, 52 + j);
  }

  lemma SmallUlp(n: nat) returns (place: int)
    requires 0 < n < EXACT_INTEGERS / 2
    ensures place <= 0 && Ulp(n as real) == Power(2.0, place)
  {
    hide Power, Exponent;
    var e := Exponent(2.0, n as real);
    ManyPowersOfTwo();
    PowerZero(2.0);
    if e >= 52 {
      if e > 52 { PowerGrows(2.0, 52, e); }
    }
    if e < 0 {
      if e + 1 < 0 { PowerGrows(2.0, e + 1, 0); }
    }
    place := e - 52;
  }

  lemma {:induction false} WholePowerOfTwo(j: nat)
    ensures Power2(j) as real == Power(2.0, j)
  {
    if j > 0 {
      WholePowerOfTwo(j - 1);
    }
  }

  lemma WholeInFractions(n: nat, parts: nat, unit: Measure) returns (m: nat)
    requires parts as real * unit == 1.0
    ensures m as real * unit == n as real
  {
    m := n * parts;
    var a, b := n as real, parts as real;
    assert m as real == a * b;
    assert a * b * unit == a * (b * unit);
  }

  lemma InverseOfFraction(place: int)
    requires place <= 0
    ensures Power2(-place) as real * Power(2.0, place) == 1.0
  {
    hide Power, Power2;
    WholePowerOfTwo(-place);
    PowerSum(2.0, -place, place);
    PowerZero(2.0);
  }

  lemma WholeStays(n: nat, parts: nat, unit: Measure)
    requires parts as real * unit == 1.0
    ensures RoundTo(n as real, unit) == n as real
  {
    hide RoundTo;
    var m := WholeInFractions(n, parts, unit);
    MultipleStays(unit, m);
  }

  lemma SmallWholeIsDouble(n: nat)
    requires n < EXACT_INTEGERS / 2
    ensures ToDouble(n as real) == n as real
  {
    hide Power, Power2, Ulp, RoundTo, Exponent;
    if n > 0 {
      var place := SmallUlp(n);
      InverseOfFraction(place);
      WholeStays(n, Power2(-place), Power(2.0, place));
    }
  }

  lemma DoubleAgrees(v: int)
    ensures ToDouble(v as real) == WholeToDouble(v) as real
  {
    hide RoundTo, Ulp, NearestMultiple, Spacing;
    var n := Absolute(v);
    if n < EXACT_INTEGERS / 2 {
      SmallWholeIsDouble(n);
      SpacingOfSmall(n);
      NearestIsMultiple(n, 1);
    } else {
      UlpAgrees(n);
      RoundingAgrees(n, Spacing(n));
    }
  }
}
