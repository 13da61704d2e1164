/** Decimal text: what std::to_string prints and how its digits read back. */
module Decimal {
  import opened Basics

  predicate IsDigit(c: char) {
    '0' <= c <= '9'
  }

  predicate AllDigits(t: Text) {
    forall i :: 0 <= i < |t| ==> IsDigit(t[i])
  }

  function DigitChar(d: nat): (c: ByteChar)
    requires d < 10
    ensures IsDigit(c)
  {
    ('0' as int + d) as char
  }

  function Digits(n: nat): (t: Text)
    ensures t != [] && AllDigits(t)
  {
    if n < 10 then [DigitChar(n)] else Digits(n / 10) + [DigitChar(n % 10)]
  }

  function Value(t: Text): nat
    requires AllDigits(t)
  {
    if t == [] then 0
    else Value(t[..|t| - 1]) * 10 + (t[|t| - 1] as int - '0' as int)
  }

  lemma {:induction false} ValueOfDigits(n: nat)
    ensures Value(Digits(n)) == n
  {
    if n >= 10 {
      ValueOfDigits(n / 10);
      var t := Digits(n);
      assert t[..|t| - 1] == Digits(n / 10);
    } else {
      assert Digits(n)[..0] == [];
    }
  }

  /** The signed form, std::to_string(long long). */
  function ToString(v: int): Text {
    if v < 0 then "-" + Digits(-v) else Digits(v)
  }

  /** Length of the longest run of digits at the front of `t`. */
  function DigitRun(t: Text): (n: nat)
    ensures n <= |t| && forall i :: 0 <= i < n ==> IsDigit(t[i])
    ensures n < |t| ==> !IsDigit(t[n])
  {
    if t == [] || !IsDigit(t[0]) then 0 else 1 + DigitRun(t[1..])
  }

  lemma DigitRunUnique(t: Text, n: nat)
    requires n <= |t| && (forall i :: 0 <= i < n ==> IsDigit(t[i]))
    requires n < |t| ==> !IsDigit(t[n])
    ensures DigitRun(t) == n
  {
  }

  lemma DigitsReadBack(n: nat)
    ensures DigitRun(Digits(n)) == |Digits(n)| && Value(Digits(n)) == n
  {
    DigitRunUnique(Digits(n), |Digits(n)|);
    ValueOfDigits(n);
  }
}
