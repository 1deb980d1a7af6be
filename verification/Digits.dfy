/** Decimal digits and their value. */
module Digits {
  import opened Arith

  function Pow10(n: nat): (r: nat)
    ensures r > 0
  {
    if n == 0 then 1 else 10 * Pow10(n - 1)
  }

  function DigitsValue(s: seq<char>): (r: nat)
    requires AllDigits(s)
  {
    if s == [] then 0 else 10 * DigitsValue(s[..|s| - 1]) + (s[|s| - 1] as int - '0' as int)
  }

  predicate AllDigits(s: seq<char>)
  {
    forall i :: 0 <= i < |s| ==> '0' <= s[i] <= '9'
  }

  /** One more digit. */
  lemma LastDigit(s: seq<char>, c: char)
    requires AllDigits(s) && '0' <= c <= '9'
    ensures AllDigits(s + [c])
    ensures DigitsValue(s + [c]) == 10 * DigitsValue(s) + (c as int - '0' as int)
  {
    assert (s + [c])[..|s|] == s;
  }

  function DigitChar(digit: nat): (c: char)
    requires digit <= 9
  {
    ('0' as int + digit) as char
  }

  predicate IsDigit(c: char)
  {
    '0' <= c <= '9'
  }

  lemma {:induction false} Pow10Sum(a: nat, b: nat)
    ensures Pow10(a + b) == Pow10(a) * Pow10(b)
    decreases a
  {
    if a > 0 {
      Pow10Sum(a - 1, b);
      assert Pow10(a + b) == 10 * Pow10(a - 1 + b);
    }
  }

  lemma {:induction false} DigitsAppend(a: seq<char>, b: seq<char>)
    requires AllDigits(a) && AllDigits(b)
    ensures AllDigits(a + b) && DigitsValue(a + b) == DigitsValue(a) * Pow10(|b|) + DigitsValue(b)
    decreases |b|
  {
    if b == [] {
      assert a + b == a;
    } else {
      hide DigitsValue;
      var n := |b| - 1;
      assert b == b[..n] + [b[n]];
      LastDigit(b[..n], b[n]);
      DigitsAppend(a, b[..n]);
      assert a + b == a + b[..n] + [b[n]];
      LastDigit(a + b[..n], b[n]);
      TenTimes(DigitsValue(a), Pow10(n));
    }
  }

  /** The value of n digits is below 10^n, and it is zero only when every digit is. */
  lemma {:induction false} DigitsBounded(s: seq<char>)
    requires AllDigits(s)
    ensures DigitsValue(s) < Pow10(|s|)
    ensures DigitsValue(s) == 0 <==> forall i :: 0 <= i < |s| ==> s[i] == '0'
  {
    if s != [] {
      var r := s[..|s| - 1];
      DigitsBounded(r);
      if forall i :: 0 <= i < |s| ==> s[i] == '0' {
        assert forall i :: 0 <= i < |r| ==> r[i] == '0';
      } else if forall i :: 0 <= i < |r| ==> r[i] == '0' {
        assert forall i :: 0 <= i < |r| ==> s[i] == r[i];
      } else {
        assert DigitsValue(r) > 0;
      }
    }
  }

  /** The decimal text of a number, without leading zeros. */
  function DecText(n: nat): (s: string)
  {
    if n < 10 then [DigitChar(n)] else DecText(n / 10) + [DigitChar(n % 10)]
  }

}
