/** Reading back what the printer has laid out. */
module DecimalRoundTrip {
  import opened Seqs
  import opened Arith
  import opened Digits
  import Text = DecimalText
  import opened DecimalReader

  lemma {:induction false} OneUp(x: real, e: int)
    ensures TimesTen(10.0 * x, e) == TimesTen(x, e + 1)
    decreases if e < 0 then -e else e
  {
    if e > 0 {
      OneUp(x, e - 1);
    } else if e < 0 {
      OneUp(x, e + 1);
    }
  }

  /** A power of ten may move between the number and the exponent. */
  lemma {:induction false} Shifted(x: real, e: int, k: nat)
    ensures TimesTen(TimesTen(x, k), e) == TimesTen(x, e + k)
    decreases k
  {
    if k > 0 {
      OneUp(TimesTen(x, k - 1), e);
      Shifted(x, e + 1, k - 1);
    }
  }

  /** Scaling keeps different numbers apart. */
  lemma {:induction false} ScaledApart(x: real, y: real, e: int)
    ensures TimesTen(x, e) == TimesTen(y, e) <==> x == y
    ensures x > 0.0 <==> TimesTen(x, e) > 0.0
    decreases if e < 0 then -e else e
  {
    if e > 0 {
      ScaledApart(x, y, e - 1);
    } else if e < 0 {
      ScaledApart(x, y, e + 1);
    }
  }

  lemma {:induction false} ZeroScaled(e: int)
    ensures TimesTen(0.0, e) == 0.0
    decreases if e < 0 then -e else e
  {
    if e > 0 {
      ZeroScaled(e - 1);
    } else if e < 0 {
      ZeroScaled(e + 1);
    }
  }

  lemma {:induction false} Larger(x: real, k: nat)
    requires x > 0.0
    ensures TimesTen(x, k) >= x && (k > 0 ==> TimesTen(x, k) > x)
  {
    if k > 0 {
      Larger(x, k - 1);
    }
  }

  /** Different exponents give different numbers, unless the number is zero. */
  lemma ExponentsApart(x: real, a: int, b: int)
    requires x >= 0.0
    ensures TimesTen(x, a) == TimesTen(x, b) <==> x == 0.0 || a == b
  {
    ZeroScaled(a);
    ZeroScaled(b);
    if x > 0.0 {
      var low, k := if a < b then a else b, if a < b then b - a else a - b;
      Shifted(x, low, k);
      Larger(x, k);
      ScaledApart(x, TimesTen(x, k), low);
    }
  }

  lemma {:induction false} ExactTens(n: nat, k: nat)
    ensures TimesTen(n as real, k) == (n * Pow10(k)) as real
  {
    if k > 0 {
      ExactTens(n, k - 1);
      TenTimes(n, Pow10(k - 1));
    }
  }

  lemma CutValue(d: string, k: nat)
    requires k <= |d| && AllDigits(d)
    ensures DigitsValue(d) as real == TimesTen(DigitsValue(d[..k]) as real, |d| - k) + DigitsValue(d[k..]) as real
  {
    var a, b := d[..k], d[k..];
    assert d == a + b;
    hide *;
    DigitsAppend(a, b);
    ExactTens(DigitsValue(a), |b|);
  }

  /** Leaving out the digits from k on keeps the value exactly when they are all zero. */
  lemma CutIsExactIff(d: string, k: nat, e: int)
    requires k <= |d| && AllDigits(d)
    ensures TimesTen(DigitsValue(d[..k]) as real, e + |d| - k) == TimesTen(DigitsValue(d) as real, e) <==>
            forall i :: k <= i < |d| ==> d[i] == '0'
  {
    CutValue(d, k);
    var b := d[k..];
    DigitsBounded(b);
    assert (forall i :: 0 <= i < |b| ==> b[i] == '0') <==> (forall i :: k <= i < |d| ==> d[i] == '0') by {
      assert forall i :: k <= i < |d| ==> d[i] == b[i - k];
    }
    hide DigitsValue, TimesTen;
    var x := DigitsValue(d[..k]) as real;
    Shifted(x, e, |d| - k);
    ScaledApart(TimesTen(x, |d| - k), DigitsValue(d) as real, e);
  }

  lemma PlainMantissa(a: string, tail: string, mark: char)
    requires AllDigits(a) && (tail == "" || (!IsDigit(tail[0]) && tail[0] != mark))
    ensures MantissaOf(a + tail, mark) == Mantissa(a, |a|, |a|) && (a + tail)[|a|..] == tail
  {
    assert (a + tail)[..|a|] == a;
    CountDigitsIs(a + tail, |a|);
  }

  lemma PointedMantissa(a: string, b: string, tail: string, mark: char)
    requires AllDigits(a) && AllDigits(b) && (tail == "" || !IsDigit(tail[0])) && !IsDigit(mark)
    ensures var s := a + [mark] + b + tail;
      MantissaOf(s, mark) == Mantissa(a + b, |a|, |a| + 1 + |b|) && s[|a| + 1 + |b|..] == tail
  {
    var s := a + [mark] + b + tail;
    assert s[..|a|] == a && s[|a| + 1..] == b + tail;
    assert (b + tail)[..|b|] == b && (b + tail)[|b|..] == tail;
    CountDigitsIs(s, |a|);
    CountDigitsIs(b + tail, |b|);
    assert s[|a| + 1 + |b|..] == s[|a| + 1..][|b|..];
  }

  /** An exponent that has been written is read back. */
  lemma ExponentReadsBack(e: int)
    ensures ExponentOf(Text.Exponent(e)) == (e, |Text.Exponent(e)|)
  {
    hide ExponentOf, DecText;
    NoExponent();
    if e < 0 {
      SignedExponent(-e);
    } else if e > 0 {
      PlainExponent(e);
    }
  }

  /** The text of a number consists of digits, and its value is the number. */
  lemma {:induction false} WholeDigits(n: nat)
    ensures CountDigits(DecText(n)) == |DecText(n)| > 0
    ensures DecText(n)[..|DecText(n)|] == DecText(n) && DigitsValue(DecText(n)) == n
  {
    if n >= 10 {
      WholeDigits(n / 10);
    }
    assert DecText(n)[..|DecText(n)|] == DecText(n);
    CountDigitsIs(DecText(n), |DecText(n)|);
  }

  lemma SignedExponent(n: nat)
    ensures ExponentOf("e" + ("-" + DecText(n))) == (-(n as int), 2 + |DecText(n)|)
  {
    WholeDigits(n);
    var t := "e" + ("-" + DecText(n));
    assert t[2..] == DecText(n);
  }

  lemma PlainExponent(n: nat)
    ensures ExponentOf("e" + DecText(n)) == (n as int, 1 + |DecText(n)|)
  {
    WholeDigits(n);
    var t := "e" + DecText(n);
    assert t[1..] == DecText(n) && t[1] == DecText(n)[0];
  }

  /** d * 10^e */
  function Value(d: string, e: int): real
    requires AllDigits(d)
  {
    TimesTen(DigitsValue(d) as real, e)
  }

  /** In the form "0.00ddd" the zeros count as digits, and the reader takes only the first 18. */
  function DigitsCut(e: int): nat
  {
    if 1 - e > MAX_DIGITS then 1 - e - MAX_DIGITS else 0
  }

  /** The exponent is not clamped, and no digit other than zero is cut. */
  predicate Exact(d: string, e: int)
    requires AllDigits(d)
  {
    DigitsValue(d) == 0 ||
    (-MAX_EXPONENT <= e <= MAX_EXPONENT &&
     (Text.LeadingZeros(|d|, e) ==> CutIsZeros(d, e)))
  }

  predicate CutIsZeros(d: string, e: int)
  {
    forall i :: 0 <= i < |d| && i >= |d| - DigitsCut(e) ==> d[i] == '0'
  }

  lemma {:induction false} ZeroDigits(n: nat)
    ensures AllDigits(Fill('0', n)) && DigitsValue(Fill('0', n)) == 0
  {
    DigitsBounded(Fill('0', n));
  }

  lemma WholeReads(d: string, e: int)
    requires 0 < |d| <= 17 && AllDigits(d) && Text.WholeNumber(|d|, e)
    ensures Unsigned(Text.LaidOut(d, e), '.') == Val(Value(d, e))
  {
    var z := Fill('0', e);
    var text := d + z;
    ZeroDigits(e);
    DigitsAppend(d, z);
    PlainMantissa(text, "", '.');
    assert text + "" == text;
    var k := Min(|text|, MAX_DIGITS);
    CutIsExactIff(text, k, 0);
    ExactTens(DigitsValue(d), e);
    assert DigitsValue(text) as real == Value(d, e);
    assert Clamp(|text| - k) == |text| - k;
  }

  lemma SmallDigits(d: string, zeros: nat)
    requires AllDigits(d)
    ensures AllDigits("0" + (Fill('0', zeros) + d)) && DigitsValue("0" + (Fill('0', zeros) + d)) == DigitsValue(d)
  {
    var z := Fill('0', zeros + 1);
    ZeroDigits(zeros + 1);
    DigitsAppend(z, d);
    assert z + d == "0" + (Fill('0', zeros) + d);
  }

  /** What the reader makes of a mantissa and an exponent that take up the whole text. */
  lemma UnsignedIs(text: string, m: Mantissa, x: int, mark: char)
    requires MantissaOf(text, mark) == m && m.digits != "" && m.len <= |text|
    requires ExponentOf(text[m.len..]) == (x, |text| - m.len)
    ensures AllDigits(m.digits)
    ensures var k := Min(|m.digits|, MAX_DIGITS);
      Unsigned(text, mark) == Val(TimesTen(DigitsValue(m.digits[..k]) as real, Clamp(m.whole - k + x)))
  {
  }

  function SmallMantissa(d: string, e: int): string
    requires Text.LeadingZeros(|d|, e)
  {
    "0" + (Fill('0', -e - |d|) + d)
  }

  lemma SmallMantissaIs(d: string, e: int)
    requires 0 < |d| <= 17 && AllDigits(d) && Text.LeadingZeros(|d|, e)
    ensures var all := SmallMantissa(d, e);
      AllDigits(all) && |all| == 1 - e && DigitsValue(all) == DigitsValue(d) && all[1 - e - |d|..] == d
  {
    hide AllDigits, DigitsValue;
    SmallDigits(d, -e - |d|);
  }

  /** What the reader makes of the form "0.00ddd". */
  function SmallNumber(d: string, e: int): real
    requires 0 < |d| <= 17 && AllDigits(d) && Text.LeadingZeros(|d|, e)
  {
    SmallMantissaIs(d, e);
    var k := Min(1 - e, MAX_DIGITS);
    TimesTen(DigitsValue(SmallMantissa(d, e)[..k]) as real, 1 - k)
  }

  lemma NoExponent()
    ensures ExponentOf("") == (0, 0)
  {
  }

  lemma SmallText(d: string, e: int)
    requires d != "" && Text.LeadingZeros(|d|, e)
    ensures "0" + "." + (Fill('0', -e - |d|) + d) + "" == Text.LaidOut(d, e)
  {
  }

  lemma SmallIs(d: string, e: int)
    requires 0 < |d| <= 17 && AllDigits(d) && Text.LeadingZeros(|d|, e)
    ensures Unsigned(Text.LaidOut(d, e), '.') == Val(SmallNumber(d, e))
  {
    hide Text.LaidOut, Unsigned, MantissaOf, ExponentOf, TimesTen, DigitsValue;
    var b := Fill('0', -e - |d|) + d;
    NoExponent();
    SmallMantissaIs(d, e);
    PointedMantissa("0", b, "", '.');
    SmallText(d, e);
    UnsignedIs(Text.LaidOut(d, e), Mantissa("0" + b, 1, 2 + |b|), 0, '.');
  }

  lemma SmallNumberIsExactIff(d: string, e: int)
    requires 0 < |d| <= 17 && AllDigits(d) && Text.LeadingZeros(|d|, e)
    ensures SmallNumber(d, e) == Value(d, e) <==> CutIsZeros(d, e)
  {
    SmallMantissaIs(d, e);
    var all := SmallMantissa(d, e);
    CutIsExactIff(all, Min(1 - e, MAX_DIGITS), e);
    assert forall i :: 0 <= i < |d| ==> d[i] == all[i + 1 - e - |d|];
    assert forall i :: 1 - e - |d| <= i < |all| ==> all[i] == d[i - (1 - e - |d|)];
  }

  /** A mantissa that is not cut. */
  lemma ShortIs(text: string, m: Mantissa, x: int)
    requires MantissaOf(text, '.') == m && 0 < |m.digits| <= 17 && m.len <= |text|
    requires ExponentOf(text[m.len..]) == (x, |text| - m.len)
    ensures AllDigits(m.digits) && Unsigned(text, '.') == Val(Value(m.digits, Clamp(m.whole - |m.digits| + x)))
  {
    UnsignedIs(text, m, x, '.');
    assert m.digits[..|m.digits|] == m.digits;
  }

  lemma ExponentStart(e: int)
    ensures var t := Text.Exponent(e); t == "" || (!IsDigit(t[0]) && t[0] != '.')
  {
  }

  lemma PointedReads(a: string, b: string, x: int)
    requires AllDigits(a) && AllDigits(b) && 0 < |a| + |b| <= 17
    ensures AllDigits(a + b) && Unsigned(a + "." + b + Text.Exponent(x), '.') == Val(Value(a + b, Clamp(x - |b|)))
  {
    hide Unsigned, Value, Text.Exponent, MantissaOf, ExponentOf, DigitsValue, TimesTen, Clamp, AllDigits;
    ExponentStart(x);
    ExponentReadsBack(x);
    PointedMantissa(a, b, Text.Exponent(x), '.');
    ShortIs(a + "." + b + Text.Exponent(x), Mantissa(a + b, |a|, |a| + 1 + |b|), x);
  }

  lemma BareReads(d: string, e: int)
    requires 0 < |d| <= 17 && AllDigits(d)
    ensures Unsigned(d + Text.Exponent(e), '.') == Val(Value(d, Clamp(e)))
  {
    hide *;
    ExponentStart(e);
    ExponentReadsBack(e);
    PlainMantissa(d, Text.Exponent(e), '.');
    ShortIs(d + Text.Exponent(e), Mantissa(d, |d|, |d|), e);
  }

  lemma ScientificText(d: string, e: int)
    requires !Text.WholeNumber(|d|, e) && !Text.LeadingZeros(|d|, e)
    ensures var point := |d| - Text.Decimals(|d|, e);
      Text.LaidOut(d, e) ==
      if e < 0 && |d| > 1 then d[..point] + "." + d[point..] + Text.Exponent(e + |d| - point) else d + Text.Exponent(e)
  {
  }

  lemma ScientificReads(d: string, e: int)
    requires 0 < |d| <= 17 && AllDigits(d)
    requires !Text.WholeNumber(|d|, e) && !Text.LeadingZeros(|d|, e)
    ensures Unsigned(Text.LaidOut(d, e), '.') == Val(Value(d, Clamp(e)))
  {
    hide Text.LaidOut, Text.Exponent, Unsigned, TimesTen, DigitsValue, Value, Clamp;
    ScientificText(d, e);
    if e < 0 && |d| > 1 {
      var point := |d| - Text.Decimals(|d|, e);
      PointedReads(d[..point], d[point..], e + |d| - point);
      assert d[..point] + d[point..] == d;
    } else {
      BareReads(d, e);
    }
  }

  /** A number of at most 17 digits reads back as itself exactly when Exact says so. */
  lemma UnsignedReadsBack(d: string, e: int)
    requires 0 < |d| <= 17 && AllDigits(d)
    ensures var r := Unsigned(Text.LaidOut(d, e), '.');
      r.Val? && (r.x == Value(d, e) <==> Exact(d, e))
  {
    if Text.WholeNumber(|d|, e) {
      WholeReads(d, e);
    } else if Text.LeadingZeros(|d|, e) {
      SmallIs(d, e);
      SmallNumberIsExactIff(d, e);
      DigitsBounded(d);
    } else {
      ScientificReads(d, e);
      ExponentsApart(DigitsValue(d) as real, Clamp(e), e);
    }
  }

  function Signed(negative: bool, x: real): real
  {
    if negative then -x else x
  }

  /** The sign is taken off again. */
  lemma SignReadsBack(negative: bool, text: string)
    requires text != "" && IsDigit(text[0]) && Unsigned(text, '.').Val?
    ensures Read((if negative then "-" else "") + text, '.') == Val(Signed(negative, Unsigned(text, '.').x))
  {
    assert !Spells(text, "nan") && !Spells(text, "inf") && SignLength(text) == 0;
    hide Spells, Unsigned;
    if negative {
      assert ("-" + text)[1..] == text;
    } else {
      assert "" + text == text && text[0..] == text;
    }
  }

  /**
   Printing and reading undo each other: for every sign, every digit string of at most 17 digits
   and every exponent the text reads as a number, and it is the number that was printed exactly
   when its exponent is not clamped and no digit other than zero is cut.
   */
  lemma PrintThenRead(negative: bool, d: string, e: int)
    requires 0 < |d| <= 17 && AllDigits(d)
    ensures var r := Read(Text.PrintedText(negative, Text.Digits(d, e)), '.');
      r.Val? && (r.x == Signed(negative, Value(d, e)) <==> Exact(d, e))
  {
    UnsignedReadsBack(d, e);
    SignReadsBack(negative, Text.LaidOut(d, e));
  }

  lemma ZeroReadsBack(negative: bool)
    ensures Read(Text.PrintedText(negative, Text.Zero), '.') == Val(0.0)
  {
    PlainMantissa("0", "", '.');
    assert "0" + "" == "0";
    LastDigit("", '0');
    assert "" + "0" == "0" && "0"[..1] == "0";
    UnsignedIs("0", Mantissa("0", 1, 1), 0, '.');
    assert Unsigned("0", '.') == Val(0.0);
    SignReadsBack(negative, "0");
  }

  lemma InfinityIsSpelled()
    ensures Spells("inf", "inf") && !Spells("inf", "nan") && SignLength("inf") == 0
  {
    assert Lower("inf"[0]) == 'i';
  }

  lemma InfinityReadsBack(negative: bool)
    ensures Read(Text.PrintedText(negative, Text.Infinite), '.') == Inf(negative)
  {
    hide Spells, Unsigned;
    InfinityIsSpelled();
    if negative {
      assert ("-" + "inf")[1..] == "inf";
    } else {
      assert "" + "inf" == "inf" && "inf"[0..] == "inf";
    }
  }

  /** Seventeen digits after "0.00" lose two of them, as in 0.0012345678901234567. */
  lemma LongFractionIsCut(d: string)
    requires |d| == 17 && AllDigits(d) && d[16] != '0'
    ensures Text.LaidOut(d, -19) == "0.00" + d && Read("0.00" + d, '.') != Val(Value(d, -19))
  {
    assert Fill('0', 2) == "00";
    assert "0." + Fill('0', 2) + d == "0.00" + d;
    assert Text.LaidOut(d, -19) == "0.00" + d;
    assert Text.PrintedText(false, Text.Digits(d, -19)) == "0.00" + d;
    hide Read, Text.LaidOut, Text.PrintedText, DigitsValue, TimesTen;
    DigitsBounded(d);
    PrintThenRead(false, d, -19);
  }

  /** The exponent of a subnormal number is clamped. */
  lemma SmallExponentIsClamped()
    ensures Text.LaidOut("5", -324) == "5e-324"
    ensures Read("5e-324", '.') != Val(Value("5", -324))
  {
    LastDigit("", '5');
    assert "" + "5" == "5";
    assert DecText(32) == "32";
    assert DecText(324) == "324";
    assert "5" + ("e" + ("-" + "324")) == "5e-324";
    PrintThenRead(false, "5", -324);
    assert "" + "5e-324" == "5e-324";
  }

  /** Prints a number into the buffer and reads it from there. */
  method PrintAndRead(negative: bool, d: string, e: int, dst: array<char>) returns (r: Number)
    requires 0 < |d| <= 17 && AllDigits(d) && -999 <= e <= 966 && dst.Length >= 33
    modifies dst
    ensures r.Val? && (r.x == Signed(negative, Value(d, e)) <==> Exact(d, e))
  {
    Text.TextFits(negative, d, e);
    var end := Text.PrintNumber(negative, Text.Digits(d, e), dst);
    r := Strtod(dst[..end], '.');
    PrintThenRead(negative, d, e);
  }
}
