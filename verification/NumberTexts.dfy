/**
 Which texts the reader takes for numbers, and what they read as: an optional sign, digits with at
 most one mark among them, and an optional exponent.
 */
module NumberTexts {
  import opened Arith
  import opened Digits
  import opened DecimalReader
  import opened DecimalRoundTrip

  datatype Sign = None | Plus | Minus
  {
    function Text(): string
    {
      match this
      case None => ""
      case Plus => "+"
      case Minus => "-"
    }

    function Of(n: int): int
    {
      if Minus? then -n else n
    }
  }

  datatype Exponent = Absent | Exponent(letter: char, sign: Sign, digits: string)
  {
    predicate Ok()
    {
      Exponent? ==> letter in "EeSsFfDdLl" && AllDigits(digits)
    }

    function Text(): string
    {
      if Absent? then "" else [letter] + (sign.Text() + digits)
    }

    function Of(): int
      requires Ok()
    {
      if Absent? then 0 else sign.Of(DigitsValue(digits))
    }
  }

  /** The parts of a number's text. The decimals are empty where there is no mark. */
  datatype Parts = Parts(sign: Sign, whole: string, pointed: bool, decimals: string, exponent: Exponent)
  {
    /** A mark that could be taken for the sign or for the letter of the exponent is so taken. */
    predicate Ok(mark: char)
    {
      AllDigits(whole) && AllDigits(decimals) && whole + decimals != "" && exponent.Ok() &&
      (!pointed ==> decimals == "" && (exponent.Exponent? ==> exponent.letter != mark)) &&
      (pointed && whole == "" && sign.None? ==> mark !in {'+', '-'})
    }

    function Mantissa(mark: char): string
    {
      if pointed then whole + [mark] + decimals else whole
    }

    function Text(mark: char): string
    {
      sign.Text() + (Mantissa(mark) + exponent.Text())
    }

    function Digits(): (r: string)
    {
      whole + decimals
    }

    /** The exponent that belongs to the digits that are kept. */
    function Scale(): int
      requires exponent.Ok()
    {
      |whole| - Min(|Digits()|, MAX_DIGITS) + exponent.Of()
    }

    /** The number that is written. */
    function Number(): real
      requires exponent.Ok() && AllDigits(Digits())
    {
      Signed(sign.Minus?, TimesTen(DigitsValue(Digits()) as real, exponent.Of() - |decimals|))
    }

    /** The digits are all zero, or no digit other than zero is cut and the exponent is not clamped. */
    predicate Exact()
      requires exponent.Ok()
    {
      var d := Digits();
      (forall i :: 0 <= i < |d| ==> d[i] == '0') ||
      ((forall i :: MAX_DIGITS <= i < |d| ==> d[i] == '0') && -MAX_EXPONENT <= Scale() <= MAX_EXPONENT)
    }
  }

  lemma ExponentReads(x: Exponent)
    requires x.Ok()
    ensures ExponentOf(x.Text()) == (x.Of(), |x.Text()|)
    ensures x.Text() == "" || (!IsDigit(x.Text()[0]) && x.Exponent? && x.Text()[0] == x.letter)
  {
    hide ExponentOf, DigitsValue, CountDigits;
    NoExponent();
    if x.Exponent? {
      DigitsRead(x.digits);
      match x.sign
      case None => PlainExponentReads(x.letter, x.digits);
      case Plus => SignedExponentReads(x.letter, '+', x.digits);
      case Minus => SignedExponentReads(x.letter, '-', x.digits);
    }
  }

  lemma DigitsRead(n: string)
    requires AllDigits(n)
    ensures CountDigits(n) == |n| && n[..|n|] == n && "" + n == n
  {
    CountDigitsIs(n, |n|);
  }

  /** An exponent whose digits go on to the end of the text. */
  lemma ExponentToEnd(t: string, n: string, signed: bool)
    requires t != "" && ExponentLetter(t[0]) && AllDigits(n)
    requires signed <==> 1 < |t| && t[1] in ['-', '+']
    requires t[if signed then 2 else 1..] == n
    ensures var e: int := DigitsValue(n);
            ExponentOf(t) == (if signed && t[1] == '-' then -e else e, |t|)
  {
    hide DigitsValue, CountDigits;
    DigitsRead(n);
  }

  lemma PlainExponentReads(letter: char, n: string)
    requires ExponentLetter(letter) && AllDigits(n)
    ensures ExponentOf([letter] + n) == (DigitsValue(n) as int, 1 + |n|)
  {
    hide ExponentOf, ExponentLetter, DigitsValue, CountDigits;
    var t := [letter] + n;
    assert t[1..] == n && (n != "" ==> t[1] == n[0]);
    ExponentToEnd(t, n, false);
  }

  lemma SignedExponentReads(letter: char, sign: char, n: string)
    requires ExponentLetter(letter) && AllDigits(n) && sign in ['-', '+']
    ensures var e: int := DigitsValue(n);
            ExponentOf([letter] + ([sign] + n)) == (if sign == '-' then -e else e, 2 + |n|)
  {
    hide ExponentOf, ExponentLetter, DigitsValue, CountDigits;
    var t := [letter] + ([sign] + n);
    assert t[1] == sign && t[2..] == n;
    ExponentToEnd(t, n, true);
  }

  /** What the reader makes of the text behind the sign. */
  lemma UnsignedReads(t: Parts, mark: char)
    requires t.Ok(mark) && !IsDigit(mark)
    ensures AllDigits(t.Digits())
    ensures var d := t.Digits();
            Unsigned(t.Mantissa(mark) + t.exponent.Text(), mark)
            == Val(TimesTen(DigitsValue(d[..Min(|d|, MAX_DIGITS)]) as real, Clamp(t.Scale())))
  {
    hide Unsigned, MantissaOf, ExponentOf, TimesTen, DigitsValue, Clamp;
    var x := t.exponent.Text();
    ExponentReads(t.exponent);
    if t.pointed {
      PointedMantissa(t.whole, t.decimals, x, mark);
      var m := DecimalReader.Mantissa(t.Digits(), |t.whole|, |t.whole| + 1 + |t.decimals|);
      UnsignedIs(t.Mantissa(mark) + x, m, t.exponent.Of(), mark);
    } else {
      assert t.Digits() == t.whole;
      PlainMantissa(t.whole, x, mark);
      var m := DecimalReader.Mantissa(t.whole, |t.whole|, |t.whole|);
      UnsignedIs(t.Mantissa(mark) + x, m, t.exponent.Of(), mark);
    }
  }

  /** The sign comes off, and what is left is neither of the two words. */
  lemma SignComesOff(t: Parts, mark: char)
    requires t.Ok(mark) && !IsDigit(mark) && Unsigned(t.Mantissa(mark) + t.exponent.Text(), mark).Val?
    ensures Read(t.Text(mark), mark)
         == Val(Signed(t.sign.Minus?, Unsigned(t.Mantissa(mark) + t.exponent.Text(), mark).x))
  {
    hide Unsigned, Exponent.Text;
    var b, s := t.Mantissa(mark) + t.exponent.Text(), t.Text(mark);
    if t.whole != "" {
      assert IsDigit(b[0]) && b[0] == t.whole[0];
    } else {
      assert b[0] == mark && IsDigit(b[1]) && b[1] == t.decimals[0];
    }
    assert s[|t.sign.Text()|..] == b && SignLength(s) == |t.sign.Text()|;
    assert !Spells(b, "nan") && !Spells(b, "inf");
  }

  lemma {:induction false} Monotone(x: real, y: real, e: int)
    requires x < y
    ensures TimesTen(x, e) < TimesTen(y, e)
    decreases if e < 0 then -e else e
  {
    if e > 0 {
      Monotone(x, y, e - 1);
    } else if e < 0 {
      Monotone(x, y, e + 1);
    }
  }

  /** The value of digits lies between that of the first k and that of the next larger k digits, scaled. */
  lemma CutBounds(d: string, k: nat)
    requires k <= |d| && AllDigits(d)
    ensures AllDigits(d[..k])
    ensures var n := DigitsValue(d[..k]) as real;
            TimesTen(n, |d| - k) <= DigitsValue(d) as real < TimesTen(n + 1.0, |d| - k)
  {
    hide DigitsValue, Pow10, TimesTen;
    var a, b := d[..k], d[k..];
    assert d == a + b;
    DigitsAppend(a, b);
    DigitsBounded(b);
    ExactTens(DigitsValue(a), |b|);
    ExactTens(DigitsValue(a) + 1, |b|);
    MulSum(DigitsValue(a), 1, Pow10(|b|));
    assert (DigitsValue(a) + 1) as real == DigitsValue(a) as real + 1.0;
  }

  /** A number whose exponent is clamped is another one, cut or not. */
  lemma ClampedIsOther(d: string, k: nat, e: int)
    requires k <= |d| && AllDigits(d) && DigitsValue(d) > 0 && Clamp(e) != e
    ensures TimesTen(DigitsValue(d[..k]) as real, Clamp(e)) != TimesTen(DigitsValue(d) as real, e - (|d| - k))
  {
    hide DigitsValue, TimesTen;
    var c, n, all := |d| - k, DigitsValue(d[..k]) as real, DigitsValue(d) as real;
    CutBounds(d, k);
    if n == 0.0 {
      ZeroScaled(Clamp(e));
      ScaledApart(all, all, e - c);
    } else if e > MAX_EXPONENT {
      Shifted(n, e - c, c);
      NotBelow(TimesTen(n, c), all, e - c);
      Shifted(n, MAX_EXPONENT, e - MAX_EXPONENT);
      Larger(n, e - MAX_EXPONENT);
      Monotone(n, TimesTen(n, e - MAX_EXPONENT), MAX_EXPONENT);
    } else {
      var j := -MAX_EXPONENT - e;
      Shifted(n, e, j);
      TenAtLeast(n, j);
      Shifted(TimesTen(n, j), e - c, c);
      NotBelow(n + 1.0, TimesTen(n, j), c);
      Monotone(all, TimesTen(TimesTen(n, j), c), e - c);
    }
  }

  lemma NotBelow(x: real, y: real, e: int)
    requires x <= y
    ensures TimesTen(x, e) <= TimesTen(y, e)
  {
    if x < y {
      Monotone(x, y, e);
    }
  }

  lemma TenAtLeast(n: real, j: nat)
    requires n >= 1.0 && j > 0
    ensures TimesTen(n, j) >= n + 1.0
  {
    hide TimesTen;
    OneUp(n, j - 1);
    Larger(10.0 * n, j - 1);
  }

  /** Cutting and clamping keep the number, if and only if nothing but zeros is cut and nothing is clamped. */
  lemma KeptIff(d: string, e: int)
    requires AllDigits(d)
    ensures var k := Min(|d|, MAX_DIGITS);
            (TimesTen(DigitsValue(d[..k]) as real, Clamp(e)) == TimesTen(DigitsValue(d) as real, e - (|d| - k))
             <==> (forall i :: 0 <= i < |d| ==> d[i] == '0') ||
                  ((forall i :: k <= i < |d| ==> d[i] == '0') && -MAX_EXPONENT <= e <= MAX_EXPONENT))
  {
    hide DigitsValue, TimesTen, Pow10;
    var k := Min(|d|, MAX_DIGITS);
    DigitsBounded(d);
    if Clamp(e) == e {
      CutIsExactIff(d, k, e - (|d| - k));
    } else if DigitsValue(d) > 0 {
      ClampedIsOther(d, k, e);
    } else {
      ZerosCut(d, k);
      ZeroScaled(Clamp(e));
      ZeroScaled(e - (|d| - k));
    }
  }

  lemma ZerosCut(d: string, k: nat)
    requires AllDigits(d) && k <= |d| && forall i :: 0 <= i < |d| ==> d[i] == '0'
    ensures AllDigits(d[..k]) && DigitsValue(d[..k]) == 0
  {
    DigitsBounded(d[..k]);
  }

  /** What is read is the number that is written. */
  lemma ReadsExactlyIff(t: Parts, mark: char)
    requires t.Ok(mark)
    ensures AllDigits(t.Digits())
    ensures var d := t.Digits();
            (Signed(t.sign.Minus?, TimesTen(DigitsValue(d[..Min(|d|, MAX_DIGITS)]) as real, Clamp(t.Scale()))) == t.Number()
             <==> t.Exact())
  {
    hide DigitsValue, TimesTen, Clamp, Exponent.Of;
    var d := t.Digits();
    KeptIff(d, t.Scale());
    assert t.Scale() - (|d| - Min(|d|, MAX_DIGITS)) == t.exponent.Of() - |t.decimals|;
    assert Min(|d|, MAX_DIGITS) < |d| ==> Min(|d|, MAX_DIGITS) == MAX_DIGITS;
  }

  /**
   A number's text reads as the number that is written, whatever its sign, its mark, its exponent
   letter and the sign of its exponent, if and only if no digit other than zero is cut and the exponent is
   not clamped.
   */
  lemma NumberReads(t: Parts, mark: char)
    requires t.Ok(mark) && !IsDigit(mark)
    ensures AllDigits(t.Digits())
    ensures var r := Read(t.Text(mark), mark);
            r.Val? && (r.x == t.Number() <==> t.Exact())
  {
    hide Unsigned, Read, TimesTen, DigitsValue, Parts.Text, Parts.Exact, Parts.Ok;
    UnsignedReads(t, mark);
    SignComesOff(t, mark);
    ReadsExactlyIff(t, mark);
  }

  /** An exponent that takes up the rest of the text. */
  lemma ExponentFound(t: string) returns (x: Exponent)
    requires ExponentOf(t).1 == |t|
    ensures x.Ok() && x.Text() == t && (x.Exponent? ==> x.letter == t[0])
  {
    x := Absent;
    if t != "" {
      var from := if 1 < |t| && t[1] in ['-', '+'] then 2 else 1;
      assert t[from..][..|t[from..]|] == t[from..];
      var sign := if from == 1 then None else if t[1] == '-' then Minus else Plus;
      x := Exponent(t[0], sign, t[from..]);
      assert t == [t[0]] + (sign.Text() + t[from..]);
    }
  }

  /** A mantissa in its text: digits, and a mark with more digits behind it or no mark. */
  lemma MantissaText(b: string, mark: char) returns (whole: string, pointed: bool, decimals: string)
    requires !IsDigit(mark)
    ensures var m := MantissaOf(b, mark);
            AllDigits(whole) && AllDigits(decimals) && whole + decimals == m.digits &&
            (if pointed then whole + [mark] + decimals else whole) == b[..m.len] &&
            if pointed then whole == "" ==> b[0] == mark else decimals == "" && (m.len < |b| ==> b[m.len] != mark)
  {
    var n := CountDigits(b);
    whole, pointed, decimals := b[..n], n < |b| && b[n] == mark, "";
    if pointed {
      var t := b[n + 1..];
      var k := CountDigits(t);
      decimals := t[..k];
      assert b[..n + 1 + k] == b[..n] + [b[n]] + t[..k];
    } else {
      assert b[..n] + "" == b[..n];
    }
  }

  lemma UnsignedParts(b: string, mark: char)
    requires Unsigned(b, mark).Val?
    ensures var m := MantissaOf(b, mark); m.digits != "" && ExponentOf(b[m.len..]).1 == |b[m.len..]|
  {
    hide MantissaOf, ExponentOf, DigitsValue, TimesTen;
  }

  /** A text that reads as a number without a sign consists of a mantissa and an exponent. */
  lemma PartsFound(b: string, mark: char, sign: Sign) returns (t: Parts)
    requires Unsigned(b, mark).Val? && !IsDigit(mark)
    requires sign.None? ==> b == "" || b[0] !in {'+', '-'}
    ensures t.Ok(mark) && t.sign == sign && t.Mantissa(mark) + t.exponent.Text() == b
  {
    hide Unsigned, MantissaOf, ExponentOf, DigitsValue, TimesTen, Exponent.Text, Exponent.Ok, AllDigits;
    UnsignedParts(b, mark);
    var len := MantissaOf(b, mark).len;
    var x := ExponentFound(b[len..]);
    var whole, pointed, decimals := MantissaText(b, mark);
    t := Parts(sign, whole, pointed, decimals, x);
    assert b == b[..len] + b[len..];
    assert x.Exponent? && len < |b| ==> x.letter == b[len];
    TextOfExponent(x);
  }

  lemma TextOfExponent(x: Exponent)
    ensures x.Exponent? ==> x.Text() != ""
  {
  }

  /** Only the text of a number reads as one: whatever else stands behind it gives NaReal. */
  lemma ReadsIff(s: string, mark: char)
    requires !IsDigit(mark)
    ensures Read(s, mark).Val? <==> exists t: Parts :: t.Ok(mark) && t.Text(mark) == s
  {
    hide Unsigned, Spells, Parts.Ok, Parts.Mantissa;
    if Read(s, mark).Val? {
      var sign := if s == "" then None else if s[0] == '-' then Minus else if s[0] == '+' then Plus else None;
      assert sign.Text() + s[SignLength(s)..] == s;
      var t := PartsFound(s[SignLength(s)..], mark, sign);
      assert t.Text(mark) == s;
    }
    if t: Parts :| t.Ok(mark) && t.Text(mark) == s {
      NumberReads(t, mark);
    }
  }

  function WithoutSign(s: string): string
  {
    if s != "" && s[0] in {'+', '-'} then s[1..] else s
  }

  /** The two words, in upper and lower case. A sign counts for infinity only. */
  lemma WordsRead(s: string, mark: char)
    ensures var b := WithoutSign(s);
            Read(s, mark) == NaN <==> |b| == 3 && b[0] in {'N', 'n'} && b[1] in {'A', 'a'} && b[2] in {'N', 'n'}
    ensures var b := WithoutSign(s);
            Read(s, mark).Inf? <==> |b| == 3 && b[0] in {'I', 'i'} && b[1] in {'N', 'n'} && b[2] in {'F', 'f'}
    ensures Read(s, mark).Inf? ==> (Read(s, mark).negative <==> s[0] == '-')
  {
    hide Unsigned;
    var b := WithoutSign(s);
    assert b == s[SignLength(s)..];
    WordIs(b, "nan");
    WordIs(b, "inf");
    NeverAWord(b, mark);
  }

  lemma NeverAWord(b: string, mark: char)
    ensures var r := Unsigned(b, mark); r == NaReal || r.Val?
  {
  }

  lemma WordIs(b: string, word: string)
    requires |word| == 3
    ensures Spells(b, word) <==> |b| == 3 && Lower(b[0]) == word[0] && Lower(b[1]) == word[1] && Lower(b[2]) == word[2]
  {
  }
}
