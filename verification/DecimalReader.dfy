/** Reading a number from its text, over exact reals. */
module DecimalReader {
  import opened Arith
  import opened Digits
  import opened DiyFp

  /** NaReal is what the reader returns for a text that is not a number. */
  datatype Number = NaReal | NaN | Inf(negative: bool) | Val(x: real)

  /** A mantissa: its digits, how many of them stand before the mark, and its length in the text. */
  datatype Mantissa = Mantissa(digits: seq<char>, whole: nat, len: nat)

  /** Any larger exponent would overflow or underflow anyway. */
  const MAX_EXPONENT := 307

  /** Larger mantissas are cut. */
  const MAX_DIGITS := 18

  /** The number of digits a text starts with. */
  function CountDigits(s: seq<char>): (n: nat)
    ensures n <= |s| && AllDigits(s[..n]) && (n < |s| ==> !IsDigit(s[n]))
  {
    if s == [] || !IsDigit(s[0]) then 0 else
      var n := 1 + CountDigits(s[1..]);
      assert forall i :: 1 <= i < n ==> s[i] == s[1..][..n - 1][i - 1];
      n
  }

  lemma {:induction false} CountDigitsIs(s: seq<char>, n: nat)
    requires n <= |s| && AllDigits(s[..n]) && (n < |s| ==> !IsDigit(s[n]))
    ensures CountDigits(s) == n
  {
    if n > 0 {
      assert IsDigit(s[..n][0]);
      assert forall i :: 1 <= i < n ==> IsDigit(s[..n][i]);
      assert s[1..][..n - 1] == s[..n][1..];
      CountDigitsIs(s[1..], n - 1);
    }
  }

  /** The digits up to the mark, and the digits after it. */
  function MantissaOf(s: seq<char>, mark: char): (m: Mantissa)
    ensures m.len <= |s| && AllDigits(m.digits) && m.whole <= |m.digits| <= m.len <= |m.digits| + 1
  {
    var n := CountDigits(s);
    if n < |s| && s[n] == mark then
      var t := s[n + 1..];
      var k := CountDigits(t);
      Mantissa(s[..n] + t[..k], n, n + 1 + k)
    else
      Mantissa(s[..n], n, n)
  }

  predicate ExponentLetter(c: char)
  {
    c in ['E', 'e', 'S', 's', 'F', 'f', 'D', 'd', 'L', 'l']
  }

  /** An optional exponent: the number, and where it ends. */
  function ExponentOf(t: seq<char>): (r: (int, nat))
    ensures r.1 <= |t|
  {
    if t == [] || !ExponentLetter(t[0]) then (0, 0) else
      var signed := 1 < |t| && t[1] in ['-', '+'];
      var from := if signed then 2 else 1;
      var n := CountDigits(t[from..]);
      var e: int := DigitsValue(t[from..][..n]);
      (if signed && t[1] == '-' then -e else e, from + n)
  }

  function Clamp(e: int): int
  {
    if e < -MAX_EXPONENT then -MAX_EXPONENT else if e > MAX_EXPONENT then MAX_EXPONENT else e
  }

  /** x * 10^e */
  function TimesTen(x: real, e: int): real
    decreases if e < 0 then -e else e
  {
    if e == 0 then x else if e > 0 then 10.0 * TimesTen(x, e - 1) else TimesTen(x, e + 1) / 10.0
  }

  lemma {:induction false} TimesTenIsProduct(x: real, e: nat)
    ensures TimesTen(x, e) == x * Pow10(e) as real
  {
    if e > 0 {
      TimesTenIsProduct(x, e - 1);
    }
  }

  lemma {:induction false} TimesTenIsQuotient(x: real, e: nat)
    ensures TimesTen(x, -(e as int)) == x / Pow10(e) as real
  {
    if e > 0 {
      TimesTenIsQuotient(x, e - 1);
    }
  }

  function Lower(c: char): char
  {
    if 'A' <= c <= 'Z' then (c as int + 32) as char else c
  }

  predicate Spells(s: seq<char>, word: seq<char>)
  {
    |s| == |word| && forall i :: 0 <= i < |s| ==> Lower(s[i]) == word[i]
  }

  function SignLength(s: seq<char>): (n: nat)
    ensures n <= |s|
  {
    if s != [] && s[0] in ['-', '+'] then 1 else 0
  }

  /** The first digits of the mantissa, scaled, when mantissa and exponent take up the whole text. */
  function NumberOf(m: Mantissa, e: (int, nat), len: nat): (r: Number)
    requires AllDigits(m.digits)
  {
    var kept := Min(|m.digits|, MAX_DIGITS);
    if kept == 0 || m.len + e.1 != len then NaReal
    else Val(TimesTen(DigitsValue(m.digits[..kept]) as real, Clamp(m.whole - kept + e.0)))
  }

  /** A number without its sign. */
  function Unsigned(b: seq<char>, mark: char): (r: Number)
  {
    var m := MantissaOf(b, mark);
    NumberOf(m, ExponentOf(b[m.len..]), |b|)
  }

  /** What a text reads as. */
  function Read(s: seq<char>, mark: char): (r: Number)
  {
    var b := s[SignLength(s)..];
    var negative := s != [] && s[0] == '-';
    if Spells(b, "nan") then NaN
    else if Spells(b, "inf") then Inf(negative)
    else match Unsigned(b, mark)
      case Val(x) => Val(if negative then -x else x)
      case other => other
  }

  /** Words of the original's int type: arithmetic on it is checked. */
  newtype i32 = x: int | -0x8000_0000 <= x < 0x8000_0000

  /** The binary powers of ten, 10^(2^i) for i up to 8. */
  function PowersOf10(i: nat): (r: real)
  {
    if i == 0 then 10.0 else var h := PowersOf10(i - 1); h * h
  }

  lemma {:induction false} TableEntry(i: nat)
    ensures PowersOf10(i) == Pow10(Pow2(i)) as real
  {
    if i == 0 {
      assert Pow10(1) == 10;
    } else {
      var h := Pow2(i - 1);
      TableEntry(i - 1);
      Pow10Sum(h, h);
    }
  }

  /** The bits of the exponent still to be handled, from bit i on. */
  ghost predicate BitsLeft(exp: nat, i: nat, e: nat, power: real)
  {
    exp * Pow2(i) <= e && (exp > 0 ==> i <= 8) && power == Pow10(e - exp * Pow2(i)) as real
  }

  /** The power of ten is put together from one table entry per set bit of the exponent. */
  method PowerFromTable(e: nat) returns (power: real)
    requires e <= MAX_EXPONENT
    ensures power == Pow10(e) as real
  {
    power := 1.0;
    var exp: nat, i: nat := e, 0;
    while exp != 0
      invariant BitsLeft(exp, i, e, power)
      decreases exp
    {
      NextBit(exp, i, e, power);
      if exp % 2 == 1 {
        power := power * PowersOf10(i);
      }
      exp := exp / 2;
      i := i + 1;
    }
  }

  lemma NextBit(exp: nat, i: nat, e: nat, power: real)
    requires BitsLeft(exp, i, e, power) && exp > 0 && e <= MAX_EXPONENT
    ensures BitsLeft(exp / 2, i + 1, e, if exp % 2 == 1 then power * PowersOf10(i) else power)
  {
    OneBit(exp, i, exp * Pow2(i));
    assert exp / 2 * Pow2(i + 1) <= e;
    BitTaken(exp * Pow2(i), exp / 2 * Pow2(i + 1), i, e, power, exp % 2 == 1);
    TableSuffices(exp / 2, i + 1);
  }

  lemma BitTaken(rest: nat, rest1: nat, i: nat, e: nat, power: real, bit: bool)
    requires rest <= e && rest1 == (if bit then rest - Pow2(i) else rest)
    requires power == Pow10(e - rest) as real
    ensures (if bit then power * PowersOf10(i) else power) == Pow10(e - rest1) as real
  {
    OneEntry(e - rest, i);
  }

  /** Halving the exponent moves its lowest bit out. */
  lemma OneBit(exp: nat, i: nat, rest: nat)
    requires exp * Pow2(i) == rest
    ensures exp / 2 * Pow2(i + 1) == (if exp % 2 == 1 then rest - Pow2(i) else rest)
    ensures 0 <= exp / 2 * Pow2(i + 1)
  {
    var half: nat, p := exp / 2, Pow2(i);
    assert exp == 2 * half + exp % 2;
    MulSum(2 * half, exp % 2, p);
  }

  /** The table has an entry for every bit there is. */
  lemma TableSuffices(exp: nat, i: nat)
    requires exp * Pow2(i) <= MAX_EXPONENT && i <= 9
    ensures exp > 0 ==> i <= 8
  {
    assert Pow2(9) == 512;
    if i == 9 {
      MulSum(exp - 1, 1, Pow2(i));
    }
  }

  /** One table entry more. */
  lemma OneEntry(done: nat, i: nat)
    ensures Pow10(done) as real * PowersOf10(i) == Pow10(done + Pow2(i)) as real
  {
    TableEntry(i);
    Pow10Sum(done, Pow2(i));
  }

  /** The span the scan has found is the mantissa. */
  lemma MantissaFound(b: seq<char>, mark: char, size: nat, decPt: int)
    requires size <= |b| && decPt < size && !IsDigit(mark)
    requires 0 <= decPt ==> b[decPt] == mark
    requires forall i :: 0 <= i < size && i != decPt ==> IsDigit(b[i])
    requires size < |b| ==> !IsDigit(b[size]) && (decPt < 0 ==> b[size] != mark)
    ensures MantissaOf(b, mark) ==
      if decPt < 0 then Mantissa(b[..size], size, size)
      else Mantissa(b[..decPt] + b[decPt + 1..size], decPt, size)
  {
    if decPt < 0 {
      CountDigitsIs(b, size);
    } else {
      CountDigitsIs(b, decPt);
      var t := b[decPt + 1..];
      CountDigitsIs(t, size - decPt - 1);
      assert t[..size - decPt - 1] == b[decPt + 1..size];
    }
  }

  /** Counts the characters of the mantissa and locates the mark. */
  method ScanMantissa(s: seq<char>, from: nat, mark: char) returns (p: nat, mantSize: nat, decPt: int)
    requires from <= |s| && !IsDigit(mark)
    ensures var m := MantissaOf(s[from..], mark);
      p == from + m.len && mantSize == |m.digits| && decPt == m.whole
  {
    p, mantSize, decPt := from, 0, -1;
    while p != |s|
      invariant from <= p == from + mantSize <= |s| && -1 <= decPt < mantSize
      invariant 0 <= decPt ==> s[from + decPt] == mark
      invariant forall i :: from <= i < p && i != from + decPt ==> IsDigit(s[i])
      decreases |s| - p
    {
      var c := s[p];
      if !IsDigit(c) {
        if c != mark || decPt >= 0 { break; }
        decPt := mantSize;
      }
      p := p + 1;
      mantSize := mantSize + 1;
    }
    MantissaFound(s[from..], mark, mantSize, if decPt < 0 then -1 else decPt);
    if decPt < 0 {
      decPt := mantSize;
    } else {
      mantSize := mantSize - 1;
    }
  }

  /** Where the scan stands when j digits have been taken: the mark is stepped over with the next digit. */
  function Cursor(m: Mantissa, j: nat): nat
  {
    if j > m.whole && m.len > |m.digits| then j + 1 else j
  }

  lemma DigitsAreInside(b: seq<char>, mark: char, j: nat)
    requires !IsDigit(mark)
    ensures var m := MantissaOf(b, mark); j < |m.digits| ==> Cursor(m, j) < |b|
  {
  }

  /** Takes the next digit and steps over the mark. */
  method TakeDigit(s: seq<char>, ghost from: nat, mark: char, p0: nat, ghost j: nat) returns (c: char, p: nat)
    requires from <= |s| && !IsDigit(mark)
    requires var m := MantissaOf(s[from..], mark); j < |m.digits| && p0 == from + Cursor(m, j)
    ensures var m := MantissaOf(s[from..], mark); c == m.digits[j] && p == from + Cursor(m, j + 1)
  {
    ghost var b := s[from..];
    assert s[p0] == b[p0 - from];
    c := s[p0];
    p := p0 + 1;
    if c == mark {
      assert s[p] == b[p - from];
      c := s[p];
      p := p + 1;
    }
  }

  /** Takes up to nine digits of the mantissa m, until `stop` of them are left. */
  method TakeDigits(
    s: seq<char>, ghost from: nat, mark: char, p0: nat, left: nat, stop: nat, ghost m: Mantissa, ghost j: nat)
    returns (frac: i32, p: nat)
    requires from <= |s| && m == MantissaOf(s[from..], mark) && !IsDigit(mark)
    requires stop <= left <= stop + 9 && j + left <= |m.digits| && p0 == from + Cursor(m, j)
    ensures frac as int == DigitsValue(m.digits[j..j + left - stop]) && p == from + Cursor(m, j + left - stop)
  {
    hide MantissaOf, Cursor, Pow10;
    p, frac := p0, 0;
    var mantSize := left;
    while mantSize > stop && p != |s|
      invariant stop <= mantSize <= left
      invariant frac as int == DigitsValue(m.digits[j..j + left - mantSize])
      invariant p == from + Cursor(m, j + left - mantSize)
      decreases mantSize
    {
      ghost var k := j + left - mantSize;
      NineDigitsFit(m.digits, j, k);
      var c;
      c, p := TakeDigit(s, from, mark, p, k);
      frac := frac * 10 + (c as int - '0' as int) as i32;
      mantSize := mantSize - 1;
    }
    DigitsAreInside(s[from..], mark, j + left - mantSize);
  }

  /** The value of at most nine digits fits the int type. */
  lemma NineDigitsFit(s: seq<char>, j: nat, k: nat)
    requires j <= k < |s| && k - j <= 8 && AllDigits(s)
    ensures DigitsValue(s[j..k]) < 100_000_000
    ensures DigitsValue(s[j..k + 1]) == 10 * DigitsValue(s[j..k]) + (s[k] as int - '0' as int)
  {
    DigitsBounded(s[j..k]);
    assert Pow10(8) == 100_000_000;
    LastDigit(s[j..k], s[k]);
    assert s[j..k + 1] == s[j..k] + [s[k]];
  }

  /** Reads the mantissa's first digits as an integer, nine at a time. */
  method ReadFraction(s: seq<char>, ghost from: nat, mark: char, p0: nat, size: nat, ghost m: Mantissa)
    returns (fraction: nat)
    requires from <= |s| && m == MantissaOf(s[from..], mark) && !IsDigit(mark)
    requires size <= MAX_DIGITS && size <= |m.digits| && p0 == from
    ensures fraction == DigitsValue(m.digits[..size])
  {
    var high := if size > 9 then size - 9 else 0;
    var frac1, p := TakeDigits(s, from, mark, p0, size, size - high, m, 0);
    var frac2;
    frac2, p := TakeDigits(s, from, mark, p, size - high, 0, m, high);
    assert m.digits[0..high] == m.digits[..high];
    JoinDigits(m.digits, high, size);
    fraction := 1_000_000_000 * frac1 as nat + frac2 as nat;
  }

  lemma JoinDigits(s: seq<char>, high: nat, size: nat)
    requires high <= size <= |s| && AllDigits(s) && (high == 0 || size == high + 9)
    ensures DigitsValue(s[..size]) == 1_000_000_000 * DigitsValue(s[..high]) + DigitsValue(s[high..size])
  {
    assert s[..size] == s[..high] + s[high..size];
    DigitsAppend(s[..high], s[high..size]);
    assert Pow10(9) == 1_000_000_000;
  }

  /** Reads the digits of the exponent. */
  method ReadDigits(s: seq<char>, from: nat) returns (exp: int, p: nat)
    requires from <= |s|
    ensures var n := CountDigits(s[from..]); p == from + n && exp == DigitsValue(s[from..][..n])
  {
    p, exp := from, 0;
    while p != |s| && IsDigit(s[p])
      invariant from <= p <= |s|
      invariant AllDigits(s[from..p]) && exp == DigitsValue(s[from..p])
      decreases |s| - p
    {
      LastDigit(s[from..p], s[p]);
      assert s[from..p + 1] == s[from..p] + [s[p]];
      exp := exp * 10 + (s[p] as int - '0' as int);
      p := p + 1;
    }
    assert s[from..][..p - from] == s[from..p];
    CountDigitsIs(s[from..], p - from);
  }

  /** Reads the optional exponent. */
  method ReadExponent(s: seq<char>, from: nat) returns (exp: int, p: nat)
    requires from <= |s|
    ensures p >= from && (exp, p - from) == ExponentOf(s[from..])
  {
    p, exp := from, 0;
    if p == |s| || !ExponentLetter(s[p]) {
      return;
    }
    p := p + 1;
    var negative := false;
    if p != |s| && s[p] == '-' {
      negative := true;
      p := p + 1;
    } else if p != |s| && s[p] == '+' {
      p := p + 1;
    }
    assert s[from..][p - from..] == s[p..];
    exp, p := ReadDigits(s, p);
    if negative {
      exp := -exp;
    }
  }

  /** The value of a digit sequence scaled by a clamped power of ten. */
  method Scale(fraction: nat, exp0: int) returns (x: real)
    ensures x == TimesTen(fraction as real, Clamp(exp0))
  {
    hide TimesTen, Pow10;
    var exp := exp0;
    var negative := exp < 0;
    if negative {
      exp := -exp;
    }
    if exp > MAX_EXPONENT {
      exp := MAX_EXPONENT;
    }
    var dblExp := PowerFromTable(exp);
    TimesTenIsProduct(fraction as real, exp);
    TimesTenIsQuotient(fraction as real, exp);
    x := if negative then fraction as real / dblExp else fraction as real * dblExp;
  }

  /** Reads a number without its sign. */
  method ReadUnsigned(s: seq<char>, from: nat, mark: char) returns (r: Number)
    requires from <= |s| && !IsDigit(mark)
    ensures r == Unsigned(s[from..], mark)
  {
    hide MantissaOf, ExponentOf, DigitsValue, TimesTen, Clamp;
    if from == |s| || !(IsDigit(s[from]) || s[from] == mark) {
      NoMantissa(s[from..], mark);
      return NaReal;
    }
    ghost var b := s[from..];
    ghost var m := MantissaOf(b, mark);
    var p, mantSize, decPt := ScanMantissa(s, from, mark);
    var pExp := p;
    if mantSize > MAX_DIGITS {
      mantSize := MAX_DIGITS;
    }
    var fracExp := decPt - mantSize;
    if mantSize == 0 {
      return NaReal;
    }
    var fraction := ReadFraction(s, from, mark, from, mantSize, m);
    var exp;
    exp, p := ReadExponent(s, pExp);
    assert b[m.len..] == s[pExp..];
    var x := Scale(fraction, fracExp + exp);
    r := if p != |s| then NaReal else Val(x);
    assert r == NumberOf(m, (exp, p - pExp), |b|);
  }

  lemma NoMantissa(b: seq<char>, mark: char)
    requires b == [] || !(IsDigit(b[0]) || b[0] == mark)
    ensures Unsigned(b, mark) == NaReal
  {
  }

  /** Reads a number. The byte after an empty body is not looked at: it would not change the result. */
  method Strtod(s: seq<char>, mark: char) returns (r: Number)
    requires !IsDigit(mark)
    ensures r == Read(s, mark)
  {
    hide Unsigned;
    if s == [] {
      NoMantissa(s, mark);
      return NaReal;
    }
    var negative, p := s[0] == '-', 0;
    if s[p] == '-' || s[p] == '+' {
      p := p + 1;
    }
    if Spells(s[p..], "nan") {
      return NaN;
    }
    if Spells(s[p..], "inf") {
      return Inf(negative);
    }
    r := ReadUnsigned(s, p, mark);
    if negative && r.Val? {
      r := Val(-r.x);
    }
  }
}
