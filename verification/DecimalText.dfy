/** Laying out the digits and the decimal exponent of a number as text. */
module DecimalText {
  import opened Arith
  import opened Seqs
  import opened Digits

  /** The text of an integer. */
  function IntText(val: int): (s: string)
  {
    if val < 0 then "-" + DecText(-val) else DecText(val)
  }

  function Reverse(s: seq<char>): (r: seq<char>)
    ensures |r| == |s|
  {
    seq(|s|, i requires 0 <= i < |s| => s[|s| - 1 - i])
  }

  /** "0.00ddd" */
  predicate LeadingZeros(len: nat, dExp: int)
  {
    dExp < 0 && len + dExp > -3 && len <= -dExp
  }

  /** An integer below 10^15, or one with at most two zeros to add. */
  predicate WholeNumber(len: nat, dExp: int)
  {
    0 <= dExp <= Max(2, 15 - len)
  }

  function Decimals(len: nat, dExp: int): int
  {
    Min(-dExp, Max(1, len - 1))
  }

  function Exponent(e: int): string
  {
    if e == 0 then "" else "e" + IntText(e)
  }

  /** The text of d * 10^dExp. */
  function LaidOut(d: string, dExp: int): (s: string)
  {
    if WholeNumber(|d|, dExp) then d + Fill('0', dExp)
    else if LeadingZeros(|d|, dExp) then "0." + Fill('0', -dExp - |d|) + d
    else if dExp < 0 && |d| > 1 then
      var point := |d| - Decimals(|d|, dExp);
      d[..point] + "." + d[point..] + Exponent(dExp + Decimals(|d|, dExp))
    else d + Exponent(dExp)
  }

  /** Appends the text of an integer to the first `at` characters. */
  method IToStr(n: int, str: array<char>, at: nat) returns (end: nat)
    requires at + |IntText(n)| < str.Length
    modifies str
    ensures end == at + |IntText(n)| && str[..end] == old(str[..at]) + IntText(n)
  {
    hide DecText;
    var val, begin := n, at;
    if val < 0 {
      str[begin] := '-';
      begin := begin + 1;
      val := -val;
    }
    assert n < 0 ==> str[..begin] == old(str[..at]) + "-";
    end := AppendDigits(val, str, begin);
    assert n < 0 ==> old(str[..at]) + "-" + DecText(val) == old(str[..at]) + IntText(n);
  }

  /** The digits from the last to the first, then turned around in place. */
  method AppendDigits(val: nat, str: array<char>, begin: nat) returns (end: nat)
    requires begin + |DecText(val)| < str.Length
    modifies str
    ensures end == begin + |DecText(val)| && str[..end] == old(str[..begin]) + DecText(val)
  {
    end := WriteBackwards(val, str, begin);
    str[end] := '\0';
    TurnAround(str, begin, end, DecText(val));
    assert str[..end] == str[..begin] + str[begin..end];
  }

  method WriteBackwards(n: nat, str: array<char>, begin: nat) returns (end: nat)
    requires begin + |DecText(n)| < str.Length
    modifies str
    ensures end == begin + |DecText(n)| && str[begin..end] == Reverse(DecText(n))
    ensures str[..begin] == old(str[..begin])
  {
    var val := n;
    end := begin;
    while true
      invariant begin <= end && end + |DecText(val)| == begin + |DecText(n)|
      invariant DecText(n) == DecText(val) + Reverse(str[begin..end])
      invariant str[..begin] == old(str[..begin])
      decreases val
    {
      var ni := val / 10;
      var digit := val - ni * 10;
      ghost var written := str[begin..end];
      str[end] := DigitChar(digit);
      end := end + 1;
      assert str[begin..end] == written + [DigitChar(digit)];
      assert Reverse(str[begin..end]) == [DigitChar(digit)] + Reverse(written);
      if ni == 0 {
        assert DecText(n) == Reverse(str[begin..end]);
        assert str[begin..end] == Reverse(DecText(n));
        return;
      }
      val := ni;
    }
  }

  /** Turns str[begin..end], the text s from its end to its start, around. */
  method TurnAround(str: array<char>, begin: nat, end: nat, ghost s: seq<char>)
    requires begin <= end <= str.Length && str[begin..end] == Reverse(s)
    modifies str
    ensures str[begin..end] == s && str[..begin] == old(str[..begin])
  {
    var len, i := end - begin, 0;
    while i < len / 2
      invariant 0 <= i <= len / 2
      invariant forall k :: begin <= k < begin + i ==>
        str[k] == old(str[begin + end - 1 - k]) && str[begin + end - 1 - k] == old(str[k])
      invariant forall k :: begin + i <= k < end - i ==> str[k] == old(str[k])
      invariant forall k :: 0 <= k < begin ==> str[k] == old(str[k])
    {
      str[begin + i], str[end - 1 - i] := str[end - 1 - i], str[begin + i];
      i := i + 1;
    }
    ghost var was := old(str[begin..end]);
    forall k | begin <= k < end ensures str[k] == was[end - 1 - k] {
      if k >= end - i {
        assert begin <= begin + end - 1 - k < begin + i;
      }
    }
    assert str[begin..end] == s;
  }

  /** Whole numbers: zeros after the digits. */
  method AppendZeros(dst: array<char>, end0: nat, dExp: nat, ghost head: string, ghost d: string)
    returns (end: nat)
    requires end0 + dExp < dst.Length && dst[..end0] == head + d
    modifies dst
    ensures end == end0 + dExp && dst[..end] == head + (d + Fill('0', dExp))
  {
    end := end0;
    while end < end0 + dExp
      invariant end0 <= end <= end0 + dExp
      invariant dst[..end0] == head + d
      invariant forall k :: end0 <= k < end ==> dst[k] == '0'
    {
      dst[end] := '0';
      end := end + 1;
    }
    dst[end] := '\0';
    assert dst[..end] == dst[..end0] + Fill('0', dExp);
    Associative(head, d, Fill('0', dExp));
  }

  /** Small numbers: the digits move up, and "0." and zeros go before them. */
  method PrefixZeros(dst: array<char>, s2: nat, len: nat, zeros: nat, ghost head: string, ghost d: string)
    returns (end: nat)
    requires s2 + 2 + zeros + len <= dst.Length && |head| == s2 && |d| == len && dst[..s2 + len] == head + d
    modifies dst
    ensures end == s2 + 2 + zeros + len
    ensures dst[..end] == head + ("0." + Fill('0', zeros) + d)
  {
    var from := s2 + 2 + zeros;
    MoveUp(dst, s2, from, len, head, d);
    WriteZeros(dst, s2, zeros, head, d);
    end := from + len;
    assert dst[..end] == dst[..from] + d;
    Associative(head, "0." + Fill('0', zeros), d);
  }

  /** Moves the characters d up, all at once; what stands before them stays. */
  method MoveUp(dst: array<char>, s2: nat, from: nat, len: nat, ghost head: string, ghost d: string)
    requires |head| == s2 <= from && |d| == len && from + len <= dst.Length && dst[..s2 + len] == head + d
    modifies dst
    ensures dst[..s2] == head && dst[from..from + len] == d
  {
    assert forall i :: 0 <= i < len ==> dst[s2 + i] == dst[..s2 + len][s2 + i] == d[i];
    assert dst[..s2] == dst[..s2 + len][..s2] == head;
    forall i | 0 <= i < len {
      dst[from + i] := dst[s2 + i];
    }
  }

  method WriteZeros(dst: array<char>, s2: nat, zeros: nat, ghost head: string, ghost d: string)
    requires s2 + 2 + zeros + |d| <= dst.Length && dst[..s2] == head
    requires dst[s2 + 2 + zeros..s2 + 2 + zeros + |d|] == d
    modifies dst
    ensures dst[..s2 + 2 + zeros] == head + ("0." + Fill('0', zeros))
    ensures dst[s2 + 2 + zeros..s2 + 2 + zeros + |d|] == d
  {
    dst[s2] := '0';
    dst[s2 + 1] := '.';
    var i := 2;
    while i < 2 + zeros
      invariant 2 <= i <= 2 + zeros
      invariant dst[..s2] == head && dst[s2] == '0' && dst[s2 + 1] == '.'
      invariant forall k :: s2 + 2 <= k < s2 + i ==> dst[k] == '0'
      invariant dst[s2 + 2 + zeros..s2 + 2 + zeros + |d|] == d
    {
      dst[s2 + i] := '0';
      i := i + 1;
    }
    assert dst[s2..s2 + 2 + zeros] == "0." + Fill('0', zeros);
    assert dst[..s2 + 2 + zeros] == dst[..s2] + dst[s2..s2 + 2 + zeros];
  }

  /** The decimals move up by one, one after the other, and the point goes before them. */
  method InsertPoint(dst: array<char>, end0: nat, decimals: nat) returns (end: nat)
    requires decimals <= end0 < dst.Length
    modifies dst
    ensures end == end0 + 1 && PointInserted(old(dst[..end0]), dst[..end], end0 - decimals)
  {
    var i := 0;
    while i < decimals
      invariant 0 <= i <= decimals
      invariant forall k :: 0 <= k <= end0 - i && k < end0 ==> dst[k] == old(dst[k])
      invariant forall k :: end0 - i < k <= end0 ==> dst[k] == old(dst[k - 1])
    {
      dst[end0 - i] := dst[end0 - i - 1];
      i := i + 1;
    }
    dst[end0 - decimals] := '.';
    end := end0 + 1;
  }

  ghost predicate PointInserted(was: string, now: string, point: nat)
  {
    |now| == |was| + 1 && point <= |was| && now[point] == '.' &&
    (forall k :: 0 <= k < point ==> now[k] == was[k]) &&
    (forall k :: point < k < |now| ==> now[k] == was[k - 1])
  }

  /** Appends an exponent unless it is zero. */
  method AppendExponent(dst: array<char>, len: nat, e: int, ghost head: string, ghost text: string)
    returns (end: nat)
    requires len + |Exponent(e)| < dst.Length && dst[..len] == head + text
    modifies dst
    ensures end == len + |Exponent(e)| && dst[..end] == head + (text + Exponent(e))
  {
    end := len;
    Associative(head, text, Exponent(e));
    if e != 0 {
      dst[end] := 'e';
      end := end + 1;
      assert dst[..end] == head + text + "e";
      end := IToStr(e, dst, end);
      Associative(head + text, "e", IntText(e));
    }
  }

  /** Numbers with digits on both sides of the point, and an exponent where it is not zero. */
  method PointAndExponent(dst: array<char>, end0: nat, dExp: int, decimals: nat, ghost head: string, ghost d: string)
    returns (end: nat)
    requires end0 + 1 + |Exponent(dExp + decimals)| < dst.Length
    requires dst[..end0] == head + d && decimals <= |d|
    modifies dst
    ensures end == end0 + 1 + |Exponent(dExp + decimals)|
    ensures var point := |d| - decimals;
      dst[..end] == head + (d[..point] + "." + d[point..] + Exponent(dExp + decimals))
  {
    hide Exponent;
    ghost var point := |d| - decimals;
    end := InsertPoint(dst, end0, decimals);
    end := AppendExponent(dst, end, dExp + decimals, head, d[..point] + "." + d[point..]);
  }

  /** Appends what follows the digits when they are neither a whole number nor led by zeros. */
  method LayOutWithExponent(
    dst: array<char>, s2: nat, len: nat, dExp: int, ghost head: string, ghost d: string)
    returns (end: nat)
    requires d != "" && !WholeNumber(|d|, dExp) && !LeadingZeros(|d|, dExp)
    requires |head| == s2 && |d| == len && s2 + |LaidOut(d, dExp)| < dst.Length && dst[..s2 + len] == head + d
    modifies dst
    ensures end == s2 + |LaidOut(d, dExp)| && dst[..end] == head + LaidOut(d, dExp)
  {
    if dExp < 0 && len > 1 {
      end := PointAndExponent(dst, s2 + len, dExp, Min(-dExp, Max(1, len - 1)), head, d);
    } else {
      end := AppendExponent(dst, s2 + len, dExp, head, d);
    }
  }

  /** Lays out the digits d that stand at s2, behind the head, in place. */
  method LayOut(dst: array<char>, s2: nat, len: nat, dExp: int, ghost head: string, ghost d: string)
    returns (end: nat)
    requires 0 < len && s2 + len <= dst.Length && |head| == s2 && |d| == len && dst[..s2 + len] == head + d
    requires s2 + |LaidOut(d, dExp)| < dst.Length
    modifies dst
    ensures end == s2 + |LaidOut(d, dExp)| && dst[..end] == head + LaidOut(d, dExp)
  {
    if 0 <= dExp <= Max(2, 15 - len) {
      end := AppendZeros(dst, s2 + len, dExp, head, d);
    } else if dExp < 0 && len + dExp > -3 && len <= -dExp {
      end := PrefixZeros(dst, s2, len, -dExp - len, head, d);
    } else {
      end := LayOutWithExponent(dst, s2, len, dExp, head, d);
    }
  }

  /** A number without its sign, as shortest-digit generation leaves it. */
  datatype Printed = Zero | Infinite | Digits(digits: string, dExp: int)

  function PrintedText(negative: bool, v: Printed): (s: string)
  {
    (if negative then "-" else "") +
    match v
    case Zero => "0"
    case Infinite => "inf"
    case Digits(d, e) => LaidOut(d, e)
  }

  /** Prints a number; the digits are what digit generation has put into the buffer. */
  method PrintNumber(negative: bool, v: Printed, dst: array<char>) returns (end: nat)
    requires v.Digits? ==> v.digits != [] && |v.digits| < dst.Length
    requires |PrintedText(negative, v)| < dst.Length
    modifies dst
    ensures end <= dst.Length && dst[..end] == PrintedText(negative, v)
  {
    hide LaidOut;
    ghost var sign := if negative then "-" else "";
    var s2 := 0;
    if negative {
      dst[s2] := '-';
      s2 := s2 + 1;
    }
    assert dst[..s2] == sign;
    match v
    case Zero =>
      dst[s2] := '0';
      dst[s2 + 1] := '\0';
      end := s2 + 1;
    case Infinite =>
      dst[s2] := 'i';
      dst[s2 + 1] := 'n';
      dst[s2 + 2] := 'f';
      dst[s2 + 3] := '\0';
      end := s2 + 3;
    case Digits(d, e) =>
      DigitsAreShorter(d, e);
      PutDigits(dst, s2, d, sign);
      end := LayOut(dst, s2, |d|, e, sign, d);
  }

  /** Digit generation has put its digits behind the sign. */
  method PutDigits(dst: array<char>, s2: nat, d: string, ghost sign: string)
    requires s2 + |d| <= dst.Length && dst[..s2] == sign
    modifies dst
    ensures dst[..s2 + |d|] == sign + d
  {
    forall i | 0 <= i < |d| {
      dst[s2 + i] := d[i];
    }
    assert dst[..s2 + |d|] == dst[..s2] + dst[s2..s2 + |d|];
  }

  lemma DigitsAreShorter(d: string, dExp: int)
    ensures |d| <= |LaidOut(d, dExp)|
  {
  }

  lemma {:induction false} DecTextBounded(n: nat, k: nat)
    requires k > 0 && n < Pow10(k)
    ensures |DecText(n)| <= k
    decreases k
  {
    if n >= 10 {
      DecTextBounded(n / 10, k - 1);
    }
  }

  lemma {:induction false} DecTextIsDigits(n: nat)
    ensures AllDigits(DecText(n))
  {
    if n >= 10 {
      DecTextIsDigits(n / 10);
    }
  }

  lemma NoLetters(d: string)
    requires AllDigits(d)
    ensures 'e' !in d && '.' !in d
  {
  }

  lemma ZerosAreDigits(n: nat)
    ensures AllDigits(Fill('0', n))
  {
  }

  lemma LetterOfExponent(e: int)
    ensures 'e' in Exponent(e) <==> e != 0
    ensures '.' !in Exponent(e)
  {
    hide DecText;
    if e != 0 {
      DecTextIsDigits(if e < 0 then -e else e);
      NoLetters(DecText(if e < 0 then -e else e));
      assert Exponent(e)[0] == 'e';
    }
  }

  /**
   No exponent is written for whole numbers below 10^15 or with at most two zeros at their end, nor
   for others with fewer than three zeros behind the point.
   */
  lemma ExponentIsWrittenIff(d: string, dExp: int)
    requires d != "" && AllDigits(d)
    ensures 'e' in LaidOut(d, dExp)
        <==> if dExp >= 0 then dExp > 2 && |d| + dExp > 15 else |d| + dExp <= -3
    ensures '.' in LaidOut(d, dExp) <==> dExp < 0 && (|d| > 1 || dExp > -4)
  {
    hide Exponent, AllDigits, Fill;
    NoLetters(d);
    if WholeNumber(|d|, dExp) {
      ZerosAreDigits(dExp);
      NoLetters(Fill('0', dExp));
    } else if LeadingZeros(|d|, dExp) {
      var z := Fill('0', -dExp - |d|);
      ZerosAreDigits(-dExp - |d|);
      NoLetters(z);
      assert '.' in "0." && 'e' !in "0.";
      assert LaidOut(d, dExp) == "0." + z + d;
    } else if dExp < 0 && |d| > 1 {
      var point := |d| - Decimals(|d|, dExp);
      LetterOfExponent(dExp + Decimals(|d|, dExp));
      assert d == d[..point] + d[point..];
      assert '.' in "." && 'e' !in ".";
    } else {
      LetterOfExponent(dExp);
    }
  }

  /** With at most 17 digits and a three-digit exponent the text fits the 33 bytes callers reserve. */
  lemma TextFits(negative: bool, d: string, dExp: int)
    requires 0 < |d| <= 17 && -999 <= dExp <= 966
    ensures |PrintedText(negative, Digits(d, dExp))| <= 25
  {
    assert Pow10(3) == 1000;
    if LeadingZeros(|d|, dExp) || WholeNumber(|d|, dExp) {
    } else {
      var e := if dExp < 0 && |d| > 1 then dExp + Decimals(|d|, dExp) else dExp;
      DecTextBounded(if e < 0 then -e else e, 3);
    }
  }
}
