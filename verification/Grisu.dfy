/**
 Digit generation of Grisu3: the shortest digits inside the interval around a number, and a
 rounding step that accepts them only when they are certainly the closest.
 */
module Grisu {
  import opened Arith
  import opened DiyFp
  import opened Digits

  /** The distance on the axis on which the rests are measured. */
  function Dist(a: int, x: real): real
  {
    if a as real >= x then a as real - x else x - a as real
  }

  predicate Near(x: real, centre: int, radius: int)
  {
    (centre - radius) as real <= x <= (centre + radius) as real
  }

  /** The rest that is left when the last digit is lowered by j. */
  function RestAt(rest: int, j: int, step: nat): int
  {
    rest + j * step
  }

  /**
   The rest lies at least 2 * ulp inside one end and 4 * ulp inside the other end of the
   interval, and among the rests rest + j * step of the interval it is the closest to every
   point within ulp of wp.
   */
  ghost predicate Accepted(rest: int, step: nat, delta: int, wp: int, ulp: int)
  {
    2 * ulp <= rest <= delta - 4 * ulp &&
    forall x: real, j: int :: Near(x, wp, ulp) && 0 <= RestAt(rest, j, step) <= delta ==>
      Dist(rest, x) <= Dist(RestAt(rest, j, step), x)
  }

  /** What the loop of the rounding step keeps: the last step was towards wp - ulp. */
  ghost predicate Approached(rest: int, rest0: int, step: int, low: int)
  {
    rest == rest0 || 2 * low >= 2 * rest - step
  }

  /** No rest below is closer: each lies at least a step away, and the last step was worth taking. */
  lemma NoneBelowCloser(rest: int, rest0: int, step: nat, low: int, other: int, x: real)
    requires Approached(rest, rest0, step, low) && low as real <= x
    requires other <= rest - step && 0 <= other && rest0 < step && rest0 <= rest
    ensures Dist(rest, x) <= Dist(other, x)
  {
  }

  /** No rest above is closer. */
  lemma NoneAboveCloser(rest: int, step: nat, high: int, other: int, x: real)
    requires 2 * high <= 2 * rest + step && x <= high as real && other >= rest + step
    ensures Dist(rest, x) <= Dist(other, x)
  {
  }

  /** A multiple of the step other than zero is at least a step away. */
  lemma OtherMultiple(j: int, step: nat)
    ensures j > 0 ==> j * step >= step
    ensures j < 0 ==> j * step <= -(step as int)
  {
    if j > 0 {
      MulMonotone(1, j, step);
    } else if j < 0 {
      MulMonotone(1, -j, step);
      assert j * step == -(-j * step);
    }
  }

  lemma AcceptedFrom(rest: int, rest0: int, step: nat, delta: int, wp: int, ulp: int)
    requires Approached(rest, rest0, step, wp - ulp) && 0 <= rest0 < step && rest0 <= rest
    requires delta - rest < step || 2 * (wp + ulp) <= 2 * rest + step
    requires 2 * ulp <= rest <= delta - 4 * ulp
    ensures Accepted(rest, step, delta, wp, ulp)
  {
    forall x: real, j: int | Near(x, wp, ulp) && 0 <= RestAt(rest, j, step) <= delta
      ensures Dist(rest, x) <= Dist(RestAt(rest, j, step), x)
    {
      OtherMultiple(j, step);
      if j < 0 {
        NoneBelowCloser(rest, rest0, step, wp - ulp, rest + j * step, x);
      } else if j > 0 {
        NoneAboveCloser(rest, step, wp + ulp, rest + j * step, x);
      }
    }
  }

  function LastOf(s: seq<char>): (digit: nat)
    requires s != [] && AllDigits(s)
  {
    s[|s| - 1] as int - '0' as int
  }

  /** Lowering the last digit by m lowers the number by m and raises the rest by m steps. */
  lemma Lowered(s: seq<char>, r: seq<char>, m: nat, step: nat, rest0: int, to: int)
    requires s != [] && AllDigits(s) && |r| == |s| && r[..|r| - 1] == s[..|s| - 1]
    requires m <= LastOf(s) && r[|r| - 1] as int == s[|s| - 1] as int - m
    requires to == Times(DigitsValue(s), step) + rest0
    ensures AllDigits(r) && to == Times(DigitsValue(r), step) + (rest0 + m * step)
  {
    forall i | 0 <= i < |r| ensures '0' <= r[i] <= '9' {
      if i < |r| - 1 { assert r[i] == r[..|r| - 1][i] == s[..|s| - 1][i] == s[i]; }
    }
    assert DigitsValue(r) == DigitsValue(s) - m;
    MulSum(DigitsValue(s), -(m as int), step);
  }

  /** After the digits s a rest remains; without the last digit it would be as wide as the interval. */
  ghost predicate Weedable(s: seq<char>, to: int, step: nat, rest: int, delta: int)
  {
    s != [] && AllDigits(s) && to == Times(DigitsValue(s), step) + rest && 0 <= rest < step &&
    delta <= LastOf(s) * step + rest && NoMultiple(to - delta, to, 10 * step)
  }

  /**
   The rounding step: the last digit is lowered while that brings the number closer to w + ulp.
   The number stays inside the unsafe interval [to - delta, to], and it is accepted only when it
   is certainly the closest to w.
   */
  method RoundWeed(
    buffer: array<char>, len: nat, wp: u64, delta: u64, rest0: u64, step: u64, ulp: u64, ghost to: int)
    returns (ok: bool)
    requires 0 < len <= buffer.Length && rest0 < delta
    requires Weedable(buffer[..len], to, step as nat, rest0 as int, delta as int)
    requires 0 < ulp <= wp <= delta && 4 * ulp as int <= delta as int && wp as int + ulp as int < TWO_64
    modifies buffer
    ensures forall i :: 0 <= i < buffer.Length && i != len - 1 ==> buffer[i] == old(buffer[i])
    ensures Weeded(buffer[..len], step as nat, delta as int, wp as int, to, ulp as nat, ok)
  {
    var up, down := wp - ulp, wp + ulp;
    var rest := rest0;
    ghost var m, digits := 0, buffer[..len];
    while rest < up && delta - rest >= step && (rest + step < up || up - rest >= rest + step - up)
      invariant rest0 <= rest <= delta && rest as int == rest0 as int + m * step as int
      invariant 0 <= m <= LastOf(digits) && buffer[len - 1] as int == digits[len - 1] as int - m
      invariant forall i :: 0 <= i < buffer.Length && i != len - 1 ==> buffer[i] == old(buffer[i])
      invariant Approached(rest as int, rest0 as int, step as int, up as int)
      decreases delta - rest
    {
      MulSum(m, 1, step as int);
      buffer[len - 1] := (buffer[len - 1] as int - 1) as char;
      rest := rest + step;
      m := m + 1;
    }
    assert buffer[..len][..len - 1] == digits[..len - 1];
    Lowered(digits, buffer[..len], m, step as nat, rest0 as int, to);
    WeededIsClosest(DigitsValue(buffer[..len]), rest as int, rest0 as int, step as nat, delta as int, wp as int, ulp as nat, to);
    if rest < down && delta - rest >= step && (rest + step < down || down - rest > rest + step - down) {
      LowerIsCloser(DigitsValue(buffer[..len]), rest as int, step as nat, delta as int, wp as int, ulp as nat, to);
      return false;
    }
    ok := 2 * ulp <= rest && rest <= delta - 4 * ulp;
    if ok {
      AcceptedFrom(rest as int, rest0 as int, step as nat, delta as int, wp as int, ulp as int);
      AcceptedIsClosest(DigitsValue(buffer[..len]), step as nat, rest as int, delta as int, wp as int, to, ulp as nat);
    }
  }

  newtype u32 = x: int | 0 <= x < 0x1_0000_0000

  /** Entry i of the table of powers of ten, which begins with a zero. */
  function CachedPow10(i: nat): (r: nat)
  {
    if i == 0 then 0 else Pow10(i - 1)
  }

  /** The guess is right or one too high, for every number of bits that occurs. */
  lemma GuessIsClose(nBits: nat)
    requires 4 <= nBits <= 32
    ensures var guess := (nBits + 1) * 1233 / 4096 + 1;
            2 <= guess <= 10 && Pow2(nBits) <= Pow10(guess) && Pow10(guess - 2) <= Pow2(nBits - 2)
  {
    assert Pow10(2) == 100 && Pow10(4) == 10_000 && Pow10(6) == 1_000_000 && Pow10(8) == 100_000_000;
    assert Pow10(1) == 10 && Pow10(10) == 10_000_000_000;
    assert Pow2(4) == 16 && Pow2(8) == 256 && Pow2(12) == 4096 && Pow2(16) == 65536;
    assert Pow2(20) == 1048576 && Pow2(24) == 16777216 && Pow2(28) == 268435456 && Pow2(32) == 4294967296;
  }

  /** The largest power of ten that is not above n, and its position in the cache. */
  method LargestPow10(n: u32, nBits: nat) returns (guess: nat, power: nat)
    requires 4 <= nBits <= 32 && Pow2(nBits - 2) <= n as int < Pow2(nBits)
    ensures 1 <= guess <= 10 && power == Pow10(guess - 1)
    ensures power <= n as int < Pow10(guess)
  {
    GuessIsClose(nBits);
    guess := (nBits + 1) * 1233 / 4096 + 1;
    if n as int < CachedPow10(guess) {
      guess := guess - 1;
    }
    power := CachedPow10(guess);
  }

  /** Taking one digit off the rest. */
  lemma OneDigit(total: int, number: int, step: nat, rest: nat, digit: nat, rest1: nat)
    requires total == number * (10 * step) + rest && rest < 10 * step
    requires rest == digit * step + rest1 && rest1 < step
    ensures digit <= 9 && total == (10 * number + digit) * step + rest1
  {
    if digit > 9 {
      MulMonotone(10, digit, step);
    }
    MulSum(10 * number, digit, step);
    assert number * (10 * step) == 10 * number * step;
  }

  function Times(n: int, step: int): int
  {
    n * step
  }

  /** No multiple of the step lies above low and at or below high. */
  ghost predicate NoMultiple(low: int, high: int, step: nat)
  {
    forall n: int :: Times(n, step) <= high ==> Times(n, step) <= low
  }

  /** A rest at least as wide as the interval keeps every multiple out of it. */
  lemma WideRest(total: int, number: int, step: nat, rest: nat, width: nat)
    requires total == number * step + rest && width <= rest < step
    ensures NoMultiple(total - width, total, step)
  {
    forall n: int | Times(n, step) <= total ensures Times(n, step) <= total - width {
      OtherMultiple(n - number, step);
      MulSum(n - number, number, step);
    }
  }

  /**
   The number lies two and four units inside the interval, and no other multiple of the step in
   the interval is closer to any point within one unit of the centre.
   */
  ghost predicate Closest(number: int, step: nat, from: int, centre: int, to: int, unit: nat)
  {
    from + 4 * unit <= Times(number, step) <= to - 2 * unit &&
    forall x: real, n: int :: Near(x, centre, unit) && from <= Times(n, step) <= to ==>
      Dist(Times(number, step), x) <= Dist(Times(n, step), x)
  }

  /** Some number of that length is certainly the closest. */
  ghost predicate SomeClosest(step: nat, from: int, centre: int, to: int, unit: nat)
  {
    exists n: int :: Closest(n, step, from, centre, to, unit)
  }

  /** The loop has stopped: no step remains that brings the rest closer to wp - ulp. */
  ghost predicate Stopped(rest: int, step: int, delta: int, up: int)
  {
    rest >= up || delta - rest < step || (rest + step >= up && up - rest < rest + step - up)
  }

  /** A rest that is as close as any to all points around wp is the one the loop has stopped at. */
  lemma StoppedAtClosest(rest: int, rest0: int, step: nat, delta: int, wp: int, ulp: int, j: int)
    requires Approached(rest, rest0, step, wp - ulp) && Stopped(rest, step, delta, wp - ulp)
    requires 0 <= rest0 < step && rest0 <= rest <= delta && ulp > 0 && 0 <= RestAt(rest, j, step) <= delta
    requires Dist(RestAt(rest, j, step), (wp - ulp) as real) <= Dist(rest, (wp - ulp) as real)
    requires Dist(RestAt(rest, j, step), (wp + ulp) as real) <= Dist(rest, (wp + ulp) as real)
    ensures j == 0
  {
    OtherMultiple(j, step);
  }

  /** Where some number is certainly the closest, the digits left are that number. */
  lemma WeededIsClosest(
    number: int, rest: int, rest0: int, step: nat, delta: int, wp: int, ulp: nat, to: int)
    requires to == number * step + rest
    requires Approached(rest, rest0, step, wp - ulp) && Stopped(rest, step, delta, wp - ulp)
    requires 0 <= rest0 < step && rest0 <= rest <= delta && ulp > 0
    ensures SomeClosest(step, to - delta, to - wp, to, ulp) ==> Closest(number, step, to - delta, to - wp, to, ulp)
  {
    if SomeClosest(step, to - delta, to - wp, to, ulp) {
      var n: int :| Closest(n, step, to - delta, to - wp, to, ulp);
      var x, y := to as real - (wp - ulp) as real, to as real - (wp + ulp) as real;
      assert Near(x, to - wp, ulp) && Near(y, to - wp, ulp);
      assert to - delta <= Times(number, step) <= to;
      assert Dist(Times(n, step), x) <= Dist(Times(number, step), x);
      assert Dist(Times(n, step), y) <= Dist(Times(number, step), y);
      Mirrored(number, n, step, rest, to, x);
      Mirrored(number, n, step, rest, to, y);
      StoppedAtClosest(rest, rest0, step, delta, wp, ulp, number - n);
    }
  }

  /** The number below is strictly closer to the lower end of the points around the centre. */
  lemma LowerIsCloser(number: int, rest: int, step: nat, delta: int, wp: int, ulp: nat, to: int)
    requires to == number * step + rest && 0 <= rest && ulp > 0 && step > 0
    requires rest < wp + ulp && delta - rest >= step
    requires rest + step < wp + ulp || wp + ulp - rest > rest + step - (wp + ulp)
    ensures !Closest(number, step, to - delta, to - wp, to, ulp)
  {
    var y := to as real - (wp + ulp) as real;
    MulSum(number, -1, step);
    assert Near(y, to - wp, ulp) && to - delta <= Times(number - 1, step) <= to;
    assert Dist(Times(number - 1, step), y) < Dist(Times(number, step), y);
  }

  /** From the axis of the rests to the axis of the values. */
  lemma AcceptedIsClosest(number: int, step: nat, rest: int, delta: int, wp: int, to: int, unit: nat)
    requires to == number * step + rest && Accepted(rest, step, delta, wp, unit)
    ensures Closest(number, step, to - delta, to - wp, to, unit)
  {
    forall x: real, n: int | Near(x, to - wp, unit) && to - delta <= Times(n, step) <= to
      ensures Dist(Times(number, step), x) <= Dist(Times(n, step), x)
    {
      MulSum(number - n, n, step);
      Mirrored(number, n, step, rest, to, x);
      assert Near(to as real - x, wp, unit);
    }
  }

  lemma Mirrored(number: int, n: int, step: nat, rest: int, to: int, x: real)
    requires to == Times(number, step) + rest
    ensures RestAt(rest, number - n, step) == to - Times(n, step)
    ensures Dist(RestAt(rest, number - n, step), to as real - x) == Dist(Times(n, step), x)
    ensures Dist(rest, to as real - x) == Dist(Times(number, step), x)
  {
    MulSum(number - n, n, step);
  }

  /** After the digits s a rest remains that is smaller than the step and not below the width. */
  ghost predicate Level(s: seq<char>, to: int, step: nat, rest: int, width: int)
  {
    AllDigits(s) && to == Times(DigitsValue(s), step) + rest && 0 <= width <= rest < step
  }

  /** The next digit, and the step of the level above shows that no shorter number fits. */
  lemma NextDigit(s: seq<char>, to: int, step: nat, rest: nat, width: nat, digit: nat, rest1: nat)
    requires Level(s, to, 10 * step, rest, width)
    requires rest == digit * step + rest1 && rest1 < step
    ensures digit <= 9 && Weedable(s + [DigitChar(digit)], to, step, rest1, width)
  {
    OneDigit(to, DigitsValue(s), step, rest, digit, rest1);
    LastDigit(s, DigitChar(digit));
    WideRest(to, DigitsValue(s), 10 * step, rest, width);
  }

  /** The scale of the numbers, and the weight of the last digit on it. */
  function Unit(kappa: int): (r: nat)
  {
    if kappa < 0 then Pow10(-kappa) else 1
  }

  function Weight(kappa: int, one: nat): (r: nat)
  {
    if kappa >= 0 then Pow10(kappa) * one else one
  }

  /** What digit generation promises for the digits s, in units of 1 / Unit(kappa). */
  ghost predicate Generated(s: seq<char>, kappa: int, one: nat, low: int, w: int, high: int, ok: bool)
  {
    var unit, step := Unit(kappa), Weight(kappa, one);
    AllDigits(s) && NoMultiple((low - 1) * unit, (high + 1) * unit, 10 * step) &&
    (low - 1) * unit <= Times(DigitsValue(s), step) <= (high + 1) * unit &&
    (ok <==> Closest(DigitsValue(s), step, (low - 1) * unit, w * unit, (high + 1) * unit, unit)) &&
    (ok <==> SomeClosest(step, (low - 1) * unit, w * unit, (high + 1) * unit, unit))
  }

  lemma ScaledDifferences(low: int, w: int, high: int, unit: nat)
    ensures (high + 1) * unit - (high - low + 2) * unit == (low - 1) * unit
    ensures (high + 1) * unit - (high + 1 - w) * unit == w * unit
  {
    MulSum(high + 1, -(high - low + 2), unit);
    MulSum(high + 1, -(high + 1 - w), unit);
  }

  lemma Halved(a: nat, b: nat)
    requires b > 0
    ensures a == (a / b) * b + a % b && 0 <= a % b < b && a % b <= a
    ensures 0 <= a / b && (b <= a ==> a / b > 0)
  {
  }

  lemma OneBounds(shift: nat)
    requires 32 <= shift <= 60
    ensures TWO_32 <= Pow2(shift) <= 0x1000_0000_0000_0000
    ensures Pow2(64 - shift) * Pow2(shift) == TWO_64 && Pow2(62 - shift) * Pow2(shift) == TWO_64 / 4
  {
    PowersOfTwo();
    Pow2Sum(64 - shift, shift);
    Pow2Sum(62 - shift, shift);
    Pow2Sum(shift - 32, 32);
    Pow2Sum(60 - shift, shift);
    MulMonotone(1, Pow2(shift - 32), TWO_32);
    MulMonotone(1, Pow2(60 - shift), Pow2(shift));
  }

  lemma PowersOfTwo()
    ensures Pow2(32) == TWO_32 && Pow2(60) == 0x1000_0000_0000_0000
    ensures Pow2(62) == TWO_64 / 4 && Pow2(64) == TWO_64
  {
    assert Pow2(2) == 4 && Pow2(10) == 1024;
    Pow2Sum(10, 10);
    Pow2Sum(10, 20);
    Pow2Sum(2, 30);
    Pow2Sum(30, 30);
    Pow2Sum(2, 60);
    Pow2Sum(2, 62);
  }

  /** The loops end before the unit outgrows a word: four units still fit below one. */
  lemma {:induction false} UnitBounded(k: nat)
    ensures k >= 18 ==> Pow10(k) >= 1_000_000_000_000_000_000
  {
    if k > 18 {
      UnitBounded(k - 1);
    } else if k == 18 {
      assert Pow10(6) == 1_000_000;
      assert Pow10(12) == 1_000_000_000_000;
    }
  }

  /** The first word: its integral part has the number of bits that the power is chosen for. */
  lemma IntegralPart(t: nat, shift: nat)
    requires 32 <= shift <= 60 && TWO_64 / 4 <= t < TWO_64
    ensures Pow2(62 - shift) <= t / Pow2(shift) < Pow2(64 - shift) <= TWO_32
  {
    var one := Pow2(shift);
    OneBounds(shift);
    Halved(t, one);
    var q := t / one;
    if q >= Pow2(64 - shift) {
      MulMonotone(Pow2(64 - shift), q, one);
    }
    if q < Pow2(62 - shift) {
      MulMonotone(q + 1, Pow2(62 - shift), one);
      MulSum(q, 1, one);
    }
    PowersOfTwo();
    Pow2Sum(shift - 32, 64 - shift);
    MulMonotone(1, Pow2(shift - 32), Pow2(64 - shift));
  }

  lemma SplitRest(p1: nat, p2: nat, div: nat, one: nat)
    requires div > 0 && p2 < one
    ensures p1 * one + p2 == p1 / div * (div * one) + (p1 % div * one + p2)
    ensures 0 <= p1 % div * one + p2 < div * one
  {
    var digit, p := p1 / div, p1 % div;
    Halved(p1, div);
    MulSum(digit * div, p, one);
    assert digit * div * one == digit * (div * one);
    MulMonotone(p + 1, div, one);
    MulSum(p, 1, one);
    MulMonotone(0, p, one);
  }

  /** The state of the loop over the digits before the point. */
  ghost predicate Integral(s: seq<char>, t: int, kappa: nat, div: nat, one: nat, p1: nat, p2: nat, width: nat)
  {
    p2 < one && p1 * one + p2 <= t && (kappa > 0 ==> div == Pow10(kappa - 1) && div * one <= t) &&
    Level(s, t, Pow10(kappa) * one, p1 * one + p2, width)
  }

  /** One integral digit: the quotient by div is the digit, the remainder stays. */
  lemma IntegralStep(s: seq<char>, t: int, kappa: nat, div: nat, one: nat, p1: nat, p2: nat, width: nat)
    requires kappa > 0 && Integral(s, t, kappa, div, one, p1, p2, width)
    ensures div > 0 && 0 <= p1 / div <= 9 && 0 <= p1 % div <= p1 && 0 <= p1 % div * one
    ensures var rest, s1 := p1 % div * one + p2, s + [DigitChar(p1 / div)];
      rest <= t && 0 <= div * one <= t && Weedable(s1, t, div * one, rest, width) &&
      (width <= rest ==> Integral(s1, t, kappa - 1, div / 10, one, p1 % div, p2, width))
  {
    Halved(p1, div);
    var digit: nat, p: nat := p1 / div, p1 % div;
    TenTimes(div, one);
    SplitRest(p1, p2, div, one);
    MulMonotone(0, digit, div * one);
    MulMonotone(0, p, one);
    MulMonotone(0, div, one);
    NextDigit(s, t, div * one, p1 * one + p2, width, digit, p * one + p2);
    if kappa > 1 {
      Tenth(div, one, kappa);
    }
  }

  lemma Tenth(div: nat, one: nat, kappa: nat)
    requires kappa > 1 && div == Pow10(kappa - 1)
    ensures div / 10 == Pow10(kappa - 2) && div / 10 * one <= div * one
  {
    MulMonotone(div / 10, div, one);
  }

  /** The state of the loop over the digits after the point: everything is scaled by the unit. */
  ghost predicate Fractional(
    s: seq<char>, t: nat, k: nat, one: nat, p2: nat, width0: nat, unit: nat, width: nat)
  {
    unit == Pow10(k) && width == width0 * unit && Level(s, t * unit, one, p2, width)
  }

  /** One fractional digit: everything is scaled by ten, the quotient by one is the digit. */
  lemma FractionalStep(
    s: seq<char>, t: nat, k: nat, one: nat, p2: nat, width0: nat, unit: nat, width: nat)
    requires Fractional(s, t, k, one, p2, width0, unit, width) && one > 0
    ensures 0 <= 10 * p2 / one <= 9 && 0 <= 10 * p2 % one < one
    ensures 10 * unit == Pow10(k + 1) && 10 * width == width0 * (10 * unit)
    ensures var rest, s1 := 10 * p2 % one, s + [DigitChar(10 * p2 / one)];
      Weedable(s1, t * (10 * unit), one, rest, 10 * width) &&
      (10 * width <= rest ==> Fractional(s1, t, k + 1, one, rest, width0, 10 * unit, 10 * width))
  {
    var n := DigitsValue(s);
    Halved(10 * p2, one);
    TenTimes(n, one);
    TenTimes(t, unit);
    TenTimes(width0, unit);
    NextDigit(s, 10 * (t * unit), one, 10 * p2, 10 * width, 10 * p2 / one, 10 * p2 % one);
  }

  /** The scaled width is below one, so the unit is far below it: nothing overflows. */
  lemma Room(k: nat, one: nat, width0: nat, wp0: nat, unit: nat, width: nat)
    requires width0 >= 4 && unit == Pow10(k) && width == width0 * unit < one <= 0x1000_0000_0000_0000
    requires 1 <= wp0 < width0
    ensures k <= 17 && 4 * unit <= width
    ensures 10 * unit <= wp0 * (10 * unit) && 0 <= wp0 * (10 * unit) + 10 * unit <= 10 * width
  {
    MulMonotone(4, width0, unit);
    MulMonotone(1, wp0, 10 * unit);
    MulMonotone(wp0 + 1, width0, 10 * unit);
    MulSum(wp0, 1, 10 * unit);
    TenTimes(width0, unit);
    UnitBounded(k);
  }

  /** What the rounding step leaves of the digits s. */
  ghost predicate Weeded(s: seq<char>, step: nat, delta: int, wp: int, to: int, unit: nat, ok: bool)
  {
    AllDigits(s) && NoMultiple(to - delta, to, 10 * step) && to - delta <= Times(DigitsValue(s), step) <= to &&
    (ok <==> Closest(DigitsValue(s), step, to - delta, to - wp, to, unit)) &&
    (ok <==> SomeClosest(step, to - delta, to - wp, to, unit))
  }

  /** It is what digit generation promises. */
  lemma Conclude(s: seq<char>, kappa: int, one: nat, low: int, w: int, high: int, unit: nat, step: nat, ok: bool)
    requires unit == Unit(kappa) && step == Weight(kappa, one)
    requires Weeded(s, step, (high - low + 2) * unit, (high + 1 - w) * unit, (high + 1) * unit, unit, ok)
    ensures Generated(s, kappa, one, low, w, high, ok)
  {
    ScaledDifferences(low, w, high, unit);
  }

  /** Before the first digit. */
  lemma FirstLevel(t: nat, kappa: nat, div: nat, one: nat, width: nat)
    requires one > 0 && kappa > 0 && div == Pow10(kappa - 1) && div <= t / one < Pow10(kappa) && width <= t
    ensures Integral([], t, kappa, div, one, t / one, t % one, width)
  {
    Halved(t, one);
    MulMonotone(div, t / one, one);
    MulMonotone(t / one + 1, Pow10(kappa), one);
    MulSum(t / one, 1, one);
  }

  lemma AfterThePoint(s: seq<char>, t: int, div: nat, one: nat, p1: nat, p2: nat, width: nat)
    requires Integral(s, t, 0, div, one, p1, p2, width)
    ensures Level(s, t, one, p2, width)
  {
    if p1 > 0 {
      MulMonotone(1, p1, one);
    }
  }

  /** The digits before the point, as long as the rest is not below the width of the unsafe interval. */
  method IntegralDigits(
    t: u64, wp: u64, width: u64, first: nat, power: nat, one: u64, q: u32, p2: u64, buffer: array<char>)
    returns (done: bool, ok: bool, len: nat, kappa: nat)
    requires first <= 10 <= buffer.Length && one > 0
    requires Integral([], t as int, first, power, one as nat, q as nat, p2 as nat, width as nat)
    requires 1 <= wp < width && width >= 4
    modifies buffer
    ensures kappa < first || !done
    ensures len == first - kappa <= buffer.Length
    ensures done ==>
      Weeded(buffer[..len], Pow10(kappa) * one as int, width as int, wp as int, t as int, 1, ok)
    ensures !done ==>
      kappa == 0 && Level(buffer[..len], t as int, one as nat, p2 as int, width as int)
  {
    var p1, div := q, power;
    kappa, len := first, 0;
    assert buffer[..0] == [];
    while kappa > 0
      invariant 0 <= kappa <= first && len == first - kappa
      invariant Integral(buffer[..len], t as int, kappa, div, one as nat, p1 as nat, p2 as nat, width as nat)
      decreases kappa
    {
      IntegralStep(buffer[..len], t as int, kappa, div, one as nat, p1 as nat, p2 as nat, width as nat);
      var digit := p1 as nat / div;
      ghost var s := buffer[..len];
      buffer[len] := DigitChar(digit);
      len := len + 1;
      assert buffer[..len] == s + [DigitChar(digit)];
      p1 := (p1 as nat % div) as u32;
      kappa := kappa - 1;
      var rest := p1 as u64 * one + p2;
      if rest < width {
        ok := RoundWeed(buffer, len, wp, width, rest, div as u64 * one, 1, t as int);
        return true, ok, len, kappa;
      }
      div := div / 10;
    }
    AfterThePoint(buffer[..len], t as int, div, one as nat, p1 as nat, p2 as nat, width as nat);
    done, ok := false, false;
  }

  /** The digits after the point, until the rest is below the width of the unsafe interval. */
  method FractionalDigits(t: u64, wp0: u64, width0: u64, first: nat, one: u64, q2: u64, buffer: array<char>)
    returns (ok: bool, len: nat, kappa: int)
    requires 1 <= wp0 < width0 && width0 >= 4
    requires 1 <= one <= 0x1000_0000_0000_0000 && first + 18 <= buffer.Length
    requires Level(buffer[..first], t as int, one as nat, q2 as int, width0 as int)
    modifies buffer
    ensures first < len <= first + 18 && kappa == first - len
    ensures var unit := Pow10(-kappa);
      Weeded(buffer[..len], one as nat, width0 as int * unit, wp0 as int * unit, t as int * unit, unit, ok)
  {
    var p2, unit, width: u64 := q2, 1, width0;
    len, kappa := first, 0;
    while true
      invariant first <= len <= buffer.Length && kappa == first - len
      invariant Fractional(buffer[..len], t as nat, -kappa, one as nat, p2 as nat, width0 as nat, unit as nat, width as nat)
      decreases one as int - width as int
    {
      Room(-kappa, one as nat, width0 as nat, wp0 as nat, unit as nat, width as nat);
      FractionalStep(buffer[..len], t as nat, -kappa, one as nat, p2 as nat, width0 as nat, unit as nat, width as nat);
      p2 := p2 * 10;
      unit := unit * 10;
      width := width * 10;
      var digit := (p2 / one) as nat;
      ghost var s := buffer[..len];
      buffer[len] := DigitChar(digit);
      len := len + 1;
      assert buffer[..len] == s + [DigitChar(digit)];
      p2 := p2 % one;
      kappa := kappa - 1;
      if p2 < width {
        ok := RoundWeed(buffer, len, wp0 * unit, width, p2, one, unit, t as int * unit as int);
        return;
      }
    }
  }

  /** The number is cut at the point, and the largest power of ten of its integral part is found. */
  method CutAtPoint(t: u64, shift: nat, ghost width: nat)
    returns (one: u64, p1: u32, p2: u64, kappa: nat, div: nat)
    requires 32 <= shift <= 60 && TWO_64 / 4 <= t as int && width <= t as int
    ensures TWO_32 <= one as int == Pow2(shift) <= 0x1000_0000_0000_0000 && 0 < kappa <= 10
    ensures Integral([], t as int, kappa, div, one as nat, p1 as nat, p2 as nat, width)
  {
    OneBounds(shift);
    one := Pow2(shift) as u64;
    IntegralPart(t as nat, shift);
    p1 := (t / one) as u32;
    p2 := t % one;
    kappa, div := LargestPow10(p1, 64 - shift);
    FirstLevel(t as nat, kappa, div, one as nat, width);
  }

  /**
   Digit generation for w between low and high, which share the exponent -shift. The digits
   times 10^kappa stay inside the unsafe interval, no shorter digit sequence does, and on
   success they lie in the safe interval and are the closest to w of their length. Every
   operation fits its 64-bit or 32-bit word.
   */
  method DigitGen(low: u64, w: u64, high: u64, shift: nat, buffer: array<char>)
    returns (ok: bool, len: nat, kappa: int)
    requires 32 <= shift <= 60 && 0x4000_0000_0000_0000 <= high < 0xFFFF_FFFF_FFFF_FFFF
    requires 1 <= low <= w <= high && high - low >= 2 && buffer.Length >= 28
    modifies buffer
    ensures 1 <= len <= 28
    ensures Generated(buffer[..len], kappa, Pow2(shift), low as int, w as int, high as int, ok)
  {
    var tooLow, tooHigh := low - 1, high + 1;
    var unsafeWidth := tooHigh - tooLow;
    var one: u64, p1: u32, p2: u64, first: nat, div: nat;
    one, p1, p2, first, div := CutAtPoint(tooHigh, shift, unsafeWidth as nat);
    var done: bool;
    done, ok, len, kappa := IntegralDigits(tooHigh, tooHigh - w, unsafeWidth, first, div, one, p1, p2, buffer);
    if done {
      Conclude(buffer[..len], kappa, one as nat, low as int, w as int, high as int,
               1, Pow10(kappa) * one as int, ok);
    } else {
      ok, len, kappa := FractionalDigits(tooHigh, tooHigh - w, unsafeWidth, len, one, p2, buffer);
      Conclude(buffer[..len], kappa, one as nat, low as int, w as int, high as int,
               Pow10(-kappa), one as nat, ok);
    }
  }
}
