/** Multiplication facts the solver needs to be led to. */
module Arith {

  function Min(a: int, b: int): int { if a < b then a else b }
  function Max(a: int, b: int): int { if a > b then a else b }

  lemma {:induction false} MulMonotone(a: nat, b: nat, w: nat)
    requires a <= b
    ensures a * w <= b * w
    decreases b - a
  {
    if a < b {
      MulMonotone(a, b - 1, w);
      assert b * w == (b - 1) * w + w;
    }
  }

  lemma MulSum(a: int, b: int, w: int)
    ensures (a + b) * w == a * w + b * w
  {
  }

  lemma TenTimes(a: nat, b: nat)
    ensures 10 * a * b == 10 * (a * b) == a * (10 * b)
  {
  }

  /** Quotient and remainder of a number written as rows and a rest. */
  lemma DivRest(row: nat, col: nat, width: nat)
    requires col < width
    ensures (row * width + col) / width == row && (row * width + col) % width == col
  {
    var n := row * width + col;
    var q, r := n / width, n % width;
    assert q * width + r == n;
    if q < row {
      MulMonotone(q + 1, row, width);
      MulSum(q, 1, width);
    } else if q > row {
      MulMonotone(row + 1, q, width);
      MulSum(row, 1, width);
    }
  }

  /** A position less than two rounds ahead wraps at most once. */
  lemma WrapOnce(i: nat, m: nat)
    requires i < 2 * m
    ensures i % m == if i < m then i else i - m
  {
    if i < m {
      DivRest(0, i, m);
    } else {
      DivRest(1, i - m, m);
    }
  }
}
