/** Floating-point numbers with a 64-bit significand: rounded multiplication and normalisation. */
module DiyFp {
  import opened Arith

  /** Arithmetic on this type is checked: an operation whose result does not fit does not verify. */
  newtype u64 = x: int | 0 <= x < 0x1_0000_0000_0000_0000

  datatype Fp = Fp(f: u64, e: int)

  const TWO_32: int := 0x1_0000_0000
  const TWO_64: int := 0x1_0000_0000_0000_0000

  function Pow2(n: nat): (r: nat)
    ensures r > 0
  {
    if n == 0 then 1 else 2 * Pow2(n - 1)
  }

  lemma HalvesBounded(a: nat, b: nat)
    requires a < TWO_32 && b < TWO_32
    ensures 0 <= a * b <= (TWO_32 - 1) * (TWO_32 - 1)
  {
    MulMonotone(0, a, b);
    MulMonotone(a, TWO_32 - 1, b);
    MulMonotone(b, TWO_32 - 1, TWO_32 - 1);
  }

  /** The product of two halves fits into a word. */
  function HalfProduct(a: u64, b: u64): (r: u64)
    requires a < 0x1_0000_0000 && b < 0x1_0000_0000
    ensures 0 <= r as int == a as int * b as int <= (TWO_32 - 1) * (TWO_32 - 1)
  {
    HalvesBounded(a as nat, b as nat);
    a * b
  }

  /** The product is rounded to nearest, halves up, and no step overflows. */
  method Multiply(x: Fp, y: Fp) returns (r: Fp)
    ensures r.f as int == (x.f as int * y.f as int + 0x8000_0000_0000_0000) / TWO_64
    ensures r.e == x.e + y.e + 64
  {
    var a, b := x.f / 0x1_0000_0000, x.f % 0x1_0000_0000;
    var c, d := y.f / 0x1_0000_0000, y.f % 0x1_0000_0000;
    var ac, bc, ad, bd := HalfProduct(a, c), HalfProduct(b, c), HalfProduct(a, d), HalfProduct(b, d);
    var tmp := bd / 0x1_0000_0000 + ad % 0x1_0000_0000 + bc % 0x1_0000_0000;
    tmp := tmp + 0x8000_0000;
    r := Fp(ac + ad / 0x1_0000_0000 + bc / 0x1_0000_0000 + tmp / 0x1_0000_0000, x.e + y.e + 64);
  }

  lemma {:induction false} Pow2Sum(a: nat, b: nat)
    ensures Pow2(a + b) == Pow2(a) * Pow2(b)
    decreases a
  {
    if a > 0 {
      Pow2Sum(a - 1, b);
      assert Pow2(a + b) == 2 * Pow2(a - 1 + b);
    }
  }

  /** The significand is shifted until its top bit is set; the value f * 2^e is kept exactly. */
  method Normalize(n: Fp) returns (r: Fp)
    requires n.f != 0
    ensures r.f >= 0x8000_0000_0000_0000
    ensures r.e <= n.e && r.f as int == n.f as int * Pow2(n.e - r.e)
  {
    r := n;
    while r.f < 0x40_0000_0000_0000
      invariant r.f > 0 && r.e <= n.e && r.f as int == n.f as int * Pow2(n.e - r.e)
      decreases 0x1_0000_0000_0000_0000 - r.f as int
    {
      ShiftKeepsValue(n.f as int, n.e - r.e, 10);
      assert Pow2(10) == 1024;
      r := Fp(r.f * 1024, r.e - 10);
    }
    while r.f < 0x8000_0000_0000_0000
      invariant r.f > 0 && r.e <= n.e && r.f as int == n.f as int * Pow2(n.e - r.e)
      decreases 0x1_0000_0000_0000_0000 - r.f as int
    {
      ShiftKeepsValue(n.f as int, n.e - r.e, 1);
      assert Pow2(1) == 2;
      r := Fp(r.f * 2, r.e - 1);
    }
  }

  lemma ShiftKeepsValue(f: int, shift: nat, more: nat)
    ensures f * Pow2(shift) * Pow2(more) == f * Pow2(shift + more)
  {
    Pow2Sum(shift, more);
    assert f * (Pow2(shift) * Pow2(more)) == f * Pow2(shift) * Pow2(more);
  }
}
