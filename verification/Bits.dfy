/** Bytes, and the shifts and masks the code applies to them, as arithmetic on natural numbers. */
module Bits {

  type Byte = x: int | 0 <= x < 256

  function Pow2(n: nat): (r: nat)
    ensures r > 0
  {
    if n == 0 then 1 else 2 * Pow2(n - 1)
  }

  lemma Twice(x: nat, y: nat)
    ensures 2 * (x * y) == (2 * x) * y
  {}

  lemma {:induction false} PowAdd(a: nat, b: nat)
    ensures Pow2(a + b) == Pow2(a) * Pow2(b)
  {
    if a > 0 {
      PowAdd(a - 1, b);
      assert Pow2(a + b) == 2 * Pow2(a - 1 + b);
      Twice(Pow2(a - 1), Pow2(b));
    }
  }

  lemma DivUnique(n: nat, d: nat, q: nat, r: nat)
    requires d > 0 && n == q * d + r && r < d
    ensures n / d == q && n % d == r
  {
    assert n == (n / d) * d + n % d;
    assert (n / d - q) * d == r - n % d;
    MultipleWithin(n / d - q, d);
  }

  lemma MultipleWithin(k: int, d: int)
    requires d > 0 && -d < k * d < d
    ensures k == 0
  {
    assert k >= 1 ==> k * d >= d;
    assert k <= -1 ==> k * d <= -d;
  }

  lemma Expand(p: nat, b: nat, y: nat, a: nat, x: nat)
    ensures (p * b + y) * a + x == p * (a * b) + (y * a + x)
  {
    assert (p * b + y) * a == p * b * a + y * a;
    assert p * b * a == p * (a * b);
  }

  lemma DigitsBelow(y: nat, b: nat, x: nat, a: nat)
    requires y < b && x < a
    ensures y * a + x < a * b
  {
    Monotone(y + 1, b, a);
    assert (y + 1) * a == y * a + a;
  }

  lemma Monotone(x: nat, y: nat, a: nat)
    requires x <= y
    ensures x * a <= a * y
  {
    assert a * y == x * a + (y - x) * a;
  }

  lemma TwoDigits(q: nat, a: nat, x: nat, p: nat, b: nat, y: nat) returns (low: nat)
    requires q == p * b + y && y < b && x < a
    ensures q * a + x == p * (a * b) + low && low < a * b
  {
    low := y * a + x;
    Expand(p, b, y, a, x);
    DigitsBelow(y, b, x, a);
  }

  lemma PositiveProduct(a: nat, b: nat)
    requires a > 0 && b > 0
    ensures a * b > 0
  {}

  lemma DivDiv(n: nat, a: nat, b: nat)
    requires a > 0 && b > 0
    ensures a * b > 0 && n / (a * b) == n / a / b
  {
    PositiveProduct(a, b);
    var low := TwoDigits(n / a, a, n % a, n / a / b, b, n / a % b);
    DivUnique(n, a * b, n / a / b, low);
  }

  /** Bitwise conjunction of natural numbers. */
  function BitAnd(a: nat, b: nat): nat {
    if a == 0 || b == 0 then 0 else a % 2 * (b % 2) + 2 * BitAnd(a / 2, b / 2)
  }

  lemma {:induction false} AndAllOnes(a: nat, n: nat)
    requires a < Pow2(n)
    ensures BitAnd(a, Pow2(n) - 1) == a
  {
    if a > 0 {
      AndAllOnes(a / 2, n - 1);
      assert (Pow2(n) - 1) / 2 == Pow2(n - 1) - 1 && (Pow2(n) - 1) % 2 == 1;
    }
  }

  function ShiftLeft(a: nat, k: nat): nat { if k == 0 then a else 2 * ShiftLeft(a, k - 1) }

  lemma AndDouble(a: nat, b: nat)
    ensures BitAnd(a, 2 * b) == 2 * BitAnd(a / 2, b)
  {}

  /** Conjunction with a shifted mask is conjunction of the high bits with the mask. */
  lemma {:induction false} AndShifted(a: nat, mask: nat, k: nat)
    ensures BitAnd(a, ShiftLeft(mask, k)) == BitAnd(Quotient(a, Pow2(k)), mask) * Pow2(k)
  {
    if k > 0 {
      var d := Pow2(k - 1);
      AndDouble(a, ShiftLeft(mask, k - 1));
      AndShifted(a / 2, mask, k - 1);
      DivDiv(a, 2, d);
      Doubled(BitAnd(Quotient(a / 2, d), mask), d);
    }
  }

  lemma Doubled(x: nat, d: nat)
    ensures 2 * (x * d) == x * (2 * d)
  {}

  function Quotient(n: nat, d: nat): nat
    requires d > 0
  {
    n / d
  }
}
