/** Division and remainder facts shared by the models. */
module Arith {

  /** Unsigned 32-bit words, and their wrapping addition and subtraction. */
  const U32: nat := 0x1_0000_0000

  function UAdd(a: nat, b: nat): (r: nat)
    requires a < U32 && b < U32
    ensures r < U32
  {
    if a + b < U32 then a + b else a + b - U32
  }

  function USub(a: nat, b: nat): (r: nat)
    requires a < U32 && b < U32
    ensures r < U32
  {
    if b <= a then a - b else U32 + a - b
  }

  lemma MulAtLeast(a: int, d: int)
    requires a > 0 && d >= 1
    ensures a * d >= a && a * (d + 1) == a * d + a
  {
  }

  lemma MulAtMost(a: int, d: int)
    requires a > 0 && d <= -1
    ensures a * d <= -a
  {
    MulAtLeast(a, -d);
    assert a * d == -(a * -d);
  }

  /** Quotient and remainder are unique. */
  lemma DivModUnique(q: int, a: int, r: int)
    requires 0 <= r < a
    ensures (q * a + r) / a == q && (q * a + r) % a == r
  {
    var x := q * a + r;
    var d := q - x / a;
    assert a * d == x % a - r by {
      assert x == a * (x / a) + x % a;
      assert a * d == a * q - a * (x / a);
    }
    if d >= 1 {
      MulAtLeast(a, d);
    } else if d <= -1 {
      MulAtMost(a, d);
    }
  }

  lemma OneMultipleBelowTwo(a: int, d: int)
    requires a > 0 && 0 < a * d < 2 * a
    ensures d == 1
  {
    if d <= -1 {
      MulAtMost(a, d);
    } else if d >= 2 {
      MulAtLeast(a, d - 1);
    }
  }

  function Pow2(k: nat): (p: nat)
    ensures p > 0
  {
    if k == 0 then 1 else 2 * Pow2(k - 1)
  }

  lemma {:induction false} Pow2Sum(j: nat, k: nat)
    ensures Pow2(j + k) == Pow2(j) * Pow2(k)
  {
    if j > 0 {
      Pow2Sum(j - 1, k);
      assert Pow2(j + k) == 2 * Pow2(j - 1 + k);
    }
  }

  lemma Pow2Of32()
    ensures Pow2(32) == 0x1_0000_0000
  {
    assert Pow2(8) == 0x100;
    Pow2Sum(8, 8);
    Pow2Sum(16, 16);
  }
}
