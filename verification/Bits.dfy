/** Machine words as natural numbers: powers of two, 32-bit wrap-around and bitwise or. */
module Bits {

  /** The value an unsigned 32-bit variable holds after being assigned `x`. */
  function W32(x: int): (w: nat)
    ensures w < 0x1_0000_0000
  {
    x % 0x1_0000_0000
  }

  function Pow2(k: nat): (p: nat)
    ensures p >= 1
  {
    if k == 0 then 1 else 2 * Pow2(k - 1)
  }

  /** Bitwise or of two unsigned numbers. */
  function Or(a: nat, b: nat): nat
  {
    if a == 0 && b == 0 then 0
    else 2 * Or(a / 2, b / 2) + (if a % 2 == 1 || b % 2 == 1 then 1 else 0)
  }

  lemma {:induction false} OrZero(a: nat)
    ensures Or(a, 0) == a
  {
    if a > 0 { OrZero(a / 2); }
  }

  /** Where the low `k` bits of one operand are clear and the other fits in them, or is addition. */
  lemma {:induction false} OrDisjoint(c: nat, b: nat, k: nat)
    requires b < Pow2(k)
    ensures Or(c * Pow2(k), b) == c * Pow2(k) + b
  {
    if k == 0 {
      OrZero(c);
    } else {
      var h := c * Pow2(k - 1);
      assert c * Pow2(k) == 2 * h;
      OrDisjoint(c, b / 2, k - 1);
    }
  }

  lemma {:induction false} Pow2Add(i: nat, j: nat)
    ensures Pow2(i + j) == Pow2(i) * Pow2(j)
  {
    if i > 0 {
      Pow2Add(i - 1, j);
    }
  }

  lemma {:induction false} Pow2Monotone(i: nat, j: nat)
    requires i <= j
    ensures Pow2(i) <= Pow2(j)
  {
    if i < j { Pow2Monotone(i, j - 1); }
  }

  lemma Pow2Sixteen()
    ensures Pow2(16) == 0x1_0000
  {
    assert Pow2(4) == 16;
    Pow2Add(4, 4);
    Pow2Add(8, 8);
  }

  // ----- products

  lemma MulLe(a: int, b: int, c: int)
    requires a <= b && c >= 0
    ensures a * c <= b * c
  {
  }

  lemma MulZero(a: int, b: int)
    requires a == 0
    ensures a * b == 0
  {
  }

  lemma Assoc(a: int, b: int, c: int)
    ensures a * b * c == a * (b * c)
  {
  }

  lemma Distribute(a: int, b: int, c: int)
    ensures (a + b) * c == a * c + b * c
    ensures (a - b) * c == a * c - b * c
  {
  }

  lemma DivNonnegative(x: int, y: int)
    requires 0 <= x && 0 < y
    ensures x / y >= 0
  {
    var q := x / y;
    if q < 0 { MulLe(q, -1, y); }
  }

  /** Quotient and remainder are the only pair with their defining equation. */
  lemma DivModUnique(x: int, y: int, q: int, r: int)
    requires y > 0 && x == q * y + r && 0 <= r < y
    ensures q == x / y && r == x % y
  {
    var q1, r1 := x / y, x % y;
    assert x == q1 * y + r1;
    if q > q1 {
      MulLe(q1 + 1, q, y);
      Distribute(q1, 1, y);
    } else if q < q1 {
      MulLe(q + 1, q1, y);
      Distribute(q, 1, y);
    }
  }
}
