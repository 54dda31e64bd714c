/** Granule rounding, and the bit loop that raises an address to a required alignment and offset. */
module Align {
  import opened Bits

  /** `x` with the bits below the 8-byte granule cleared, reached granule by granule. */
  function Down8(x: int): int
    decreases if x >= 0 then x else 8 - x
  {
    if x >= 8 then Down8(x - 8) + 8
    else if x < 0 then Down8(x + 8) - 8
    else 0
  }

  /** `x` raised to a granule boundary. */
  function Up8(x: int): int { Down8(x + 7) }

  lemma {:induction false} ClearsLowBits(x: int)
    ensures Down8(x) == x - x % 8
    decreases if x >= 0 then x else 8 - x
  {
    if x >= 8 {
      ClearsLowBits(x - 8);
    } else if x < 0 {
      ClearsLowBits(x + 8);
    }
  }

  /** Bit `i` of an address, as a mask test sees it. */
  predicate BitSet(x: int, i: nat) { x / Pow2(i) % 2 == 1 }

  /** `x` has the same low bits as `ofs`, for an alignment of `m` bytes. */
  predicate Congruent(x: int, ofs: int, m: int)
    requires m > 0
  {
    (x - ofs) % m == 0
  }

  lemma RoundDown(x: int)
    ensures Down8(x) % 8 == 0 && Down8(x) <= x < Down8(x) + 8
    ensures x % 8 == 0 ==> Down8(x) == x
  {
    ClearsLowBits(x);
    DivModUnique(Down8(x), 8, x / 8, 0);
  }

  lemma Rounding(x: int)
    ensures Down8(x) % 8 == 0 && Down8(x) <= x < Down8(x) + 8
    ensures Up8(x) % 8 == 0 && x <= Up8(x) < x + 8
    ensures x % 8 == 0 ==> Down8(x) == x && Up8(x) == x
  {
    RoundDown(x);
    RoundDown(x + 7);
    if x % 8 == 0 { Closest(x, Up8(x)); }
  }

  /** `y` is `x` raised to the granule boundary. */
  predicate IsUp8(x: int, y: int) { y % 8 == 0 && x <= y < x + 8 }

  lemma IsUp8Up8(x: int)
    ensures IsUp8(x, Up8(x))
  {
    Rounding(x);
  }

  lemma OnlyUp8(x: int, y: int)
    requires IsUp8(x, y)
    ensures y == Up8(x)
  {
    Rounding(x);
    Closest(y, Up8(x));
  }

  lemma Closest(a: int, b: int)
    requires a % 8 == 0 && b % 8 == 0 && a < b + 8 && b < a + 8
    ensures a == b
  {
  }

  lemma Parity(a: int, b: int)
    ensures (a % 2 == 1) == (b % 2 == 1) ==> (a - b) % 2 == 0
    ensures (a % 2 == 1) != (b % 2 == 1) ==> (a - b + 1) % 2 == 0
  {
  }

  lemma SplitCongruent(a: int, o: int, p: int)
    requires p > 0 && Congruent(a, o, p)
    ensures a - o == (a / p - o / p) * p
  {
    var k := (a - o) / p;
    Distribute(k, o / p, p);
    DivModUnique(a, p, k + o / p, o % p);
  }

  lemma TwiceMultiple(x: int, k: int, p: int)
    requires p > 0 && x == k * p && k % 2 == 0
    ensures x % (2 * p) == 0
  {
    var h := k / 2;
    assert k == 2 * h;
    Assoc(h, 2, p);
    DivModUnique(x, 2 * p, h, 0);
  }

  /** One round of the bit loop: adding the bit exactly when it differs extends the congruence. */
  lemma BitRound(a: int, o: int, i: nat)
    requires Congruent(a, o, Pow2(i))
    ensures BitSet(a, i) == BitSet(o, i) ==> Congruent(a, o, Pow2(i + 1))
    ensures BitSet(a, i) != BitSet(o, i) ==> Congruent(a + Pow2(i), o, Pow2(i + 1))
  {
    var p := Pow2(i);
    SplitCongruent(a, o, p);
    Parity(a / p, o / p);
    var k := a / p - o / p;
    if BitSet(a, i) == BitSet(o, i) {
      TwiceMultiple(a - o, k, p);
    } else {
      Distribute(k, 1, p);
      TwiceMultiple(a + p - o, k + 1, p);
    }
  }

  /** `a` is the first address from `start` on with the low bits of `ofs`. */
  predicate IsLeast(a: int, start: int, ofs: int, m: int)
    requires m > 0
  {
    start <= a < start + m && Congruent(a, ofs, m)
  }

  lemma LeastExists(start: int, ofs: int, m: int)
    requires m > 0
    ensures exists a :: IsLeast(a, start, ofs, m)
  {
    var k, r := (ofs - start) / m, (ofs - start) % m;
    assert ofs - start == k * m + r;
    Distribute(0, k, m);
    DivModUnique(start + r - ofs, m, -k, 0);
    assert IsLeast(start + r, start, ofs, m);
  }

  ghost function LeastFrom(start: int, ofs: int, m: int): (a: int)
    requires m > 0
    ensures IsLeast(a, start, ofs, m)
  {
    LeastExists(start, ofs, m);
    var a :| IsLeast(a, start, ofs, m);
    a
  }

  lemma Pow2Word()
    ensures Pow2(32) == 0x1_0000_0000
  {
    Pow2Sixteen();
    Pow2Add(16, 16);
  }

  lemma WrapAdd(t: int, k: int)
    ensures W32(W32(t) + k) == W32(t + k)
  {
  }

  lemma EvenMore(c: int, h: int, x: int)
    ensures (c * (2 * h) + x) % 2 == x % 2
  {
    assert c * (2 * h) == 2 * (c * h);
  }

  lemma SplitQuotient(t: int, m: int, p: int, k: int)
    requires p > 0 && m > 0 && m == k * p
    ensures t / p == t / m * k + t % m / p
  {
    var c, r := t / m, t % m;
    assert t == c * m + r;
    SplitAgain(t, c, r, m, p, k);
  }

  lemma SplitAgain(t: int, c: int, r: int, m: int, p: int, k: int)
    requires p > 0 && m == k * p && t == c * m + r
    ensures t / p == c * k + r / p
  {
    var d, e := r / p, r % p;
    Assoc(c, k, p);
    Distribute(c * k, d, p);
    DivModUnique(t, p, c * k + d, e);
  }

  lemma WordFactors(i: nat)
    requires i < 32
    ensures 0x1_0000_0000 == 2 * Pow2(31 - i) * Pow2(i)
  {
    Pow2Word();
    Pow2Add(32 - i, i);
  }

  /** Wrapping to 32 bits leaves the low 32 bits alone. */
  lemma WrapKeepsBits(t: int, i: nat)
    requires i < 32
    ensures BitSet(W32(t), i) == BitSet(t, i)
  {
    var h := Pow2(31 - i);
    WordFactors(i);
    SplitQuotient(t, 0x1_0000_0000, Pow2(i), 2 * h);
    EvenMore(t / 0x1_0000_0000, h, W32(t) / Pow2(i));
  }

  /** Add bit `i` where the address and the offset disagree on it; `t` is the sum without wrap-around. */
  method RaiseBit(addr: int, ofs: int, i: nat, ghost t: int) returns (r: int, ghost t': int)
    requires i < 32 && t >= 0 && addr == W32(t) && Congruent(t, ofs, Pow2(i))
    ensures t <= t' <= t + Pow2(i) && r == W32(t') && Congruent(t', ofs, Pow2(i + 1))
  {
    RaiseFacts(t, ofs, i);
    r, t' := addr, t;
    if BitSet(addr, i) != BitSet(ofs, i) {
      r, t' := W32(addr + Pow2(i)), t + Pow2(i);
    }
  }

  lemma RaiseFacts(t: int, ofs: int, i: nat)
    requires i < 32 && Congruent(t, ofs, Pow2(i))
    ensures BitSet(W32(t), i) == BitSet(ofs, i) ==> Congruent(t, ofs, Pow2(i + 1))
    ensures BitSet(W32(t), i) != BitSet(ofs, i) ==> Congruent(t + Pow2(i), ofs, Pow2(i + 1))
    ensures W32(W32(t) + Pow2(i)) == W32(t + Pow2(i))
  {
    BitRound(t, ofs, i);
    WrapKeepsBits(t, i);
    WrapAdd(t, Pow2(i));
  }

  /** The least address from `start` on with the required low bits, wrapped to 32 bits. */
  method AlignUp(start: int, bits: nat, ofs: int) returns (addr: int)
    requires 0 <= start < 0x1_0000_0000 && bits <= 32
    ensures addr == W32(LeastFrom(start, ofs, Pow2(bits)))
  {
    addr := start;
    var i := 0;
    ghost var t := start;
    while i < bits
      invariant 0 <= i <= bits && addr == W32(t)
      invariant start <= t < start + Pow2(i) && Congruent(t, ofs, Pow2(i))
    {
      addr, t := RaiseBit(addr, ofs, i, t);
      i := i + 1;
    }
    LeastUnique(t, start, ofs, Pow2(bits));
  }

  lemma LeastUnique(a: int, start: int, ofs: int, m: int)
    requires m > 0 && IsLeast(a, start, ofs, m)
    ensures a == LeastFrom(start, ofs, m)
  {
    NoneBetween(a, LeastFrom(start, ofs, m), ofs, m);
    NoneBetween(LeastFrom(start, ofs, m), a, ofs, m);
  }

  lemma LeastAligned(start: int, addr: int, ofs: int, m: int)
    requires m > 0 && start <= addr < start + m && Congruent(addr, ofs, m)
    ensures forall x :: start <= x && Congruent(x, ofs, m) ==> addr <= x
  {
    forall x | start <= x && Congruent(x, ofs, m) ensures addr <= x {
      NoneBetween(x, addr, ofs, m);
    }
  }

  lemma NoneBetween(x: int, y: int, ofs: int, m: int)
    requires m > 0 && Congruent(x, ofs, m) && Congruent(y, ofs, m) && y - x < m
    ensures y <= x
  {
    var k, j := (x - ofs) / m, (y - ofs) / m;
    assert x - ofs == k * m && y - ofs == j * m;
    if j > k { MulLe(k + 1, j, m); Distribute(k, 1, m); }
    if j <= k { MulLe(j, k, m); }
  }
}
