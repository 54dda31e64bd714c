/** Numbers written in a base: the digits of a number, and the value of a string of digits. */
module Numerals {
  import opened Bits

  function Pow(b: nat, n: nat): nat { if n == 0 then 1 else b * Pow(b, n - 1) }

  function DigitChar(d: nat): char
    requires d < 16
  {
    "0123456789abcdef"[d]
  }

  /** A digit in any base up to 36, letters of either case counting from ten; -1 for other characters. */
  function DigitValue(c: char): int
  {
    if '0' <= c <= '9' then c as int - '0' as int
    else if 'a' <= c <= 'z' then c as int - 'a' as int + 10
    else if 'A' <= c <= 'Z' then c as int - 'A' as int + 10
    else -1
  }

  predicate IsDigit(c: char, base: nat) { 0 <= DigitValue(c) < base }

  predicate AllDigits(s: string, base: nat) { forall i :: 0 <= i < |s| ==> IsDigit(s[i], base) }

  lemma DigitRoundTrip(d: nat)
    requires d < 16
    ensures DigitValue(DigitChar(d)) == d
  {
    assert "0123456789abcdef"[d] == if d < 10 then '0' + d as char else 'a' + (d - 10) as char;
  }

  /** The value of a string of digits, most significant first. */
  function Value(s: string, base: nat): nat
    requires AllDigits(s, base)
  {
    if s == [] then 0 else Value(s[..|s| - 1], base) * base + DigitValue(s[|s| - 1])
  }

  lemma Shrinks(u: nat, base: nat)
    requires base >= 2 && u >= base
    ensures 0 < u / base < u && 0 <= u % base < base && u == (u / base) * base + u % base
  {
    var q, r := u / base, u % base;
    assert u == q * base + r;
    if q <= 0 { MulLe(q, 0, base); }
    MulLe(2, base, q);
  }

  lemma Small(u: nat, base: nat)
    requires u < base
    ensures u / base == 0 && u % base == u
  {
    DivModUnique(u, base, 0, u);
  }

  /** The digits of `u`, most significant first, without leading zeros but for 0 itself. */
  function Digits(u: nat, base: nat): string
    requires 2 <= base <= 16
  {
    if u < base then [DigitChar(u)]
    else Shrinks(u, base); Digits(u / base, base) + [DigitChar(u % base)]
  }

  lemma AppendDigit(s: string, d: nat, base: nat)
    requires AllDigits(s, base) && d < base <= 16
    ensures AllDigits(s + [DigitChar(d)], base) && Value(s + [DigitChar(d)], base) == Value(s, base) * base + d
  {
    DigitRoundTrip(d);
    var t := s + [DigitChar(d)];
    assert t[..|t| - 1] == s;
  }

  /** The digits of a number have its value. */
  lemma {:induction false} DigitsValue(u: nat, base: nat)
    requires 2 <= base <= 16
    ensures |Digits(u, base)| > 0 && AllDigits(Digits(u, base), base) && Value(Digits(u, base), base) == u
    decreases u
  {
    if u < base {
      AppendDigit([], u, base);
      assert [] + [DigitChar(u)] == [DigitChar(u)];
    } else {
      Shrinks(u, base);
      DigitsValue(u / base, base);
      OneMoreDigit(u, base, u / base, u % base);
    }
  }

  lemma OneMoreDigit(u: nat, base: nat, q: nat, r: nat)
    requires 2 <= base <= 16 && u >= base && q == u / base && r == u % base < base && u == q * base + r
    requires AllDigits(Digits(q, base), base) && Value(Digits(q, base), base) == q
    ensures Digits(u, base) == Digits(q, base) + [DigitChar(r)]
    ensures AllDigits(Digits(u, base), base) && Value(Digits(u, base), base) == u
  {
    AppendDigit(Digits(q, base), r, base);
  }

  /** They are decimal digits and lower-case letters, and begin with 0 only for 0 itself. */
  lemma {:induction false} DigitsShape(u: nat, base: nat)
    requires 2 <= base <= 16
    ensures |Digits(u, base)| > 0 && (Digits(u, base)[0] == '0' <==> u == 0)
    ensures forall i :: 0 <= i < |Digits(u, base)| ==> Lower(Digits(u, base)[i])
    decreases u
  {
    if u < base {
      LowerDigit(u);
    } else {
      Shrinks(u, base);
      DigitsShape(u / base, base);
      LowerDigit(u % base);
    }
  }

  predicate Lower(c: char) { '0' <= c <= '9' || 'a' <= c <= 'f' }

  lemma LowerDigit(d: nat)
    requires d < 16
    ensures Lower(DigitChar(d)) && (DigitChar(d) == '0' <==> d == 0)
  {
    assert "0123456789abcdef"[d] == if d < 10 then '0' + d as char else 'a' + (d - 10) as char;
  }

  lemma DivBound(u: nat, base: nat, p: nat)
    requires base >= 1
    ensures u / base < p <==> u < base * p
  {
    var q, r := u / base, u % base;
    DivNonnegative(u, base);
    assert u == base * q + r;
    if q < p { MulLe(q + 1, p, base); } else { MulLe(p, q, base); }
  }

  /** A number has at most `n` digits exactly when it is below base^n. */
  lemma {:induction false} DigitsFit(u: nat, base: nat, n: nat)
    requires 2 <= base <= 16 && n >= 1
    ensures |Digits(u, base)| <= n <==> u < Pow(base, n)
    decreases n
  {
    if u < base {
      PowGrows(base, n);
    } else {
      Shrinks(u, base);
      DigitsValue(u / base, base);
      DivBound(u, base, Pow(base, n - 1));
      if n > 1 { DigitsFit(u / base, base, n - 1); }
    }
  }

  lemma {:induction false} PowGrows(base: nat, n: nat)
    requires base >= 1 && n >= 1
    ensures Pow(base, n) >= base
  {
    if n > 1 {
      PowGrows(base, n - 1);
      MulLe(1, Pow(base, n - 1), base);
    }
  }

  lemma {:induction false} PowMonotone(a: nat, b: nat, n: nat)
    requires a <= b
    ensures Pow(a, n) <= Pow(b, n)
  {
    if n > 0 {
      PowMonotone(a, b, n - 1);
      MulLe(Pow(a, n - 1), Pow(b, n - 1), a);
      MulLe(a, b, Pow(b, n - 1));
    }
  }

  lemma {:induction false} PowAdd(b: nat, m: nat, n: nat)
    ensures Pow(b, m + n) == Pow(b, m) * Pow(b, n)
  {
    if m > 0 {
      PowAdd(b, m - 1, n);
      Assoc(b, Pow(b, m - 1), Pow(b, n));
    }
  }

  lemma PowDouble(b: nat, n: nat)
    ensures Pow(b, 2 * n) == Pow(b, n) * Pow(b, n)
  {
    PowAdd(b, n, n);
  }

  function Repeat(c: char, n: int): string { seq(if n > 0 then n else 0, i => c) }

  /** Leading zeros do not change a value. */
  lemma {:induction false} LeadingZeros(n: nat, s: string, base: nat)
    requires AllDigits(s, base) && base >= 1
    ensures AllDigits(Repeat('0', n) + s, base) && Value(Repeat('0', n) + s, base) == Value(s, base)
    decreases |s| + n
  {
    var t := Repeat('0', n) + s;
    assert AllDigits(t, base);
    if |s| > 0 {
      LeadingZeros(n, s[..|s| - 1], base);
      assert t[..|t| - 1] == Repeat('0', n) + s[..|s| - 1];
    } else if n > 0 {
      LeadingZeros(n - 1, s, base);
      assert t[..|t| - 1] == Repeat('0', n - 1) + s;
    }
  }
}
