/** Numbers written as big-endian digits in base 65536, the half-word base of the division routine. */
module Digits {
  import opened Bits

  function HHalf(x: nat): nat { x / 0x1_0000 }

  function LHalf(x: nat): nat { x % 0x1_0000 }

  /** Two half words joined into one word: the first shifted up (and wrapped), the second or-ed in. */
  function Combine(a: nat, b: nat): nat { Or(W32(a * 0x1_0000), b) }

  predicate IsDigit(d: int) { 0 <= d < 0x1_0000 }

  ghost predicate AreDigits(s: seq<int>)
  {
    forall i :: 0 <= i < |s| ==> IsDigit(s[i])
  }

  ghost function Pow(k: nat): (p: nat)
    ensures p >= 1
  {
    if k == 0 then 1 else 0x1_0000 * Pow(k - 1)
  }

  ghost function Val(s: seq<int>): int { ValTo(s, |s|) }

  /** The value of the first `n` digits. */
  ghost function ValTo(s: seq<int>, n: nat): int
    requires n <= |s|
  {
    if n == 0 then 0 else ValTo(s, n - 1) * 0x1_0000 + s[n - 1]
  }

  lemma {:induction false} ValToSame(s: seq<int>, t: seq<int>, n: nat)
    requires n <= |s| && n <= |t| && forall i :: 0 <= i < n ==> s[i] == t[i]
    ensures ValTo(s, n) == ValTo(t, n)
  {
    if n > 0 { ValToSame(s, t, n - 1); }
  }

  /** The leading digit's share of the value of the first `n`. */
  lemma {:induction false} ValToHead(s: seq<int>, t: seq<int>, n: nat)
    requires 0 < n <= |s| && |t| == |s| - 1 && forall i :: 0 <= i < |t| ==> t[i] == s[i + 1]
    ensures ValTo(s, n) == s[0] * Pow(n - 1) + ValTo(t, n - 1)
  {
    if n > 1 {
      ValToHead(s, t, n - 1);
      HeadStep(s[0], Pow(n - 2));
    } else {
      assert ValTo(s, 0) == 0 && ValTo(t, 0) == 0 && Pow(0) == 1;
    }
  }

  lemma ValHead(s: seq<int>)
    requires |s| > 0
    ensures Val(s) == s[0] * Pow(|s| - 1) + Val(s[1..])
  {
    ValToHead(s, s[1..], |s|);
  }

  lemma HeadStep(d: int, p: int)
    ensures d * p * 0x1_0000 == d * (0x1_0000 * p)
  {
    Assoc(d, p, 0x1_0000);
  }

  lemma CombineIsSum(a: nat, b: nat)
    requires IsDigit(a) && IsDigit(b)
    ensures Combine(a, b) == a * 0x1_0000 + b
  {
    Pow2Sixteen();
    OrDisjoint(a, b, 16);
  }

  lemma {:induction false} PowAdd(i: nat, j: nat)
    ensures Pow(i + j) == Pow(i) * Pow(j)
  {
    if i > 0 {
      PowAdd(i - 1, j);
      Assoc(0x1_0000, Pow(i - 1), Pow(j));
    }
  }

  lemma {:induction false} ValToConcat(a: seq<int>, b: seq<int>, n: nat)
    requires n <= |b|
    ensures ValTo(a + b, |a| + n) == Val(a) * Pow(n) + ValTo(b, n)
  {
    if n == 0 {
      ValToSame(a + b, a, |a|);
      assert Pow(0) == 1;
    } else {
      ValToConcat(a, b, n - 1);
      HeadStep(Val(a), Pow(n - 1));
    }
  }

  lemma ValConcat(a: seq<int>, b: seq<int>)
    ensures Val(a + b) == Val(a) * Pow(|b|) + Val(b)
  {
    ValToConcat(a, b, |b|);
  }

  lemma ValAppend(s: seq<int>, d: int)
    ensures Val(s + [d]) == Val(s) * 0x1_0000 + d
  {
    ValToSame(s + [d], s, |s|);
  }

  lemma {:induction false} ValToBound(s: seq<int>, n: nat)
    requires AreDigits(s) && n <= |s|
    ensures 0 <= ValTo(s, n) < Pow(n)
  {
    if n > 0 {
      ValToBound(s, n - 1);
      assert IsDigit(s[n - 1]);
    }
  }

  lemma ValBound(s: seq<int>)
    requires AreDigits(s)
    ensures 0 <= Val(s) < Pow(|s|)
  {
    ValToBound(s, |s|);
  }

  lemma {:induction false} ValToZeros(s: seq<int>, n: nat)
    requires n <= |s| && forall i :: 0 <= i < n ==> s[i] == 0
    ensures ValTo(s, n) == 0
  {
    if n > 0 { ValToZeros(s, n - 1); }
  }

  lemma ValZeros(s: seq<int>)
    requires forall i :: 0 <= i < |s| ==> s[i] == 0
    ensures Val(s) == 0
  {
    ValToZeros(s, |s|);
  }

  lemma {:induction false} PowMonotone(i: nat, j: nat)
    requires i <= j
    ensures Pow(i) <= Pow(j)
  {
    if i < j { PowMonotone(i, j - 1); }
  }

  lemma DigitsCons(d: int, s: seq<int>)
    ensures AreDigits([d] + s) <==> IsDigit(d) && AreDigits(s)
    ensures Val([d] + s) == d * Pow(|s|) + Val(s)
  {
    ValHead([d] + s);
    assert ([d] + s)[0] == d && ([d] + s)[1..] == s;
    assert forall i :: 0 <= i < |s| ==> s[i] == ([d] + s)[i + 1];
  }
}
