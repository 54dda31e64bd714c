/**
 * Unsigned 64-bit division by Knuth's Algorithm D in base 65536
 * (The Art of Computer Programming, volume 2, section 4.3.1), on five-digit working arrays that
 * are changed in place. Where the program moves a pointer `u`, `v` or `q` into its array, the
 * model passes the index it points to.
 */
module QDivRem {
  import opened Bits
  import opened Digits
  import opened DivisionSpec

  datatype DivResult =
    | DivideByZero                                 // the processor traps on 1 / zero
    | Divided(quotient: nat, remainder: Option<nat>)

  datatype Option<T> = None | Some(value: T)

  ghost predicate DigitRange(a: array<int>, lo: nat, hi: nat)
    requires hi <= a.Length
    reads a
  {
    forall i :: lo <= i < hi ==> IsDigit(a[i])
  }

  /** A slice, element by element. */
  lemma SliceIs(a: array<int>, lo: nat, hi: nat, s: seq<int>)
    requires lo <= hi <= a.Length && |s| == hi - lo && forall x :: lo <= x < hi ==> a[x] == s[x - lo]
    ensures a[lo..hi] == s
  {
  }

  lemma SliceDigits(a: array<int>, lo: nat, hi: nat)
    requires lo <= hi <= a.Length && DigitRange(a, lo, hi)
    ensures AreDigits(a[lo..hi])
  {
  }

  /** A slice is its first element and the rest. */
  lemma SliceHead(a: array<int>, lo: nat, hi: nat)
    requires lo < hi <= a.Length
    ensures a[lo..hi] == [a[lo]] + a[lo + 1..hi] && a[lo..hi][1..] == a[lo + 1..hi] && a[lo..hi][0] == a[lo]
  {
  }

  /** Shift p[b..b + len] left by `sh` bits; len + 1 digits are written. */
  method Shl(p: array<int>, b: nat, len: nat, sh: nat)
    requires b + len < p.Length && 0 < sh < 16
    requires DigitRange(p, b, b + len + 1)
    modifies p
    ensures forall x :: 0 <= x < p.Length && (x < b || b + len < x) ==> p[x] == old(p[x])
    ensures p[b..b + len + 1] == ShiftLeft(old(p[b..b + len + 1]), sh)
  {
    ghost var o := p[b..b + len + 1];
    ghost var r := ShiftLeft(o, sh);
    var i := 0;
    while i < len
      invariant i <= len
      invariant forall x :: 0 <= x < p.Length && (x < b || b + i <= x) ==> p[x] == old(p[x])
      invariant forall x :: b <= x < b + i ==> p[x] == r[x - b]
    {
      p[b + i] := ShiftInto(p[b + i], p[b + i + 1], sh, o, i);
      i := i + 1;
    }
    p[b + i] := ShiftLast(p[b + i], sh, o);
  }

  method ShiftInto(x: int, y: int, sh: nat, ghost s: seq<int>, ghost i: nat) returns (d: int)
    requires 0 < sh < 16 && AreDigits(s) && i + 1 < |s| && x == s[i] && y == s[i + 1]
    ensures d == ShiftLeft(s, sh)[i]
  {
    ShiftLeftAt(s, sh, i);
    d := Or(LowBits(x, sh), HighBits(y, sh));
  }

  method ShiftLast(x: int, sh: nat, ghost s: seq<int>) returns (d: int)
    requires 0 < sh < 16 && AreDigits(s) && 0 < |s| && x == s[|s| - 1]
    ensures d == ShiftLeft(s, sh)[|s| - 1]
  {
    ShiftLeftAt(s, sh, |s| - 1);
    d := LowBits(x, sh);
  }

  method JoinHalves(a: nat, b: nat) returns (w: nat)
    requires IsDigit(a) && IsDigit(b)
    ensures w == a * 0x1_0000 + b
  {
    CombineIsSum(a, b);
    w := Combine(a, b);
  }

  /** The D3 test, in wrapping arithmetic. */
  method QhatTooBig(qhat: nat, rhat: nat, uj2: nat, v2: nat) returns (tooBig: bool)
    requires IsDigit(qhat) && IsDigit(rhat) && IsDigit(uj2) && IsDigit(v2)
    ensures tooBig <==> v2 * qhat > rhat * 0x1_0000 + uj2
  {
    ProductFits(v2, qhat);
    var c := JoinHalves(rhat, uj2);
    tooBig := W32(v2 * qhat) > c;
  }

  method FirstTrial(uj0: int, uj1: int, ghost uj2: int, v1: int, ghost v2: int) returns (qhat: int, rhat: int)
    requires IsDigit(uj0) && IsDigit(uj1) && IsDigit(uj2) && IsDigit(v1) && IsDigit(v2) && uj0 < v1
    ensures IsDigit(qhat) && IsDigit(rhat) && Trial(qhat, rhat, uj0 * 0x1_0000 + uj1, uj2, v1, v2)
  {
    var nn := JoinHalves(uj0, uj1);
    FirstEstimate(nn, uj2, v1, v2);
    qhat := nn / v1;
    rhat := nn % v1;
  }

  /** D3: the trial quotient digit, from the leading digits of dividend and divisor. */
  method EstimateDigit(uj0: int, uj1: int, uj2: int, v1: int, v2: int) returns (qhat: int)
    requires IsDigit(uj0) && IsDigit(uj1) && IsDigit(uj2) && IsDigit(v1) && IsDigit(v2)
    requires uj0 <= v1 && v1 >= 0x8000
    ensures CappedQuotient(qhat, (uj0 * 0x1_0000 + uj1) * 0x1_0000 + uj2, v1 * 0x1_0000 + v2)
  {
    ghost var uu := uj0 * 0x1_0000 + uj1;
    var rhat: int;
    var tooBig := true;                    // entering the loop in its middle
    if uj0 == v1 {
      qhat := 0x1_0000;
      rhat := uj1;
    } else {
      qhat, rhat := FirstTrial(uj0, uj1, uj2, v1, v2);
      tooBig := QhatTooBig(qhat, rhat, uj2, v2);
    }
    while tooBig
      invariant Trial(qhat, rhat, uu, uj2, v1, v2)
      invariant tooBig ==> rhat < 0x1_0000 && (qhat == 0x1_0000 || v2 * qhat > rhat * 0x1_0000 + uj2)
      invariant !tooBig ==> qhat < 0x1_0000 && (rhat >= 0x1_0000 || v2 * qhat <= rhat * 0x1_0000 + uj2)
      decreases qhat
    {
      qhat, rhat, tooBig := Decrement(qhat, rhat, uu, uj2, v1, v2);
    }
    TrialDone(qhat, rhat, uu, uj2, v1, v2);
  }

  /** The body of the D3 loop: one less, and the test again unless rhat has left its range. */
  method Decrement(qhat: int, rhat: int, ghost uu: int, uj2: int, v1: int, v2: int) returns (qhat': int, rhat': int, tooBig: bool)
    requires Trial(qhat, rhat, uu, uj2, v1, v2) && IsDigit(uj2) && IsDigit(v1) && IsDigit(v2)
    requires rhat < 0x1_0000 && (qhat == 0x1_0000 || v2 * qhat > rhat * 0x1_0000 + uj2)
    ensures qhat' == qhat - 1 && Trial(qhat', rhat', uu, uj2, v1, v2) && qhat' < 0x1_0000
    ensures tooBig ==> rhat' < 0x1_0000 && v2 * qhat' > rhat' * 0x1_0000 + uj2
    ensures !tooBig ==> rhat' >= 0x1_0000 || v2 * qhat' <= rhat' * 0x1_0000 + uj2
  {
    NextEstimate(qhat, rhat, uu, uj2, v1, v2);
    qhat', rhat', tooBig := qhat - 1, W32(rhat + v1), false;
    if rhat' < 0x1_0000 {
      tooBig := QhatTooBig(qhat', rhat', uj2, v2);
    }
  }

  /** What holds of qhat and rhat throughout D3. */
  ghost predicate Trial(qhat: int, rhat: int, uu: int, uj2: int, v1: int, v2: int)
  {
    && 0 <= qhat <= 0x1_0000 && 0 <= rhat < 0x2_0000
    && qhat * v1 + rhat == uu
    && (qhat >= 0xffff || (qhat + 1) * (v1 * 0x1_0000 + v2) > uu * 0x1_0000 + uj2)
  }

  lemma FirstEstimate(uu: int, uj2: int, v1: int, v2: int)
    requires 0 <= uu < v1 * 0x1_0000 && v1 < 0x1_0000 && IsDigit(uj2) && 0 <= v2
    ensures 0 <= uu / v1 < 0x1_0000 && 0 <= uu % v1 < 0x1_0000
    ensures Trial(uu / v1, uu % v1, uu, uj2, v1, v2)
  {
    var q := uu / v1;
    if q >= 0x1_0000 { MulLe(0x1_0000, q, v1); }
    Distribute(q, 1, v1);
    MulLe(0, v2, q + 1);
    assert (q + 1) * (v1 * 0x1_0000 + v2) == (q + 1) * v1 * 0x1_0000 + (q + 1) * v2;
  }

  lemma NextEstimate(qhat: int, rhat: int, uu: int, uj2: int, v1: int, v2: int)
    requires Trial(qhat, rhat, uu, uj2, v1, v2) && IsDigit(uj2) && rhat < 0x1_0000
    requires 0 <= v1 < 0x1_0000 && 0 <= v2
    requires qhat == 0x1_0000 || v2 * qhat > rhat * 0x1_0000 + uj2
    ensures 1 <= qhat && Trial(qhat - 1, rhat + v1, uu, uj2, v1, v2)
  {
    Distribute(qhat, 1, v1);
    EstimateGap(qhat, rhat, uu, uj2, v1, v2);
  }

  lemma EstimateGap(qhat: int, rhat: int, uu: int, uj2: int, v1: int, v2: int)
    requires qhat * v1 + rhat == uu
    ensures uu * 0x1_0000 + uj2 - qhat * (v1 * 0x1_0000 + v2) == rhat * 0x1_0000 + uj2 - v2 * qhat
  {
    assert qhat * (v1 * 0x1_0000 + v2) == qhat * v1 * 0x1_0000 + qhat * v2;
  }

  lemma TrialDone(qhat: int, rhat: int, uu: int, uj2: int, v1: int, v2: int)
    requires Trial(qhat, rhat, uu, uj2, v1, v2) && IsDigit(uj2) && IsDigit(v2) && qhat < 0x1_0000
    requires rhat >= 0x1_0000 || v2 * qhat <= rhat * 0x1_0000 + uj2
    ensures CappedQuotient(qhat, uu * 0x1_0000 + uj2, v1 * 0x1_0000 + v2)
  {
    EstimateGap(qhat, rhat, uu, uj2, v1, v2);
    ProductFits(v2, qhat);
  }

  /** The loop of D4 over the digits u[k + 1..k + n], from the least significant one up. */
  method SubtractLoop(u: array<int>, k: nat, v: array<int>, vb: nat, n: nat, qhat: int,
                      ghost us: seq<int>, ghost vs: seq<int>, ghost c: Chain) returns (t: int)
    requires u != v && k + n < u.Length && vb + n < v.Length
    requires us == u[k + 1..k + n + 1] && vs == v[vb + 1..vb + n + 1] && IsSubtraction(c, us, vs, qhat)
    modifies u
    ensures forall x :: 0 <= x < u.Length && (x <= k || k + n < x) ==> u[x] == old(u[x])
    ensures u[k + 1..k + n + 1] == c.digits && t == c.carries[0]
  {
    var i := n;
    t := 0;
    while i > 0
      invariant 0 <= i <= n && t == c.carries[i]
      invariant forall x :: 0 <= x < u.Length && (x <= k + i || k + n < x) ==> u[x] == old(u[x])
      invariant forall x :: k + i < x <= k + n ==> u[x] == c.digits[x - k - 1]
    {
      u[k + i], t := SubtractDigit(u[k + i], v[vb + i], qhat, t, us, vs, c, i - 1);
      i := i - 1;
    }
    SliceIs(u, k + 1, k + n + 1, c.digits);
  }

  /** One digit of D4: the wrapped difference gives the new digit and the borrow. */
  method SubtractDigit(u: int, v: int, qhat: int, t: int, ghost us: seq<int>, ghost vs: seq<int>, ghost c: Chain, ghost i: nat)
    returns (d: int, t': int)
    requires i < |us| && IsSubtraction(c, us, vs, qhat) && u == us[i] && v == vs[i] && t == c.carries[i + 1]
    ensures d == c.digits[i] && t' == c.carries[i]
  {
    assert SubtractionAt(c, us, vs, qhat, i);
    var w := WrappedDifference(u, v, qhat, t);
    d := LHalf(w);
    t' := BorrowOf(w);
  }

  /** D4: subtract qhat times v[1..n] from u[k..k + n]; the result is nonzero on a borrow. */
  method MulSub(u: array<int>, k: nat, v: array<int>, vb: nat, n: nat, qhat: int) returns (high: nat)
    requires u != v && k + n < u.Length && vb + n < v.Length
    requires DigitRange(u, k, k + n + 1) && DigitRange(v, vb + 1, vb + n + 1) && IsDigit(qhat)
    modifies u
    ensures forall x :: 0 <= x < u.Length && (x < k || k + n < x) ==> u[x] == old(u[x])
    ensures DigitRange(u, k, k + n + 1)
    ensures Val(u[k..k + n + 1]) == Val(old(u[k..k + n + 1])) - qhat * Val(v[vb + 1..vb + n + 1])
                                  + (if high != 0 then Pow(n + 1) else 0)
  {
    SliceDigits(u, k, k + n + 1);
    SliceDigits(v, vb + 1, vb + n + 1);
    ghost var left;
    high, left := SubtractFrom(u, k, v, vb, n, qhat, u[k..k + n + 1], v[vb + 1..vb + n + 1]);
    FromSlice(u, k, k + n + 1, left);
  }

  method SubtractFrom(u: array<int>, k: nat, v: array<int>, vb: nat, n: nat, qhat: int, ghost win: seq<int>, ghost vs: seq<int>)
    returns (high: nat, ghost left: seq<int>)
    requires u != v && k + n < u.Length && vb + n < v.Length && IsDigit(qhat)
    requires win == u[k..k + n + 1] && vs == v[vb + 1..vb + n + 1] && AreDigits(win) && AreDigits(vs)
    modifies u
    ensures forall x :: 0 <= x < u.Length && (x < k || k + n < x) ==> u[x] == old(u[x])
    ensures u[k..k + n + 1] == left && AreDigits(left)
    ensures Val(left) == Val(win) - qhat * Val(vs) + (if high != 0 then Pow(n + 1) else 0)
  {
    ghost var u0, us := u[k], u[k + 1..k + n + 1];
    SliceHead(u, k, k + n + 1);
    DigitsCons(u0, us);
    ghost var c;
    high, c := SubtractWindow(u, k, v, vb, n, qhat, us, vs);
    SubtractWhole(u0, us, c, qhat * Val(vs));
    left := [LHalf(W32(u0 - c.carries[0]))] + c.digits;
  }

  method SubtractWindow(u: array<int>, k: nat, v: array<int>, vb: nat, n: nat, qhat: int,
                        ghost us: seq<int>, ghost vs: seq<int>) returns (high: nat, ghost c: Chain)
    requires u != v && k + n < u.Length && vb + n < v.Length
    requires us == u[k + 1..k + n + 1] && vs == v[vb + 1..vb + n + 1] && AreDigits(us) && AreDigits(vs) && IsDigit(qhat)
    modifies u
    ensures forall x :: 0 <= x < u.Length && (x < k || k + n < x) ==> u[x] == old(u[x])
    ensures |c.digits| == n && |c.carries| > 0 && AreDigits(c.digits) && IsDigit(c.carries[0])
    ensures Val(c.digits) == Val(us) - qhat * Val(vs) + c.carries[0] * Pow(n)
    ensures var w := W32(old(u[k]) - c.carries[0]); u[k..k + n + 1] == [LHalf(w)] + c.digits && high == HHalf(w)
  {
    c := SubtractionChain(us, vs, qhat);
    var t := SubtractLoop(u, k, v, vb, n, qhat, us, vs, c);
    var w := W32(u[k] - t);
    u[k] := LHalf(w);
    high := HHalf(w);
    SliceHead(u, k, k + n + 1);
    assert u[k + 1..k + n + 1] == c.digits;
  }

  /** Multiply-and-subtract on the whole window, the extra leading digit included. */
  lemma SubtractWhole(u0: int, us: seq<int>, c: Chain, m: int)
    requires |c.digits| == |us| && |c.carries| > 0 && IsDigit(u0) && AreDigits(c.digits) && IsDigit(c.carries[0])
    requires Val(c.digits) == Val(us) - m + c.carries[0] * Pow(|us|)
    ensures var w := W32(u0 - c.carries[0]);
            AreDigits([LHalf(w)] + c.digits)
            && Val([LHalf(w)] + c.digits) == Val([u0] + us) - m + (if HHalf(w) != 0 then Pow(|us| + 1) else 0)
  {
    DigitsCons(u0, us);
    FinalBorrow(u0, c.carries[0]);
    var w := W32(u0 - c.carries[0]);
    DigitsCons(LHalf(w), c.digits);
    LeadStep(LHalf(w), u0, c.carries[0], HHalf(w) != 0, Pow(|us|), Val(c.digits), Val(us), m);
  }

  lemma LeadStep(d': int, d: int, t: int, borrow: bool, p: int, new': int, old': int, m: int)
    requires d' == d - t + (if borrow then 0x1_0000 else 0)
    requires new' == old' - m + t * p
    ensures d' * p + new' == (d * p + old') - m + (if borrow then 0x1_0000 * p else 0)
  {
    Distribute(d, t, p);
    if borrow { Distribute(d - t, 0x1_0000, p); }
  }

  method AddLoop(u: array<int>, k: nat, v: array<int>, vb: nat, n: nat, ghost us: seq<int>, ghost vs: seq<int>, ghost c: Chain)
    returns (t: int)
    requires u != v && k + n < u.Length && vb + n < v.Length
    requires us == u[k + 1..k + n + 1] && vs == v[vb + 1..vb + n + 1] && IsAddition(c, us, vs)
    modifies u
    ensures forall x :: 0 <= x < u.Length && (x <= k || k + n < x) ==> u[x] == old(u[x])
    ensures u[k + 1..k + n + 1] == c.digits && t == c.carries[0]
  {
    var i := n;
    t := 0;
    while i > 0
      invariant 0 <= i <= n && t == c.carries[i]
      invariant forall x :: 0 <= x < u.Length && (x <= k + i || k + n < x) ==> u[x] == old(u[x])
      invariant forall x :: k + i < x <= k + n ==> u[x] == c.digits[x - k - 1]
    {
      u[k + i], t := AddDigit(u[k + i], v[vb + i], t, us, vs, c, i - 1);
      i := i - 1;
    }
    SliceIs(u, k + 1, k + n + 1, c.digits);
  }

  method AddDigit(u: int, v: int, t: int, ghost us: seq<int>, ghost vs: seq<int>, ghost c: Chain, ghost i: nat)
    returns (d: int, t': int)
    requires i < |us| && IsAddition(c, us, vs) && u == us[i] && v == vs[i] && t == c.carries[i + 1]
    ensures d == c.digits[i] && t' == c.carries[i]
  {
    assert AdditionAt(c, us, vs, i);
    var w := W32(t + u + v);
    d := LHalf(w);
    t' := HHalf(w);
  }

  /** D6: add v[1..n] back to u[k..k + n]. */
  method AddBack(u: array<int>, k: nat, v: array<int>, vb: nat, n: nat)
    requires u != v && k + n < u.Length && vb + n < v.Length
    requires DigitRange(u, k, k + n + 1) && DigitRange(v, vb + 1, vb + n + 1)
    modifies u
    ensures forall x :: 0 <= x < u.Length && (x < k || k + n < x) ==> u[x] == old(u[x])
    ensures DigitRange(u, k, k + n + 1)
    ensures Val(u[k..k + n + 1]) == (Val(old(u[k..k + n + 1])) + Val(v[vb + 1..vb + n + 1])) % Pow(n + 1)
  {
    SliceDigits(u, k, k + n + 1);
    SliceDigits(v, vb + 1, vb + n + 1);
    ghost var sum := AddTo(u, k, v, vb, n, u[k..k + n + 1], v[vb + 1..vb + n + 1]);
    FromSlice(u, k, k + n + 1, sum);
  }

  method AddTo(u: array<int>, k: nat, v: array<int>, vb: nat, n: nat, ghost win: seq<int>, ghost vs: seq<int>)
    returns (ghost sum: seq<int>)
    requires u != v && k + n < u.Length && vb + n < v.Length
    requires win == u[k..k + n + 1] && vs == v[vb + 1..vb + n + 1] && AreDigits(win) && AreDigits(vs)
    modifies u
    ensures forall x :: 0 <= x < u.Length && (x < k || k + n < x) ==> u[x] == old(u[x])
    ensures u[k..k + n + 1] == sum && AreDigits(sum) && Val(sum) == (Val(win) + Val(vs)) % Pow(n + 1)
  {
    ghost var u0, us := u[k], u[k + 1..k + n + 1];
    SliceHead(u, k, k + n + 1);
    DigitsCons(u0, us);
    ghost var c := AddWindow(u, k, v, vb, n, us, vs);
    AddWhole(u0, us, c, Val(vs));
    sum := [LHalf(W32(u0 + c.carries[0]))] + c.digits;
  }

  method AddWindow(u: array<int>, k: nat, v: array<int>, vb: nat, n: nat, ghost us: seq<int>, ghost vs: seq<int>)
    returns (ghost c: Chain)
    requires u != v && k + n < u.Length && vb + n < v.Length
    requires us == u[k + 1..k + n + 1] && vs == v[vb + 1..vb + n + 1] && AreDigits(us) && AreDigits(vs)
    modifies u
    ensures forall x :: 0 <= x < u.Length && (x < k || k + n < x) ==> u[x] == old(u[x])
    ensures |c.digits| == n && |c.carries| > 0 && AreDigits(c.digits) && 0 <= c.carries[0] <= 1
    ensures Val(c.digits) == Val(us) + Val(vs) - c.carries[0] * Pow(n)
    ensures u[k..k + n + 1] == [LHalf(W32(old(u[k]) + c.carries[0]))] + c.digits
  {
    c := AdditionChain(us, vs);
    var t := AddLoop(u, k, v, vb, n, us, vs, c);
    u[k] := LHalf(W32(u[k] + t));
    SliceHead(u, k, k + n + 1);
    assert u[k + 1..k + n + 1] == c.digits;
  }

  /** Adding back on the whole window, the extra leading digit included; its carry is dropped. */
  lemma AddWhole(u0: int, us: seq<int>, c: Chain, v: int)
    requires |c.digits| == |us| && |c.carries| > 0 && IsDigit(u0) && AreDigits(c.digits) && 0 <= c.carries[0] <= 1
    requires Val(c.digits) == Val(us) + v - c.carries[0] * Pow(|us|)
    ensures var r := [LHalf(W32(u0 + c.carries[0]))] + c.digits;
            AreDigits(r) && Val(r) == (Val([u0] + us) + v) % Pow(|us| + 1)
  {
    var t := c.carries[0];
    var d', t' := HalfSum(t, u0, 0);
    var r := [d'] + c.digits;
    DigitsCons(u0, us);
    DigitsCons(d', c.digits);
    ValBound(r);
    CarryStep(d', u0, t, t', Pow(|us|), Val(c.digits), Val(us), v);
  }

  lemma CarryStep(d': int, d: int, t: int, t': int, p: int, new': int, old': int, v: int)
    requires d' == d + t - t' * 0x1_0000 && new' == old' + v - t * p && 0 <= d' * p + new' < 0x1_0000 * p
    ensures d' * p + new' == (d * p + old' + v) % (0x1_0000 * p)
  {
    AddStep(d', d, t, t', 0, p);
    DivModUnique(d * p + old' + v, 0x1_0000 * p, t', d' * p + new');
  }

  /** One round of D3 to D6: the true quotient digit, and the true remainder left in u[k + 1..k + n]. */
  method DivideDigit(u: array<int>, k: nat, v: array<int>, vb: nat, n: nat) returns (qhat: int)
    requires u != v && 2 <= n && k + n < u.Length && vb + n < v.Length
    requires DigitRange(u, k, k + n + 1) && DigitRange(v, vb + 1, vb + n + 1) && v[vb + 1] >= 0x8000
    requires Val(u[k..k + n]) < Val(v[vb + 1..vb + n + 1])
    modifies u
    ensures forall x :: 0 <= x < u.Length && (x < k || k + n < x) ==> u[x] == old(u[x])
    ensures DigitRange(u, k, k + n + 1) && u[k] == 0 && IsDigit(qhat)
    ensures 0 < Val(v[vb + 1..vb + n + 1])
    ensures var x := Val(old(u[k..k + n])) * 0x1_0000 + old(u[k + n]);
            var divisor := Val(v[vb + 1..vb + n + 1]);
            qhat == x / divisor && Val(u[k + 1..k + n + 1]) == x % divisor
  {
    ghost var win, vs := u[k..k + n + 1], v[vb + 1..vb + n + 1];
    SliceDigits(u, k, k + n + 1);
    SliceDigits(v, vb + 1, vb + n + 1);
    WindowReady(win, vs, u[k..k + n]);
    qhat := EstimateDigit(u[k], u[k + 1], u[k + 2], v[vb + 1], v[vb + 2]);
    EstimateWindow(win, vs, qhat);
    qhat := ReduceWindow(u, k, v, vb, n, qhat, win, vs);
    SliceDigits(u, k, k + n + 1);
    WindowDone(win, vs, u[k..k + n + 1]);
    SliceHead(u, k, k + n + 1);
  }

  /** D4 to D6: the estimate corrected if it was one too large. */
  method ReduceWindow(u: array<int>, k: nat, v: array<int>, vb: nat, n: nat, estimate: int, ghost win: seq<int>, ghost vs: seq<int>)
    returns (qhat: int)
    requires u != v && 2 <= n && k + n < u.Length && vb + n < v.Length
    requires DigitRange(u, k, k + n + 1) && DigitRange(v, vb + 1, vb + n + 1) && IsDigit(estimate)
    requires win == u[k..k + n + 1] && vs == v[vb + 1..vb + n + 1] && 0 < Val(vs) && 0 <= Val(win)
    requires Val(win) / Val(vs) == estimate || Val(win) / Val(vs) == estimate - 1
    modifies u
    ensures forall x :: 0 <= x < u.Length && (x < k || k + n < x) ==> u[x] == old(u[x])
    ensures DigitRange(u, k, k + n + 1)
    ensures qhat == Val(win) / Val(vs) && Val(u[k..k + n + 1]) == Val(win) % Val(vs)
  {
    qhat := estimate;
    SliceDigits(u, k, k + n + 1);
    SliceDigits(v, vb + 1, vb + n + 1);
    var high := MulSub(u, k, v, vb, n, qhat);
    SliceDigits(u, k, k + n + 1);
    WindowSubtracted(win, vs, qhat, high != 0, u[k..k + n + 1]);
    if high != 0 {
      qhat := qhat - 1;
      AddBack(u, k, v, vb, n);
    }
  }

  lemma WindowReady(win: seq<int>, vs: seq<int>, top: seq<int>)
    requires |win| == |vs| + 1 && |vs| >= 2 && AreDigits(win) && AreDigits(vs)
    requires top == win[..|vs|] && Val(top) < Val(vs)
    ensures Val(win) == Val(top) * 0x1_0000 + win[|vs|] && 0 <= Val(win) < 0x1_0000 * Val(vs)
    ensures win[0] <= vs[0]
    ensures IsDigit(win[0]) && IsDigit(win[1]) && IsDigit(win[2]) && IsDigit(vs[0]) && IsDigit(vs[1])
  {
    assert win == top + [win[|vs|]];
    ValAppend(top, win[|vs|]);
    LeadDigitBound(top, vs);
    ValBound(win);
    assert IsDigit(win[|vs|]);
  }

  lemma WindowSubtracted(win: seq<int>, vs: seq<int>, qhat: int, borrow: bool, new': seq<int>)
    requires |win| == |new'| == |vs| + 1 && AreDigits(new') && AreDigits(vs) && AreDigits(win) && 0 < Val(vs)
    requires Val(win) / Val(vs) == qhat || Val(win) / Val(vs) == qhat - 1
    requires Val(new') == Val(win) - qhat * Val(vs) + (if borrow then Pow(|vs| + 1) else 0)
    ensures borrow <==> Val(win) / Val(vs) == qhat - 1
    ensures !borrow ==> Val(new') == Val(win) % Val(vs)
    ensures borrow ==> (Val(new') + Val(vs)) % Pow(|vs| + 1) == Val(win) % Val(vs)
  {
    ValBound(new');
    ValBound(vs);
    ValBound(win);
    SubtractOutcome(Val(win), Val(vs), qhat, borrow, Val(new'), Pow(|vs| + 1));
  }

  lemma WindowDone(win: seq<int>, vs: seq<int>, new': seq<int>)
    requires |win| == |new'| == |vs| + 1 && AreDigits(new') && AreDigits(vs) && 0 < Val(vs)
    requires Val(new') == Val(win) % Val(vs)
    ensures new'[0] == 0 && Val(new'[1..]) == Val(win) % Val(vs)
  {
    ValBound(vs);
    ZeroLead(new', Val(vs));
  }

  /** What holds before round `j` of the main loop. */
  ghost predicate RoundReady(u: array<int>, ub: nat, v: array<int>, vb: nat, q: array<int>, qb: nat, m: nat, n: nat,
                             j: nat, vs: seq<int>, ds: seq<int>, all: Division)
    reads u, v, q
  {
    && u != v && u != q && v != q
    && 2 <= n && ub + m + n < u.Length && vb + n < v.Length && qb + m < q.Length
    && j <= m + 1 && |ds| == m + 1
    && v[vb + 1..vb + n + 1] == vs && AreDigits(vs) && vs[0] >= 0x8000 && 0 < Val(vs)
    && (forall x :: 0 <= x < ub + j ==> u[x] == 0)
    && (forall x :: 0 <= x < qb ==> q[x] == 0)
    && DigitRange(u, ub, ub + m + n + 1)
    && (forall x :: j <= x <= m ==> u[ub + n + x] == ds[x])
    && Val(u[ub + j..ub + j + n]) < Val(vs)
    && Remaining(q[qb..qb + j], Val(u[ub + j..ub + j + n]), ds, j, Val(vs), all)
  }

  /** D2 to D7: the quotient digits of schoolbook long division, the remainder left in place. */
  method DivideDigits(u: array<int>, ub: nat, v: array<int>, vb: nat, q: array<int>, qb: nat, m: nat, n: nat,
                      ghost vs: seq<int>, ghost ds: seq<int>, ghost all: Division)
    requires RoundReady(u, ub, v, vb, q, qb, m, n, 0, vs, ds, all)
    modifies u, q
    ensures RoundReady(u, ub, v, vb, q, qb, m, n, m + 1, vs, ds, all)
  {
    var j := 0;
    while j <= m
      invariant j <= m + 1 && RoundReady(u, ub, v, vb, q, qb, m, n, j, vs, ds, all)
    {
      DivideRound(u, ub, v, vb, q, qb, m, n, j, vs, ds, all);
      j := j + 1;
    }
  }

  /** The digits found so far, followed by those still to come, are the whole long division. */
  ghost predicate Remaining(qs: seq<int>, r: int, ds: seq<int>, j: nat, w: int, all: Division)
    requires w > 0 && j <= |ds|
  {
    var c := LongDiv(r, ds[j..], w);
    qs + c.digits == all.digits && c.rem == all.rem
  }

  lemma FirstRemaining(r: int, ds: seq<int>, w: int)
    requires w > 0
    ensures Remaining([], r, ds, 0, w, LongDiv(r, ds, w))
  {
    assert ds[0..] == ds;
  }

  lemma LastRemaining(qs: seq<int>, r: int, ds: seq<int>, w: int, all: Division)
    requires w > 0 && Remaining(qs, r, ds, |ds|, w, all)
    ensures qs == all.digits && r == all.rem
  {
    assert ds[|ds|..] == [];
  }

  lemma RemainingStep(qs: seq<int>, r: int, ds: seq<int>, j: nat, w: int, all: Division)
    requires w > 0 && j < |ds| && Remaining(qs, r, ds, j, w, all)
    ensures var x := r * 0x1_0000 + ds[j];
            Remaining(qs + [x / w], x % w, ds, j + 1, w, all)
  {
    assert ds[j..][1..] == ds[j + 1..];
    LongDivCons(r, ds[j..], w);
    var x := r * 0x1_0000 + ds[j];
    var rest := LongDiv(x % w, ds[j + 1..], w);
    assert qs + ([x / w] + rest.digits) == (qs + [x / w]) + rest.digits;
  }

  /** The body of the main loop. */
  method DivideRound(u: array<int>, ub: nat, v: array<int>, vb: nat, q: array<int>, qb: nat, m: nat, n: nat, j: nat,
                     ghost vs: seq<int>, ghost ds: seq<int>, ghost all: Division)
    requires j <= m && RoundReady(u, ub, v, vb, q, qb, m, n, j, vs, ds, all)
    modifies u, q
    ensures RoundReady(u, ub, v, vb, q, qb, m, n, j + 1, vs, ds, all)
  {
    ghost var r, qs := Val(u[ub + j..ub + j + n]), q[qb..qb + j];
    RemainingStep(qs, r, ds, j, Val(vs), all);
    FromSlice(v, vb + 1, vb + n + 1, vs);
    assert u[ub + n + j] == ds[j];
    var qhat := DivideDigit(u, ub + j, v, vb, n);
    q[qb + j] := qhat;
    assert q[qb..qb + j + 1] == qs + [qhat];
    SliceIs(v, vb + 1, vb + n + 1, vs);
    NextRound(u, ub, v, vb, q, qb, m, n, j, vs, ds, all);
  }

  lemma NextRound(u: array<int>, ub: nat, v: array<int>, vb: nat, q: array<int>, qb: nat, m: nat, n: nat, j: nat,
                  vs: seq<int>, ds: seq<int>, all: Division)
    requires u != v && u != q && v != q && 2 <= n && ub + m + n < u.Length && vb + n < v.Length && qb + m < q.Length
    requires j <= m && |ds| == m + 1 && v[vb + 1..vb + n + 1] == vs && AreDigits(vs) && vs[0] >= 0x8000 && 0 < Val(vs)
    requires (forall x :: 0 <= x <= ub + j ==> u[x] == 0) && (forall x :: 0 <= x < qb ==> q[x] == 0)
    requires DigitRange(u, ub, ub + m + n + 1) && forall x :: j + 1 <= x <= m ==> u[ub + n + x] == ds[x]
    requires var r := Val(u[ub + j + 1..ub + j + n + 1]);
      r < Val(vs) && Remaining(q[qb..qb + j + 1], r, ds, j + 1, Val(vs), all)
    ensures RoundReady(u, ub, v, vb, q, qb, m, n, j + 1, vs, ds, all)
  {
    assert ub + (j + 1) + n == ub + j + n + 1;
  }

  lemma FromSlice(a: array<int>, lo: nat, hi: nat, s: seq<int>)
    requires lo < hi <= a.Length && a[lo..hi] == s && AreDigits(s)
    ensures DigitRange(a, lo, hi) && a[lo] == s[0]
  {
    forall i | lo <= i < hi ensures IsDigit(a[i]) { assert a[i] == s[i - lo]; }
  }

  /** Shift the remainder digits u[m + 1..m + n] right by `d`, from the last one down. */
  method ShiftBack(u: array<int>, ub: nat, m: nat, n: nat, d: nat)
    requires 0 < d < 16 && ub + m + n < u.Length && DigitRange(u, ub + m, ub + m + n + 1)
    modifies u
    ensures forall x :: 0 <= x < u.Length && (x < ub + m || ub + m + n < x) ==> u[x] == old(u[x])
    ensures u[ub + m] == 0
    ensures u[ub + m + 1..ub + m + n + 1] == ShiftRight(old(u[ub + m]), old(u[ub + m + 1..ub + m + n + 1]), d)
  {
    ghost var before, s := u[ub + m], u[ub + m + 1..ub + m + n + 1];
    ghost var r := ShiftRight(before, s, d);
    var i := m + n;
    while i > m
      invariant m <= i <= m + n
      invariant forall x :: 0 <= x < u.Length && (x <= ub + i || ub + m + n < x) ==> u[x] == old(u[x])
      invariant forall x :: ub + i < x <= ub + m + n ==> u[x] == r[x - ub - m - 1]
    {
      u[ub + i] := ShiftBackDigit(u[ub + i], u[ub + i - 1], d, before, s, i - m - 1);
      i := i - 1;
    }
    u[ub + i] := 0;
  }

  method ShiftBackDigit(x: int, y: int, d: nat, ghost before: int, ghost s: seq<int>, ghost i: nat) returns (r: int)
    requires 0 < d < 16 && IsDigit(before) && AreDigits(s) && i < |s|
    requires x == s[i] && y == if i == 0 then before else s[i - 1]
    ensures r == ShiftRight(before, s, d)[i]
  {
    ShiftRightAt(before, s, d, i);
    r := Or(HighBits(x, 16 - d), LowBits(y, 16 - d));
  }

  /** The four half words of a 64-bit number, most significant first. */
  method SplitQuad(a: array<int>, x: nat)
    requires a.Length == 5 && x < 0x1_0000_0000_0000_0000
    modifies a
    ensures a[0] == old(a[0]) && DigitRange(a, 1, 5) && Val(a[1..5]) == x
  {
    var high, low := x / 0x1_0000_0000, x % 0x1_0000_0000;
    a[1] := HHalf(high);
    a[2] := LHalf(high);
    a[3] := HHalf(low);
    a[4] := LHalf(low);
    assert a[1..5] == [a[1], a[2], a[3], a[4]];
    ValFour(a[1], a[2], a[3], a[4]);
  }

  method JoinQuad(a: int, b: int, c: int, d: int) returns (x: nat)
    requires IsDigit(a) && IsDigit(b) && IsDigit(c) && IsDigit(d)
    ensures x == Val([a, b, c, d])
  {
    var high := JoinHalves(a, b);
    var low := JoinHalves(c, d);
    ValFour(a, b, c, d);
    x := high * 0x1_0000_0000 + low;
  }

  /** Exercise 16: division by a single digit, one dividend digit at a time. */
  method DivideByDigit(u: array<int>, t: int) returns (quotient: nat, remainder: nat)
    requires u.Length == 5 && DigitRange(u, 1, 5) && IsDigit(t) && t > 0
    ensures quotient == Val(u[1..5]) / t && remainder == Val(u[1..5]) % t
  {
    ghost var ds := u[1..5];
    var q1, q2, q3, q4, r1, r2, r3, r4: int;
    q1, r1 := DigitStep(0, u[1], t, ds);
    q2, r2 := DigitStep(r1, u[2], t, ds[1..]);
    q3, r3 := DigitStep(r2, u[3], t, ds[2..]);
    q4, r4 := DigitStep(r3, u[4], t, ds[3..]);
    remainder := r4;
    quotient := JoinQuad(q1, q2, q3, q4);
    assert ds[1..][1..] == ds[2..] && ds[2..][1..] == ds[3..] && ds[3..][1..] == [];
    assert LongDiv(0, ds, t) == Division([q1, q2, q3, q4], r4);
    LongDivValue(0, ds, t);
    MulZero(0, Pow(|ds|));
    DivModUnique(Val(ds), t, quotient, remainder);
  }

  method DigitStep(r: int, d: int, t: int, ghost ds: seq<int>) returns (q: nat, r': nat)
    requires IsDigit(d) && IsDigit(t) && 0 <= r < t && |ds| > 0 && ds[0] == d
    ensures 0 <= r' < t && IsDigit(q)
    ensures LongDiv(r, ds, t) == Division([q] + LongDiv(r', ds[1..], t).digits, LongDiv(r', ds[1..], t).rem)
  {
    var rbj := JoinHalves(r, d);
    QuotientDigit(rbj, t);
    LongDivCons(r, ds, t);
    q := rbj / t;
    r' := rbj % t;
  }

  /** D1: how far to shift the leading divisor digit so that it is at least half the base. */
  method NormalisingShift(v1: int) returns (d: nat)
    requires 0 < v1 < 0x1_0000
    ensures d < 16 && 0x8000 <= v1 * Pow2(d) < 0x1_0000
  {
    d := 0;
    var t := v1;
    while t < 0x8000
      invariant 0 < t < 0x1_0000 && t == v1 * Pow2(d)
      decreases 0x8000 - t
    {
      DoubleShift(v1, d);
      t := W32(t * 2);
      d := d + 1;
    }
    ShiftStaysSmall(v1, d);
  }

  lemma DoubleShift(x: int, d: nat)
    ensures x * Pow2(d + 1) == 2 * (x * Pow2(d))
  {
    Assoc(2, x, Pow2(d));
  }

  lemma ShiftStaysSmall(x: int, d: nat)
    requires 0 < x && x * Pow2(d) < 0x1_0000
    ensures d < 16
  {
    MulLe(1, x, Pow2(d));
    if d >= 16 { Pow2Sixteen(); Pow2Monotone(16, d); }
  }

  /** The whole routine: quotient and, when asked for, remainder of two unsigned 64-bit numbers. */
  method QDivRem(uq: nat, vq: nat, wantRemainder: bool) returns (r: DivResult)
    requires uq < 0x1_0000_0000_0000_0000 && vq < 0x1_0000_0000_0000_0000
    ensures vq == 0 ==> r == DivideByZero
    ensures vq > 0 ==> r == Divided(uq / vq, if wantRemainder then Some(uq % vq) else None)
  {
    if vq == 0 {
      return DivideByZero;
    }
    if uq < vq {
      DivModUnique(uq, vq, 0, uq);
      return Divided(0, if wantRemainder then Some(uq) else None);
    }
    var u, v := new int[5], new int[5];
    u[0] := 0;
    SplitQuad(u, uq);
    SplitQuad(v, vq);
    var n, vb := 4, 0;
    while v[vb + 1] == 0
      invariant 2 <= n <= 4 && vb == 4 - n
      invariant forall i :: 1 <= i <= vb ==> v[i] == 0
      decreases n
    {
      n := n - 1;
      if n == 1 {
        OnlyLastDigit(v[1..5], vq);
        var quotient, remainder := DivideByDigit(u, v[vb + 2]);
        return Divided(quotient, if wantRemainder then Some(remainder) else None);
      }
      vb := vb + 1;
    }
    r := DivideLong(u, v, n, wantRemainder, uq, vq);
  }

  lemma OnlyLastDigit(s: seq<int>, x: int)
    requires |s| == 4 && s[0] == s[1] == s[2] == 0 && Val(s) == x
    ensures s[3] == x
  {
    assert s == [s[0], s[1], s[2], s[3]];
    ValFour(s[0], s[1], s[2], s[3]);
  }

  /** Skip the dividend's leading zeros; the dividend has at least as many digits as the divisor. */
  method SkipZeros(u: array<int>, n: nat, ghost uq: int, ghost vq: int) returns (ub: nat, m: nat)
    requires u.Length == 5 && u[0] == 0 && DigitRange(u, 0, 5) && Val(u[1..5]) == uq
    requires 2 <= n <= 4 && Pow(n - 1) <= vq <= uq
    ensures ub + m + n == 4 && forall x :: 0 <= x <= ub ==> u[x] == 0
    ensures Val(u[ub + 1..5]) == uq && uq < Pow(m + n)
  {
    ub, m := 0, 4 - n;
    DigitsLeft(u[1..5], 0, n, uq, vq);
    while u[ub + 1] == 0
      invariant ub + m + n == 4 && m >= 0 && forall x :: 0 <= x <= ub ==> u[x] == 0
      decreases m
    {
      ZerosInSlice(u, ub + 1);
      DigitsLeft(u[1..5], ub + 1, n, uq, vq);
      ub, m := ub + 1, m - 1;
    }
    ZerosInSlice(u, ub);
    DigitsLeft(u[1..5], ub, n, uq, vq);
    assert u[1..5][ub..] == u[ub + 1..5];
  }

  lemma ZerosInSlice(u: array<int>, k: nat)
    requires u.Length == 5 && k <= 4 && forall x :: 0 <= x <= k ==> u[x] == 0
    ensures |u[1..5]| == 4 && forall i :: 0 <= i < k ==> u[1..5][i] == 0
  {
    forall i | 0 <= i < k ensures u[1..5][i] == 0 {
      assert u[1..5][i] == u[i + 1];
    }
  }

  lemma DigitsLeft(s: seq<int>, k: nat, n: nat, uq: int, vq: int)
    requires |s| == 4 && AreDigits(s) && k <= 4 && Val(s) == uq && 2 <= n && Pow(n - 1) <= vq <= uq
    requires forall i :: 0 <= i < k ==> s[i] == 0
    ensures Val(s[k..]) == uq && uq < Pow(4 - k) && k + n <= 4
  {
    ValSkipZeros(s, k);
    DigitsSlice(s, k);
    ValBound(s[k..]);
    if k + n > 4 { PowMonotone(4 - k, n - 1); }
  }

  lemma DivisorDigits(s: seq<int>, vb: nat)
    requires |s| == 4 && AreDigits(s) && vb < 4 && s[vb] > 0 && forall i :: 0 <= i < vb ==> s[i] == 0
    ensures Val(s[vb..]) == Val(s) && Pow(3 - vb) <= Val(s)
  {
    ValSkipZeros(s, vb);
    DigitsSlice(s, vb);
    ValAtLeast(s[vb..]);
  }

  /** D1: shift dividend and divisor so that the divisor's leading digit is at least half the base. */
  method Normalise(u: array<int>, ub: nat, v: array<int>, m: nat, n: nat, d: nat, ghost uq: int, ghost vq: int)
    requires u != v && u.Length == v.Length == 5 && 2 <= n && ub + m + n == 4 && d < 16
    requires DigitRange(u, 0, 5) && (forall x :: 0 <= x <= ub ==> u[x] == 0)
    requires Val(u[ub + 1..5]) == uq && uq < Pow(m + n)
    requires DigitRange(v, 1, 5) && Val(v[5 - n..5]) == vq && Pow(n - 1) <= vq
    requires 0x8000 <= v[5 - n] * Pow2(d) < 0x1_0000
    modifies u, v
    ensures DigitRange(u, 0, 5) && (forall x :: 0 <= x < ub ==> u[x] == 0) && Val(u[ub..5]) == uq * Pow2(d)
    ensures DigitRange(v, 5 - n, 5) && Val(v[5 - n..5]) == vq * Pow2(d) && v[5 - n] >= 0x8000
    ensures Val(u[ub..ub + n]) < vq * Pow2(d)
  {
    ghost var us, vs := u[ub..5], v[5 - n..5];
    SliceHead(u, ub, 5);
    LeadingZero(us, us[1..]);
    SliceDigits(u, ub, 5);
    SliceDigits(v, 5 - n, 5);
    SliceHead(v, 5 - n, 5);
    ghost var us', vs' := NormaliseSlices(u, ub, v, m, n, d, us, vs);
    FromSlice(u, ub, 5, us');
    FromSlice(v, 5 - n, 5, vs');
    assert us'[..n] == u[ub..ub + n];
  }

  method NormaliseSlices(u: array<int>, ub: nat, v: array<int>, m: nat, n: nat, d: nat, ghost us: seq<int>, ghost vs: seq<int>)
    returns (ghost us': seq<int>, ghost vs': seq<int>)
    requires u != v && u.Length == v.Length == 5 && 2 <= n && ub + m + n == 4 && d < 16
    requires us == u[ub..5] && vs == v[5 - n..5] && AreDigits(us) && AreDigits(vs)
    requires us[0] == 0 && Val(us) < Pow(m + n) && Pow(n - 1) <= Val(vs) && 0x8000 <= vs[0] * Pow2(d) < 0x1_0000
    modifies u, v
    ensures forall x :: 0 <= x < ub ==> u[x] == old(u[x])
    ensures us' == u[ub..5] && vs' == v[5 - n..5] && AreDigits(us') && AreDigits(vs')
    ensures Val(us') == Val(us) * Pow2(d) && Val(vs') == Val(vs) * Pow2(d) && vs'[0] >= 0x8000
    ensures Val(us'[..n]) < Val(vs) * Pow2(d)
  {
    ShiftOperands(u, ub, v, m, n, d);
    us', vs' := u[ub..5], v[5 - n..5];
    Normalised(us, vs, m, n, d, Val(us), Val(vs));
  }

  ghost function Shifted(s: seq<int>, d: nat): (r: seq<int>)
    requires d < 16 && AreDigits(s)
    ensures |r| == |s|
  {
    if d > 0 then ShiftLeft(s, d) else s
  }

  method ShiftOperands(u: array<int>, ub: nat, v: array<int>, m: nat, n: nat, d: nat)
    requires u != v && u.Length == v.Length == 5 && 2 <= n && ub + m + n == 4 && d < 16
    requires AreDigits(u[ub..5]) && AreDigits(v[5 - n..5])
    modifies u, v
    ensures forall x :: 0 <= x < ub ==> u[x] == old(u[x])
    ensures u[ub..5] == Shifted(old(u[ub..5]), d) && v[5 - n..5] == Shifted(old(v[5 - n..5]), d)
  {
    if d > 0 {
      FromSlice(u, ub, 5, u[ub..5]);
      FromSlice(v, 5 - n, 5, v[5 - n..5]);
      assert ub + (m + n) + 1 == 5 && 5 - n + (n - 1) + 1 == 5;
      Shl(u, ub, m + n, d);
      Shl(v, 5 - n, n - 1, d);
    }
  }

  lemma Normalised(us: seq<int>, vs: seq<int>, m: nat, n: nat, d: nat, uq: int, vq: int)
    requires |us| == m + n + 1 && |vs| == n && 2 <= n && d < 16 && AreDigits(us) && AreDigits(vs)
    requires us[0] == 0 && Val(us) == uq && uq < Pow(m + n)
    requires Val(vs) == vq && Pow(n - 1) <= vq && 0x8000 <= vs[0] * Pow2(d) < 0x1_0000
    ensures AreDigits(Shifted(us, d)) && Val(Shifted(us, d)) == uq * Pow2(d)
    ensures AreDigits(Shifted(vs, d)) && Val(Shifted(vs, d)) == vq * Pow2(d) && Shifted(vs, d)[0] >= 0x8000
    ensures Val(Shifted(us, d)[..n]) < vq * Pow2(d)
  {
    if d > 0 { ShiftBoth(us, vs, d); } else { assert Pow2(0) == 1; }
    TopBelowDivisor(Shifted(us, d), n, m, uq, vq, Pow2(d));
  }

  lemma LeadingZero(s: seq<int>, t: seq<int>)
    requires |s| > 0 && s[0] == 0 && t == s[1..]
    ensures Val(s) == Val(t)
  {
    ValHead(s);
    MulZero(s[0], Pow(|s| - 1));
  }

  lemma ShiftBoth(us: seq<int>, vs: seq<int>, d: nat)
    requires 0 < d < 16 && AreDigits(us) && AreDigits(vs) && |us| > 0 && |vs| > 1
    requires us[0] == 0 && 0x8000 <= vs[0] * Pow2(d) < 0x1_0000
    ensures AreDigits(ShiftLeft(us, d)) && Val(ShiftLeft(us, d)) == Val(us) * Pow2(d)
    ensures AreDigits(ShiftLeft(vs, d)) && Val(ShiftLeft(vs, d)) == Val(vs) * Pow2(d)
    ensures ShiftLeft(vs, d)[0] >= 0x8000
  {
    MulZero(us[0], Pow2(d));
    assert IsDigit(us[0]) && IsDigit(vs[0]);
    ShiftLeftExact(us, d);
    ShiftLeftExact(vs, d);
    ShiftLeftLead(vs, d);
  }

  method ClearLead(q: array<int>, k: nat)
    requires k <= q.Length
    modifies q
    ensures forall x :: 0 <= x < k ==> q[x] == 0
  {
    var i := k;
    while i > 0
      invariant 0 <= i <= k && forall x :: i <= x < k ==> q[x] == 0
    {
      i := i - 1;
      q[i] := 0;
    }
  }

  /** The multi-digit path, from the leading-zero count of the dividend to the joined results. */
  method DivideLong(u: array<int>, v: array<int>, n: nat, wantRemainder: bool, ghost uq: nat, ghost vq: nat)
    returns (r: DivResult)
    requires u != v && u.Length == v.Length == 5 && 2 <= n <= 4
    requires u[0] == 0 && DigitRange(u, 1, 5) && Val(u[1..5]) == uq
    requires DigitRange(v, 1, 5) && Val(v[1..5]) == vq && 0 < vq <= uq
    requires v[5 - n] > 0 && forall i :: 1 <= i < 5 - n ==> v[i] == 0
    modifies u, v
    ensures r == Divided(uq / vq, if wantRemainder then Some(uq % vq) else None)
  {
    DivisorAt(v, n);
    var ub, m := SkipZeros(u, n, uq, vq);
    var q := new int[5];
    ClearLead(q, 4 - m);
    var d := NormalisingShift(v[5 - n]);
    Normalise(u, ub, v, m, n, d, uq, vq);
    r := DivideNormalised(u, ub, v, q, m, n, d, wantRemainder, uq, vq);
  }

  lemma DivisorAt(v: array<int>, n: nat)
    requires v.Length == 5 && 2 <= n <= 4 && DigitRange(v, 1, 5) && v[5 - n] > 0 && forall i :: 1 <= i < 5 - n ==> v[i] == 0
    ensures Val(v[5 - n..5]) == Val(v[1..5]) && Pow(n - 1) <= Val(v[1..5])
  {
    SliceDigits(v, 1, 5);
    assert v[1..5][4 - n] == v[5 - n];
    forall i | 0 <= i < 4 - n ensures v[1..5][i] == 0 { assert v[1..5][i] == v[i + 1]; }
    DivisorDigits(v[1..5], 4 - n);
    assert v[1..5][4 - n..] == v[5 - n..5];
  }

  /** D2 to the end, on normalised operands. */
  method DivideNormalised(u: array<int>, ub: nat, v: array<int>, q: array<int>, m: nat, n: nat, d: nat, wantRemainder: bool,
                          ghost uq: nat, ghost vq: nat) returns (r: DivResult)
    requires u != v && u != q && v != q && u.Length == v.Length == q.Length == 5 && 2 <= n && ub + m + n == 4
    requires d < 16 && vq > 0 && DigitRange(u, 0, 5) && DigitRange(v, 5 - n, 5) && v[5 - n] >= 0x8000
    requires Val(u[ub..5]) == uq * Pow2(d) && Val(v[5 - n..5]) == vq * Pow2(d) && Val(u[ub..ub + n]) < vq * Pow2(d)
    requires (forall x :: 0 <= x < ub ==> u[x] == 0) && forall x :: 0 <= x < 4 - m ==> q[x] == 0
    modifies u, q
    ensures r == Divided(uq / vq, if wantRemainder then Some(uq % vq) else None)
  {
    MulLe(1, vq, Pow2(d));
    RunProgramD(u, ub, v, q, m, n, vq * Pow2(d));
    r := Collect(u, ub, q, m, n, d, wantRemainder, uq, vq);
  }

  /** The main loop on the five-digit arrays: quotient digits end up in q[4 - m..4]. */
  method RunProgramD(u: array<int>, ub: nat, v: array<int>, q: array<int>, m: nat, n: nat, ghost w: int)
    requires u != v && u != q && v != q && u.Length == v.Length == q.Length == 5 && 2 <= n && ub + m + n == 4
    requires DigitRange(u, 0, 5) && DigitRange(v, 5 - n, 5) && v[5 - n] >= 0x8000
    requires 0 < w && Val(v[5 - n..5]) == w && Val(u[ub..ub + n]) < w
    requires forall x :: 0 <= x < ub ==> u[x] == 0
    requires forall x :: 0 <= x < 4 - m ==> q[x] == 0
    modifies u, q
    ensures DigitRange(u, 0, 5) && forall x :: 0 <= x <= ub + m ==> u[x] == 0
    ensures AreDigits(q[4 - m..5]) && forall x :: 0 <= x < 4 - m ==> q[x] == 0
    ensures 0 <= Val(u[ub + m + 1..5]) < w
    ensures Val(q[4 - m..5]) * w + Val(u[ub + m + 1..5]) == Val(old(u[ub..5]))
  {
    ghost var vs, ds, all := DivisionPlan(u, ub, v, q, m, n, w);
    DivideDigits(u, ub, v, 4 - n, q, 4 - m, m, n, vs, ds, all);
    LastRound(u, ub, v, q, m, n, vs, ds, all);
  }

  /** The long division that the main loop is to carry out. */
  lemma DivisionPlan(u: array<int>, ub: nat, v: array<int>, q: array<int>, m: nat, n: nat, w: int)
    returns (vs: seq<int>, ds: seq<int>, all: Division)
    requires u != v && u != q && v != q && u.Length == v.Length == q.Length == 5 && 2 <= n && ub + m + n == 4
    requires DigitRange(u, 0, 5) && DigitRange(v, 5 - n, 5) && v[5 - n] >= 0x8000
    requires 0 < w && Val(v[5 - n..5]) == w && Val(u[ub..ub + n]) < w
    requires (forall x :: 0 <= x < ub ==> u[x] == 0) && forall x :: 0 <= x < 4 - m ==> q[x] == 0
    ensures RoundReady(u, ub, v, 4 - n, q, 4 - m, m, n, 0, vs, ds, all)
    ensures AreDigits(all.digits) && 0 <= all.rem < w && Val(all.digits) * w + all.rem == Val(u[ub..5])
  {
    var us := u[ub..5];
    vs, ds := v[5 - n..5], us[n..];
    assert us[..n] == u[ub..ub + n] && ds == u[ub + n..5];
    WholeDivision(us, n, w);
    all := LongDiv(Val(us[..n]), ds, w);
    FirstRound(u, ub, v, q, m, n, vs, ds, all);
  }

  lemma LastRound(u: array<int>, ub: nat, v: array<int>, q: array<int>, m: nat, n: nat,
                  vs: seq<int>, ds: seq<int>, all: Division)
    requires u.Length == v.Length == q.Length == 5 && 2 <= n && ub + m + n == 4
    requires RoundReady(u, ub, v, 4 - n, q, 4 - m, m, n, m + 1, vs, ds, all) && AreDigits(all.digits)
    ensures DigitRange(u, 0, 5) && forall x :: 0 <= x <= ub + m ==> u[x] == 0
    ensures AreDigits(q[4 - m..5]) && forall x :: 0 <= x < 4 - m ==> q[x] == 0
    ensures q[4 - m..5] == all.digits && Val(u[ub + m + 1..5]) == all.rem
  {
    LastRemaining(q[4 - m..5], Val(u[ub + m + 1..5]), ds, Val(vs), all);
  }

  lemma FirstRound(u: array<int>, ub: nat, v: array<int>, q: array<int>, m: nat, n: nat,
                   vs: seq<int>, ds: seq<int>, all: Division)
    requires u != v && u != q && v != q && u.Length == v.Length == q.Length == 5 && 2 <= n && ub + m + n == 4
    requires DigitRange(u, 0, 5) && DigitRange(v, 5 - n, 5) && v[5 - n] >= 0x8000
    requires vs == v[5 - n..5] && ds == u[ub + n..5] && 0 < Val(vs) && Val(u[ub..ub + n]) < Val(vs)
    requires (forall x :: 0 <= x < ub ==> u[x] == 0) && (forall x :: 0 <= x < 4 - m ==> q[x] == 0)
    requires all == LongDiv(Val(u[ub..ub + n]), ds, Val(vs))
    ensures RoundReady(u, ub, v, 4 - n, q, 4 - m, m, n, 0, vs, ds, all)
  {
    FirstRemaining(Val(u[ub..ub + n]), ds, Val(vs));
    assert q[4 - m..4 - m] == [];
    assert 4 - n + 1 == 5 - n;
  }

  lemma WholeDivision(us: seq<int>, n: nat, w: int)
    requires AreDigits(us) && n <= |us| && w > 0 && Val(us[..n]) < w
    ensures var c := LongDiv(Val(us[..n]), us[n..], w);
            AreDigits(c.digits) && 0 <= c.rem < w && Val(c.digits) * w + c.rem == Val(us)
  {
    DigitsSlice(us, n);
    ValBound(us[..n]);
    LongDivValue(Val(us[..n]), us[n..], w);
    assert us == us[..n] + us[n..];
    ValConcat(us[..n], us[n..]);
  }

  /** De-normalise the remainder and join the digits of both results. */
  method Collect(u: array<int>, ub: nat, q: array<int>, m: nat, n: nat, d: nat, wantRemainder: bool,
                 ghost uq: nat, ghost vq: nat) returns (r: DivResult)
    requires u != q && u.Length == q.Length == 5 && 2 <= n && ub + m + n == 4 && d < 16 && vq > 0
    requires DigitRange(u, 0, 5) && forall x :: 0 <= x <= ub + m ==> u[x] == 0
    requires AreDigits(q[4 - m..5]) && forall x :: 0 <= x < 4 - m ==> q[x] == 0
    requires 0 <= Val(u[ub + m + 1..5]) < vq * Pow2(d)
    requires Val(q[4 - m..5]) * (vq * Pow2(d)) + Val(u[ub + m + 1..5]) == uq * Pow2(d)
    modifies u
    ensures r == Divided(uq / vq, if wantRemainder then Some(uq % vq) else None)
  {
    Denormalised(uq, vq, Pow2(d), Val(q[4 - m..5]), Val(u[ub + m + 1..5]));
    var rem: Option<nat> := None;
    if wantRemainder {
      var x := CollectRemainder(u, ub, m, n, d);
      rem := Some(x);
    }
    PaddedDigits(q[1..5], 3 - m, q[4 - m..5]);
    var quotient := JoinQuad(q[1], q[2], q[3], q[4]);
    assert q[1..5] == [q[1], q[2], q[3], q[4]];
    r := Divided(quotient, rem);
  }

  method CollectRemainder(u: array<int>, ub: nat, m: nat, n: nat, d: nat) returns (x: nat)
    requires u.Length == 5 && 2 <= n && ub + m + n == 4 && d < 16
    requires DigitRange(u, 0, 5) && forall x :: 0 <= x <= ub + m ==> u[x] == 0
    modifies u
    ensures x == old(Val(u[ub + m + 1..5])) / Pow2(d)
  {
    ghost var s := u[ub + m + 1..5];
    if d > 0 {
      ShiftRightQuotient(s, d);
      ShiftBack(u, ub, m, n, d);
      assert u[ub + m + 1..ub + m + n + 1] == u[ub + m + 1..5];
    } else {
      assert Pow2(0) == 1;
    }
    x := JoinRest(u, ub + m);
  }

  /** The four digits joined, the first `k` of them zero. */
  method JoinRest(u: array<int>, k: nat) returns (x: nat)
    requires u.Length == 5 && k <= 4 && AreDigits(u[k + 1..5]) && forall x :: 0 <= x <= k ==> u[x] == 0
    ensures x == Val(u[k + 1..5])
  {
    ZerosInSlice(u, k);
    PaddedDigits(u[1..5], k, u[k + 1..5]);
    x := JoinQuad(u[1], u[2], u[3], u[4]);
    assert u[1..5] == [u[1], u[2], u[3], u[4]];
  }

  lemma PaddedDigits(s: seq<int>, k: nat, t: seq<int>)
    requires |s| == 4 && k <= 4 && t == s[k..] && AreDigits(t) && forall i :: 0 <= i < k ==> s[i] == 0
    ensures AreDigits(s) && Val(s) == Val(t)
    ensures IsDigit(s[0]) && IsDigit(s[1]) && IsDigit(s[2]) && IsDigit(s[3])
  {
    ValSkipZeros(s, k);
    forall i | 0 <= i < 4 ensures IsDigit(s[i]) {
      if i >= k { assert s[i] == t[i - k]; }
    }
  }

  /** Quotient of two unsigned quads, as the compiler's run-time support calls it. */
  method UDivDi3(a: nat, b: nat) returns (r: Option<nat>)
    requires a < 0x1_0000_0000_0000_0000 && b < 0x1_0000_0000_0000_0000
    ensures r == if b == 0 then None else Some(a / b)
  {
    var x := QDivRem(a, b, false);
    r := if x.DivideByZero? then None else Some(x.quotient);
  }

  /** Remainder of two unsigned quads. */
  method UModDi3(a: nat, b: nat) returns (r: Option<nat>)
    requires a < 0x1_0000_0000_0000_0000 && b < 0x1_0000_0000_0000_0000
    ensures r == if b == 0 then None else Some(a % b)
  {
    var x := QDivRem(a, b, true);
    r := if x.DivideByZero? then None else x.remainder;
  }
}
