/**
 * The arithmetic behind the division routine, on sequences of base-65536 digits: digit-wise
 * shifting, multiply-and-subtract and add-back, the estimate of a quotient digit, and schoolbook
 * long division as the reference the in-place algorithm is measured against.
 */
module DivisionSpec {
  import opened Bits
  import opened Digits

  /** Digits produced by a pass over digits, with the carry out of every position; carries[0] leaves the top. */
  datatype Chain = Chain(digits: seq<int>, carries: seq<int>)

  /** Quotient digits and remainder. */
  datatype Division = Division(digits: seq<int>, rem: int)

  // ----- multiply and subtract (D4)

  /** The 32-bit wrapped difference the D4 loop computes for one digit. */
  function WrappedDifference(u: int, v: int, qhat: int, t: int): nat
  {
    W32(u - W32(v * qhat) - t)
  }

  function BorrowOf(w: nat): int { (0x1_0000 - HHalf(w)) % 0x1_0000 }

  ghost function SubtractMultiple(us: seq<int>, vs: seq<int>, qhat: int): (c: Chain)
    requires |us| == |vs|
    ensures |c.digits| == |us| && |c.carries| == |us| + 1
  {
    if |us| == 0 then Chain([], [0])
    else
      var low := SubtractMultiple(us[1..], vs[1..], qhat);
      var w := WrappedDifference(us[0], vs[0], qhat, low.carries[0]);
      Chain([LHalf(w)] + low.digits, [BorrowOf(w)] + low.carries)
  }

  lemma {:induction false} SubtractMultipleAt(us: seq<int>, vs: seq<int>, qhat: int, i: nat)
    requires i < |us| == |vs|
    ensures var c := SubtractMultiple(us, vs, qhat);
            var w := WrappedDifference(us[i], vs[i], qhat, c.carries[i + 1]);
            c.carries[|us|] == 0 && c.digits[i] == LHalf(w) && c.carries[i] == BorrowOf(w)
  {
    LastCarry(us, vs, qhat);
    if i > 0 { SubtractMultipleAt(us[1..], vs[1..], qhat, i - 1); }
  }

  /** Digit `i` of the pass, from the digits and the borrow below it. */
  ghost predicate SubtractionAt(c: Chain, us: seq<int>, vs: seq<int>, qhat: int, i: nat)
    requires i < |us| == |vs| == |c.digits| && |c.carries| == |us| + 1
  {
    var w := WrappedDifference(us[i], vs[i], qhat, c.carries[i + 1]);
    c.digits[i] == LHalf(w) && c.carries[i] == BorrowOf(w)
  }

  ghost predicate IsSubtraction(c: Chain, us: seq<int>, vs: seq<int>, qhat: int)
  {
    && |us| == |vs| == |c.digits| && |c.carries| == |us| + 1 && c.carries[|us|] == 0
    && forall i :: 0 <= i < |us| ==> SubtractionAt(c, us, vs, qhat, i)
  }

  lemma {:induction false} LastCarry(us: seq<int>, vs: seq<int>, qhat: int)
    requires |us| == |vs|
    ensures SubtractMultiple(us, vs, qhat).carries[|us|] == 0 && AddDigits(us, vs).carries[|us|] == 0
  {
    if |us| > 0 { LastCarry(us[1..], vs[1..], qhat); }
  }

  lemma SubtractsDigits(us: seq<int>, vs: seq<int>, qhat: int)
    requires |us| == |vs|
    ensures IsSubtraction(SubtractMultiple(us, vs, qhat), us, vs, qhat)
  {
    LastCarry(us, vs, qhat);
    forall i: nat | i < |us| ensures SubtractionAt(SubtractMultiple(us, vs, qhat), us, vs, qhat, i) {
      SubtractMultipleAt(us, vs, qhat, i);
    }
  }

  lemma ProductFits(x: int, y: int)
    requires IsDigit(x) && IsDigit(y)
    ensures 0 <= x * y <= 0xffff * 0xffff
  {
    MulLe(x, 0xffff, y);
    MulLe(0, x, y);
  }

  lemma WrapNegative(x: int, h: int, l: int)
    requires -0x1_0000_0000 < x < 0 && x == h * 0x1_0000 + l && IsDigit(l)
    ensures HHalf(W32(x)) == h + 0x1_0000 && LHalf(W32(x)) == l
  {
    assert W32(x) == x + 0x1_0000_0000;
  }

  /** The wrapped difference splits into the new digit and the true borrow. */
  lemma TrueBorrow(u: int, v: int, qhat: int, t: int)
    requires IsDigit(u) && IsDigit(v) && IsDigit(qhat) && IsDigit(t)
    ensures var w := WrappedDifference(u, v, qhat, t);
            IsDigit(BorrowOf(w)) && LHalf(w) == u - v * qhat - t + BorrowOf(w) * 0x1_0000
  {
    ProductFits(v, qhat);
    var p := v * qhat;
    assert W32(p) == p;
    BorrowSplit(u - p - t);
  }

  lemma BorrowSplit(x: int)
    requires -0xffff * 0x1_0000 <= x < 0x1_0000
    ensures LHalf(W32(x)) == x + BorrowOf(W32(x)) * 0x1_0000
  {
    if x < 0 {
      WrapNegative(x, x / 0x1_0000, x % 0x1_0000);
    }
  }

  /** The pass that subtracts a multiple, with what its digits are worth. */
  lemma SubtractionChain(us: seq<int>, vs: seq<int>, qhat: int) returns (c: Chain)
    requires |us| == |vs| && AreDigits(us) && AreDigits(vs) && IsDigit(qhat)
    ensures IsSubtraction(c, us, vs, qhat) && AreDigits(c.digits) && IsDigit(c.carries[0])
    ensures Val(c.digits) == Val(us) - qhat * Val(vs) + c.carries[0] * Pow(|us|)
  {
    c := SubtractMultiple(us, vs, qhat);
    SubtractsDigits(us, vs, qhat);
    SubtractMultipleValue(us, vs, qhat);
  }

  lemma {:induction false} SubtractMultipleValue(us: seq<int>, vs: seq<int>, qhat: int)
    requires |us| == |vs| && AreDigits(us) && AreDigits(vs) && IsDigit(qhat)
    ensures var c := SubtractMultiple(us, vs, qhat);
            AreDigits(c.digits) && IsDigit(c.carries[0])
            && Val(c.digits) == Val(us) - qhat * Val(vs) + c.carries[0] * Pow(|us|)
  {
    if |us| > 0 {
      var low := SubtractMultiple(us[1..], vs[1..], qhat);
      SubtractMultipleValue(us[1..], vs[1..], qhat);
      assert IsDigit(us[0]) && IsDigit(vs[0]);
      TrueBorrow(us[0], vs[0], qhat, low.carries[0]);
      var c := SubtractMultiple(us, vs, qhat);
      assert c.digits[1..] == low.digits;
      ValHead(c.digits);
      ValHead(us);
      ValHead(vs);
      SubtractStep(c.digits[0], us[0], low.carries[0], c.carries[0], vs[0], qhat, Pow(|us| - 1),
                   Val(low.digits), Val(us[1..]), Val(vs[1..]));
    }
  }

  lemma SubtractStep(d': int, d: int, t: int, t': int, vi: int, qhat: int, p: int,
                     new': int, old': int, vs: int)
    requires d' == d - vi * qhat - t + t' * 0x1_0000
    requires new' == old' - qhat * vs + t * p
    ensures d' * p + new' == (d * p + old') - qhat * (vi * p + vs) + t' * (0x1_0000 * p)
  {
    assert d' * p == (d - vi * qhat - t + t' * 0x1_0000) * p;
    Distribute(d - vi * qhat - t, t' * 0x1_0000, p);
    Distribute(d - vi * qhat, t, p);
    Distribute(d, vi * qhat, p);
    assert qhat * (vi * p + vs) == qhat * (vi * p) + qhat * vs;
    assert qhat * (vi * p) == vi * qhat * p;
    Assoc(t', 0x1_0000, p);
  }

  /** The last, borrow-only digit of D4: its high half is nonzero exactly when the borrow is real. */
  lemma FinalBorrow(u: int, t: int)
    requires IsDigit(u) && IsDigit(t)
    ensures var w := W32(u - t);
            (HHalf(w) != 0 <==> u < t) && IsDigit(LHalf(w))
            && LHalf(w) == u - t + (if HHalf(w) != 0 then 0x1_0000 else 0)
  {
    if u < t { WrapNegative(u - t, -1, u - t + 0x1_0000); }
  }

  // ----- add back (D6)

  ghost function AddDigits(us: seq<int>, vs: seq<int>): (c: Chain)
    requires |us| == |vs|
    ensures |c.digits| == |us| && |c.carries| == |us| + 1
  {
    if |us| == 0 then Chain([], [0])
    else
      var low := AddDigits(us[1..], vs[1..]);
      var w := W32(low.carries[0] + us[0] + vs[0]);
      Chain([LHalf(w)] + low.digits, [HHalf(w)] + low.carries)
  }

  lemma {:induction false} AddDigitsAt(us: seq<int>, vs: seq<int>, i: nat)
    requires i < |us| == |vs|
    ensures var c := AddDigits(us, vs);
            var w := W32(c.carries[i + 1] + us[i] + vs[i]);
            c.carries[|us|] == 0 && c.digits[i] == LHalf(w) && c.carries[i] == HHalf(w)
  {
    LastCarry(us, vs, 0);
    if i > 0 { AddDigitsAt(us[1..], vs[1..], i - 1); }
  }

  ghost predicate AdditionAt(c: Chain, us: seq<int>, vs: seq<int>, i: nat)
    requires i < |us| == |vs| == |c.digits| && |c.carries| == |us| + 1
  {
    var w := W32(c.carries[i + 1] + us[i] + vs[i]);
    c.digits[i] == LHalf(w) && c.carries[i] == HHalf(w)
  }

  ghost predicate IsAddition(c: Chain, us: seq<int>, vs: seq<int>)
  {
    && |us| == |vs| == |c.digits| && |c.carries| == |us| + 1 && c.carries[|us|] == 0
    && forall i :: 0 <= i < |us| ==> AdditionAt(c, us, vs, i)
  }

  lemma AddsDigits(us: seq<int>, vs: seq<int>)
    requires |us| == |vs|
    ensures IsAddition(AddDigits(us, vs), us, vs)
  {
    LastCarry(us, vs, 0);
    forall i: nat | i < |us| ensures AdditionAt(AddDigits(us, vs), us, vs, i) {
      AddDigitsAt(us, vs, i);
    }
  }

  /** The pass that adds, with what its digits are worth. */
  lemma AdditionChain(us: seq<int>, vs: seq<int>) returns (c: Chain)
    requires |us| == |vs| && AreDigits(us) && AreDigits(vs)
    ensures IsAddition(c, us, vs) && AreDigits(c.digits) && 0 <= c.carries[0] <= 1
    ensures Val(c.digits) == Val(us) + Val(vs) - c.carries[0] * Pow(|us|)
  {
    c := AddDigits(us, vs);
    AddsDigits(us, vs);
    AddDigitsValue(us, vs);
  }

  lemma {:induction false} AddDigitsValue(us: seq<int>, vs: seq<int>)
    requires |us| == |vs| && AreDigits(us) && AreDigits(vs)
    ensures var c := AddDigits(us, vs);
            AreDigits(c.digits) && 0 <= c.carries[0] <= 1
            && Val(c.digits) == Val(us) + Val(vs) - c.carries[0] * Pow(|us|)
  {
    if |us| > 0 {
      AddDigitsValue(us[1..], vs[1..]);
      var d', t' := AddDigitsCons(us, vs);
      var low := AddDigits(us[1..], vs[1..]);
      AddHead(us, vs, low.digits, low.carries[0], d', t');
    }
  }

  lemma AddDigitsCons(us: seq<int>, vs: seq<int>) returns (d': int, t': int)
    requires |us| == |vs| > 0 && AreDigits(us) && AreDigits(vs) && 0 <= AddDigits(us[1..], vs[1..]).carries[0] <= 1
    ensures var low := AddDigits(us[1..], vs[1..]);
            AddDigits(us, vs) == Chain([d'] + low.digits, [t'] + low.carries)
            && IsDigit(d') && 0 <= t' <= 1 && d' == us[0] + vs[0] + low.carries[0] - t' * 0x1_0000
  {
    assert IsDigit(us[0]) && IsDigit(vs[0]);
    d', t' := HalfSum(AddDigits(us[1..], vs[1..]).carries[0], us[0], vs[0]);
  }

  lemma AddHead(us: seq<int>, vs: seq<int>, low: seq<int>, t: int, d': int, t': int)
    requires |us| == |vs| > 0 && |low| == |us| - 1 && AreDigits(low) && IsDigit(d')
    requires d' == us[0] + vs[0] + t - t' * 0x1_0000
    requires Val(low) == Val(us[1..]) + Val(vs[1..]) - t * Pow(|us| - 1)
    ensures AreDigits([d'] + low) && Val([d'] + low) == Val(us) + Val(vs) - t' * Pow(|us|)
  {
    DigitsCons(d', low);
    ValHead(us);
    ValHead(vs);
    AddValues(d', us[0], t, t', vs[0], Pow(|us| - 1), Val(low), Val(us[1..]), Val(vs[1..]));
  }

  /** Two digits and a carry: the digit and the carry of their sum. */
  lemma HalfSum(t: int, u: int, v: int) returns (d': int, t': int)
    requires 0 <= t <= 1 && IsDigit(u) && IsDigit(v)
    ensures d' == LHalf(W32(t + u + v)) && t' == HHalf(W32(t + u + v))
    ensures IsDigit(d') && 0 <= t' <= 1 && d' == u + v + t - t' * 0x1_0000
  {
    d', t' := LHalf(W32(t + u + v)), HHalf(W32(t + u + v));
  }

  lemma AddValues(d': int, d: int, t: int, t': int, vi: int, p: int, new': int, old': int, vs: int)
    requires d' == d + vi + t - t' * 0x1_0000 && new' == old' + vs - t * p
    ensures d' * p + new' == (d * p + old') + (vi * p + vs) - t' * (0x1_0000 * p)
  {
    AddStep(d', d, t, t', vi, p);
  }

  lemma AddStep(d': int, d: int, t: int, t': int, vi: int, p: int)
    requires d' == d + vi + t - t' * 0x1_0000
    ensures d' * p == d * p + vi * p + t * p - t' * (0x1_0000 * p)
  {
    Distribute(d + vi + t, t' * 0x1_0000, p);
    Distribute(d + vi, t, p);
    Distribute(d, vi, p);
    Assoc(t', 0x1_0000, p);
  }

  // ----- shifting left

  function HighBits(x: nat, sh: nat): nat
    requires sh <= 16
  {
    DivNonnegative(x, Pow2(16 - sh));
    x / Pow2(16 - sh)
  }

  function LowBits(x: nat, sh: nat): nat { LHalf(W32(x * Pow2(sh))) }

  /** The digits `shl` leaves behind. */
  ghost function ShiftLeft(s: seq<int>, sh: nat): (r: seq<int>)
    requires 0 < sh < 16 && AreDigits(s)
    ensures |r| == |s|
  {
    if |s| == 0 then []
    else if |s| == 1 then [LowBits(s[0], sh)]
    else
      assert IsDigit(s[0]) && IsDigit(s[1]);
      [Or(LowBits(s[0], sh), HighBits(s[1], sh))] + ShiftLeft(s[1..], sh)
  }

  lemma ShiftFactors(sh: nat)
    requires 0 < sh < 16
    ensures Pow2(sh) * Pow2(16 - sh) == 0x1_0000
    ensures 2 <= Pow2(sh) <= 0x8000
  {
    Pow2Add(sh, 16 - sh);
    Pow2Sixteen();
    Pow2Monotone(1, sh);
    Pow2Monotone(sh, 15);
    assert Pow2(16) == 2 * Pow2(15) && Pow2(1) == 2 * Pow2(0);
  }

  lemma SplitProduct(x: int, c: int, p: int, h: int, l: int)
    requires c > 0 && p > 0 && p * c == 0x1_0000 && x == h * c + l && 0 <= l < c
    ensures x * p == h * 0x1_0000 + l * p && 0 <= l * p && l * p + p <= 0x1_0000
  {
    Distribute(h * c, l, p);
    Assoc(h, c, p);
    MulLe(l + 1, c, p);
    Distribute(l, 1, p);
    MulLe(0, l, p);
  }

  lemma HighBitsBound(x: int, c: int, p: int)
    requires IsDigit(x) && c > 0 && p > 0 && p * c == 0x1_0000
    ensures 0 <= x / c < p
  {
    if x / c >= p { MulLe(p, x / c, c); }
  }

  /** A digit shifted by `sh` is its high bits, moved to the next digit, and its low bits. */
  lemma ShiftDigit(x: int, sh: nat)
    requires IsDigit(x) && 0 < sh < 16
    ensures x * Pow2(sh) == HighBits(x, sh) * 0x1_0000 + LowBits(x, sh)
    ensures LowBits(x, sh) == (x % Pow2(16 - sh)) * Pow2(sh) && IsDigit(LowBits(x, sh))
    ensures LowBits(x, sh) + Pow2(sh) <= 0x1_0000
    ensures 0 <= HighBits(x, sh) < Pow2(sh)
  {
    ShiftFactors(sh);
    ShiftParts(x, Pow2(16 - sh), Pow2(sh));
    LowHalfOf(x * Pow2(sh), HighBits(x, sh), x % Pow2(16 - sh) * Pow2(sh));
  }

  lemma ShiftParts(x: int, c: int, p: int)
    requires IsDigit(x) && c > 0 && 0 < p <= 0x8000 && p * c == 0x1_0000
    ensures x * p == x / c * 0x1_0000 + x % c * p && 0 <= x * p < 0x1_0000_0000
    ensures 0 <= x % c * p && x % c * p + p <= 0x1_0000 && 0 <= x / c < p
  {
    HighBitsBound(x, c, p);
    SplitProduct(x, c, p, x / c, x % c);
    MulLe(x, 0xffff, p);
    MulLe(0, x, p);
  }

  lemma LowHalfOf(y: int, h: int, l: int)
    requires 0 <= y < 0x1_0000_0000 && y == h * 0x1_0000 + l && IsDigit(l)
    ensures LHalf(W32(y)) == l
  {
  }

  lemma ShiftedDigit(x: int, y: int, sh: nat)
    requires IsDigit(x) && IsDigit(y) && 0 < sh < 16
    ensures IsDigit(HighBits(y, sh))
    ensures Or(LowBits(x, sh), HighBits(y, sh)) == LowBits(x, sh) + HighBits(y, sh)
    ensures IsDigit(LowBits(x, sh) + HighBits(y, sh))
  {
    ShiftDigit(x, sh);
    ShiftDigit(y, sh);
    OrDisjoint(x % Pow2(16 - sh), HighBits(y, sh), sh);
  }

  /** Shifting multiplies by the power of two, less the bits that fall out on the left. */
  lemma {:induction false} ShiftLeftValue(s: seq<int>, sh: nat)
    requires 0 < sh < 16 && AreDigits(s) && |s| > 0
    ensures AreDigits(ShiftLeft(s, sh))
    ensures Val(ShiftLeft(s, sh)) == Val(s) * Pow2(sh) - HighBits(s[0], sh) * Pow(|s|)
  {
    assert IsDigit(s[0]);
    ShiftDigit(s[0], sh);
    var r := ShiftLeft(s, sh);
    ValHead(s);
    ValHead(r);
    if |s| > 1 {
      assert IsDigit(s[1]);
      ShiftedDigit(s[0], s[1], sh);
      ShiftLeftValue(s[1..], sh);
      assert r[1..] == ShiftLeft(s[1..], sh);
      LeftStep(s[0], HighBits(s[0], sh), LowBits(s[0], sh), Pow2(sh), Pow(|s| - 1), HighBits(s[1], sh), Val(s[1..]));
    } else {
      LeftStep(s[0], HighBits(s[0], sh), LowBits(s[0], sh), Pow2(sh), 1, 0, Val(s[1..]));
    }
  }

  lemma LeftStep(x: int, h: int, l: int, s: int, p: int, h': int, vs: int)
    requires x * s == h * 0x1_0000 + l
    ensures (l + h') * p + (vs * s - h' * p) == (x * p + vs) * s - h * (0x1_0000 * p)
  {
    Distribute(l, h', p);
    Distribute(x * p, vs, s);
    assert x * p * s == x * s * p;
    Distribute(h * 0x1_0000, l, p);
    Assoc(h, 0x1_0000, p);
  }

  // ----- shifting the remainder back right

  /** The digits the de-normalising loop writes, from left to right, given the digit before them. */
  ghost function ShiftRight(before: int, s: seq<int>, d: nat): (r: seq<int>)
    requires 0 < d < 16 && IsDigit(before) && AreDigits(s)
    ensures |r| == |s|
    decreases |s|
  {
    if |s| == 0 then []
    else
      assert IsDigit(s[0]);
      [Or(HighBits(s[0], 16 - d), LowBits(before, 16 - d))] + ShiftRight(s[0], s[1..], d)
  }

  lemma {:induction false} ShiftRightValue(before: int, s: seq<int>, d: nat)
    requires 0 < d < 16 && IsDigit(before) && AreDigits(s)
    ensures AreDigits(ShiftRight(before, s, d))
    ensures before % Pow2(d) * Pow(|s|) + Val(s) == Val(ShiftRight(before, s, d)) * Pow2(d) + LastDigit(before, s) % Pow2(d)
    decreases |s|
  {
    if |s| > 0 {
      var p := Pow2(d);
      var r := ShiftRight(before, s, d);
      assert IsDigit(s[0]);
      ShiftRightValue(s[0], s[1..], d);
      assert r[1..] == ShiftRight(s[0], s[1..], d);
      ValHead(s);
      ValHead(r);
      RightDigit(before, s[0], d);
      RightStep(before % p, s[0], p, Pow(|s| - 1), r[0], Val(s[1..]), Val(r[1..]), LastDigit(before, s) % p);
    }
  }

  ghost function LastDigit(before: int, s: seq<int>): int { if |s| == 0 then before else s[|s| - 1] }

  /** One digit of the right shift: the high part of `x` under the low bits of the digit before. */
  lemma RightDigit(before: int, x: int, d: nat)
    requires 0 < d < 16 && IsDigit(before) && IsDigit(x)
    ensures var y := Or(HighBits(x, 16 - d), LowBits(before, 16 - d));
            IsDigit(y) && y * Pow2(d) + x % Pow2(d) == before % Pow2(d) * 0x1_0000 + x
  {
    RightOr(before, x, d);
    ShiftFactors(d);
    RightSplit(before % Pow2(d), Pow2(16 - d), Pow2(d), x, Or(HighBits(x, 16 - d), LowBits(before, 16 - d)));
  }

  lemma RightOr(before: int, x: int, d: nat)
    requires 0 < d < 16 && IsDigit(before) && IsDigit(x)
    ensures var y := Or(HighBits(x, 16 - d), LowBits(before, 16 - d));
            IsDigit(y) && y == before % Pow2(d) * Pow2(16 - d) + x / Pow2(d)
  {
    ShiftFactors(d);
    LowBitsOf(before, d);
    HighBitsBound(x, Pow2(d), Pow2(16 - d));
    RightJoin(HighBits(x, 16 - d), before % Pow2(d), 16 - d);
  }

  lemma LowBitsOf(x: int, d: nat)
    requires 0 < d < 16 && IsDigit(x)
    ensures LowBits(x, 16 - d) == x % Pow2(d) * Pow2(16 - d) && LowBits(x, 16 - d) + Pow2(16 - d) <= 0x1_0000
  {
    ShiftDigit(x, 16 - d);
    assert 16 - (16 - d) == d;
  }

  lemma RightJoin(h: nat, m: nat, k: nat)
    requires h < Pow2(k)
    ensures m * Pow2(k) >= 0 && Or(h, m * Pow2(k)) == m * Pow2(k) + h
  {
    OrDisjoint(m, h, k);
    OrCommutes(h, m * Pow2(k));
  }

  lemma RightSplit(l: int, c: int, p: int, x: int, y: int)
    requires p > 0 && p * c == 0x1_0000 && y == l * c + x / p
    ensures y * p + x % p == l * 0x1_0000 + x
  {
    Distribute(l * c, x / p, p);
    Assoc(l, c, p);
  }

  lemma {:induction false} OrCommutes(a: nat, b: nat)
    ensures Or(a, b) == Or(b, a)
  {
    if a > 0 || b > 0 { OrCommutes(a / 2, b / 2); }
  }

  lemma RightStep(b: int, x: int, p: int, q: int, y: int, vs: int, vr: int, low: int)
    requires p > 0 && y * p + x % p == b * 0x1_0000 + x
    requires x % p * q + vs == vr * p + low
    ensures b * (0x1_0000 * q) + (x * q + vs) == (y * q + vr) * p + low
  {
    Distribute(y * q, vr, p);
    assert y * q * p == y * p * q;
    Distribute(y * p, x % p, q);
    Distribute(b * 0x1_0000, x, q);
    Assoc(b, 0x1_0000, q);
  }

  // ----- the quotient-digit estimate (D3)

  /** The estimate is the quotient of the leading three digits by the leading two, capped below B. */
  ghost predicate CappedQuotient(qhat: int, top: int, vtop: int)
  {
    && IsDigit(qhat)
    && qhat * vtop <= top
    && (qhat == 0xffff || (qhat + 1) * vtop > top)
  }

  lemma NotBelow(qhat: int, top: int, vtop: int, w: int, v: int, p: int, wlow: int, vlow: int)
    requires 0 < vtop && p >= 1 && 0 <= wlow < p && 0 <= vlow < p && 0 <= qhat
    requires w == top * p + wlow && v == vtop * p + vlow
    requires (qhat + 1) * vtop > top
    ensures w < (qhat + 1) * v
  {
    MulLe(top + 1, (qhat + 1) * vtop, p);
    Distribute(top, 1, p);
    Assoc(qhat + 1, vtop, p);
    Distribute(qhat, 1, vtop * p + vlow);
    MulLe(0, vlow, qhat + 1);
    assert (qhat + 1) * (vtop * p + vlow) == (qhat + 1) * (vtop * p) + (qhat + 1) * vlow;
  }

  lemma NotFarAbove(qhat: int, top: int, vtop: int, w: int, v: int, p: int, wlow: int, vlow: int)
    requires 0x8000_0000 <= vtop && p >= 1 && 0 <= wlow < p && 0 <= vlow < p && 0 < qhat < 0x1_0000
    requires w == top * p + wlow && v == vtop * p + vlow
    requires qhat * vtop <= top
    ensures (qhat - 1) * v <= w
  {
    MulLe(qhat * vtop, top, p);
    Assoc(qhat, vtop, p);
    Distribute(qhat, 1, v);
    assert qhat * v == qhat * (vtop * p) + qhat * vlow;
    MulLe(vlow, p, qhat);
    MulLe(qhat, vtop, p);
  }

  /** The capped estimate is the true digit or one more (Knuth's Theorems A and B). */
  lemma EstimateNear(qhat: int, top: int, vtop: int, w: int, v: int, p: int, wlow: int, vlow: int)
    requires 0x8000_0000 <= vtop && 0 <= top && p >= 1 && 0 <= wlow < p && 0 <= vlow < p
    requires w == top * p + wlow && v == vtop * p + vlow && w < 0x1_0000 * v && 0 < v
    requires CappedQuotient(qhat, top, vtop)
    ensures w / v == qhat || w / v == qhat - 1
  {
    if qhat != 0xffff { NotBelow(qhat, top, vtop, w, v, p, wlow, vlow); }
    assert w < (qhat + 1) * v;
    if qhat > 0 { NotFarAbove(qhat, top, vtop, w, v, p, wlow, vlow); }
    MulLe(0, top, p);
    QuotientBetween(w, v, qhat - 1, qhat + 1);
  }

  lemma QuotientBetween(w: int, v: int, lo: int, hi: int)
    requires v > 0 && lo + 2 == hi && (lo * v <= w || (lo == -1 && w >= 0)) && w < hi * v
    ensures w / v == lo || w / v == lo + 1
  {
    DivNear(w, v);
    MultipleBetween(w, v, w / v, lo);
  }

  lemma DivNear(w: int, v: int)
    requires v > 0
    ensures w / v * v <= w < (w / v + 1) * v
  {
    Distribute(w / v, 1, v);
  }

  lemma MultipleBetween(w: int, v: int, q: int, lo: int)
    requires v > 0 && q * v <= w < (q + 1) * v && (lo * v <= w || (lo == -1 && w >= 0)) && w < (lo + 2) * v
    ensures q == lo || q == lo + 1
  {
    if q >= lo + 2 { MulLe(lo + 2, q, v); }
    if q < lo { MulLe(q + 1, lo, v); }
    if q < 0 { MulLe(q + 1, 0, v); }
  }

  lemma ValSecond(s: seq<int>)
    requires |s| >= 2
    ensures Val(s[1..]) == s[1] * Pow(|s| - 2) + Val(s[2..])
  {
    ValHead(s[1..]);
    assert s[1..][1..] == s[2..] && s[1..][0] == s[1];
  }

  lemma ValTop(s: seq<int>)
    requires |s| >= 2
    ensures Val(s) == (s[0] * 0x1_0000 + s[1]) * Pow(|s| - 2) + Val(s[2..])
  {
    var p := Pow(|s| - 2);
    ValHead(s);
    ValSecond(s);
    TopStep(s[0], s[1], p, Val(s[2..]));
  }

  lemma TopStep(a: int, b: int, p: int, low: int)
    ensures a * (0x1_0000 * p) + (b * p + low) == (a * 0x1_0000 + b) * p + low
  {
    Assoc(a, 0x1_0000, p);
    Distribute(a * 0x1_0000, b, p);
  }

  lemma ValTop3(s: seq<int>)
    requires |s| >= 3
    ensures Val(s) == ((s[0] * 0x1_0000 + s[1]) * 0x1_0000 + s[2]) * Pow(|s| - 3) + Val(s[3..])
  {
    var p, t := Pow(|s| - 3), s[0] * 0x1_0000 + s[1];
    ValTop(s);
    ValHead(s[2..]);
    assert s[2..][1..] == s[3..] && s[2..][0] == s[2];
    TopStep(t, s[2], p, Val(s[3..]));
  }

  lemma DigitsSlice(s: seq<int>, i: nat)
    requires AreDigits(s) && i <= |s|
    ensures AreDigits(s[i..]) && AreDigits(s[..i])
  {
  }

  /** The estimate from three window digits and two divisor digits, for the whole window. */
  lemma EstimateWindow(win: seq<int>, vs: seq<int>, qhat: int)
    requires |win| == |vs| + 1 && |vs| >= 2 && AreDigits(win) && AreDigits(vs) && vs[0] >= 0x8000
    requires CappedQuotient(qhat, (win[0] * 0x1_0000 + win[1]) * 0x1_0000 + win[2], vs[0] * 0x1_0000 + vs[1])
    requires Val(win) < 0x1_0000 * Val(vs)
    ensures 0 < Val(vs) && (Val(win) / Val(vs) == qhat || Val(win) / Val(vs) == qhat - 1)
  {
    TopParts(win, vs);
    var vtop := vs[0] * 0x1_0000 + vs[1];
    MulLe(1, vtop, Pow(|vs| - 2));
    EstimateNear(qhat, (win[0] * 0x1_0000 + win[1]) * 0x1_0000 + win[2], vtop,
                 Val(win), Val(vs), Pow(|vs| - 2), Val(win[3..]), Val(vs[2..]));
  }

  lemma TopParts(win: seq<int>, vs: seq<int>)
    requires |win| == |vs| + 1 && |vs| >= 2 && AreDigits(win) && AreDigits(vs)
    ensures Val(win) == ((win[0] * 0x1_0000 + win[1]) * 0x1_0000 + win[2]) * Pow(|vs| - 2) + Val(win[3..])
    ensures Val(vs) == (vs[0] * 0x1_0000 + vs[1]) * Pow(|vs| - 2) + Val(vs[2..])
    ensures 0 <= Val(win[3..]) < Pow(|vs| - 2) && 0 <= Val(vs[2..]) < Pow(|vs| - 2)
    ensures 0 <= win[0] && 0 <= win[1] && 0 <= win[2] && 0 <= vs[1]
  {
    ValTop3(win);
    ValTop(vs);
    DigitsSlice(win, 3);
    DigitsSlice(vs, 2);
    ValBound(win[3..]);
    ValBound(vs[2..]);
    assert IsDigit(win[0]) && IsDigit(win[1]) && IsDigit(win[2]) && IsDigit(vs[1]);
  }

  /** A number below the divisor starts with a digit no greater than the divisor's. */
  lemma LeadDigitBound(top: seq<int>, vs: seq<int>)
    requires |top| == |vs| >= 1 && AreDigits(top) && AreDigits(vs) && Val(top) < Val(vs)
    ensures top[0] <= vs[0]
  {
    var p := Pow(|vs| - 1);
    DigitsSlice(top, 1);
    DigitsSlice(vs, 1);
    ValHead(top);
    ValHead(vs);
    ValBound(top[1..]);
    ValBound(vs[1..]);
    if top[0] > vs[0] {
      MulLe(vs[0] + 1, top[0], p);
      Distribute(vs[0], 1, p);
    }
  }

  /** What multiply-and-subtract left: the remainder, or the remainder short of one divisor. */
  lemma SubtractOutcome(w: int, v: int, qhat: int, borrow: bool, r: int, p: int)
    requires 0 < v <= p && 0 <= r < p && 0 <= w
    requires r == w - qhat * v + (if borrow then p else 0)
    requires w / v == qhat || w / v == qhat - 1
    ensures borrow <==> w / v == qhat - 1
    ensures !borrow ==> r == w % v
    ensures borrow ==> (r + v) % p == w % v
  {
    var q := w / v;
    Distribute(qhat, 1, v);
    assert w == q * v + w % v;
    if borrow {
      DivModUnique(r + v, p, 1, w % v);
    }
  }

  lemma ZeroLead(s: seq<int>, v: int)
    requires |s| >= 1 && AreDigits(s) && Val(s) < v <= Pow(|s| - 1)
    ensures s[0] == 0 && Val(s[1..]) == Val(s)
  {
    DigitsSlice(s, 1);
    ValHead(s);
    ValBound(s[1..]);
    assert IsDigit(s[0]);
    if s[0] > 0 { MulLe(1, s[0], Pow(|s| - 1)); }
  }

  // ----- schoolbook long division

  /** Quotient digits and remainder of `r` followed by the digits `ds`, divided by `v`. */
  ghost function LongDiv(r: int, ds: seq<int>, v: int): (c: Division)
    requires v > 0
    ensures |c.digits| == |ds|
    decreases |ds|
  {
    if |ds| == 0 then Division([], r)
    else
      var x := r * 0x1_0000 + ds[0];
      var rest := LongDiv(x % v, ds[1..], v);
      Division([x / v] + rest.digits, rest.rem)
  }

  lemma {:induction false} LongDivValue(r: int, ds: seq<int>, v: int)
    requires 0 <= r < v && AreDigits(ds)
    ensures var c := LongDiv(r, ds, v);
            AreDigits(c.digits) && 0 <= c.rem < v
            && Val(c.digits) * v + c.rem == r * Pow(|ds|) + Val(ds)
    decreases |ds|
  {
    if |ds| > 0 {
      assert IsDigit(ds[0]);
      var x := r * 0x1_0000 + ds[0];
      QuotientDigit(x, v);
      LongDivValue(x % v, ds[1..], v);
      var c := LongDiv(r, ds, v);
      assert c.digits[1..] == LongDiv(x % v, ds[1..], v).digits;
      ValHead(c.digits);
      ValHead(ds);
      LongDivStep(x, r, ds[0], v, Pow(|ds| - 1), Val(c.digits[1..]));
    }
  }

  lemma QuotientDigit(x: int, v: int)
    requires v > 0 && 0 <= x < 0x1_0000 * v
    ensures IsDigit(x / v)
  {
    var q := x / v;
    if q >= 0x1_0000 { MulLe(0x1_0000, q, v); }
  }

  lemma LongDivStep(x: int, r: int, d: int, v: int, p: int, qs: int)
    requires v > 0 && x == r * 0x1_0000 + d
    ensures (x / v * p + qs) * v == r * (0x1_0000 * p) + d * p - x % v * p + qs * v
  {
    Distribute(x / v * p, qs, v);
    assert x / v * p * v == x / v * v * p;
    assert x / v * v == x - x % v;
    Distribute(x, x % v, p);
    Distribute(r * 0x1_0000, d, p);
    Assoc(r, 0x1_0000, p);
  }

  lemma LongDivCons(r: int, ds: seq<int>, v: int)
    requires v > 0 && |ds| > 0
    ensures var x := r * 0x1_0000 + ds[0];
            var rest := LongDiv(x % v, ds[1..], v);
            LongDiv(r, ds, v) == Division([x / v] + rest.digits, rest.rem)
  {
  }

  // ----- normalising both operands by a power of two

  /** Quotient and remainder of the normalised operands, brought back to the original ones. */
  lemma Denormalised(u: int, v: int, s: int, q: int, r: int)
    requires v > 0 && s > 0 && 0 <= r < v * s && q * (v * s) + r == u * s
    ensures q == u / v && r / s == u % v
  {
    var rem := u - q * v;
    Distribute(u, q * v, s);
    Assoc(q, v, s);
    assert r == rem * s;
    if rem < 0 { MulLe(rem + 1, 0, s); Distribute(rem, 1, s); }
    if rem >= v { MulLe(v, rem, s); }
    DivModUnique(u, v, q, rem);
    DivModUnique(r, s, rem, 0);
  }

  lemma ShiftRightQuotient(s: seq<int>, d: nat)
    requires 0 < d < 16 && AreDigits(s) && |s| > 0
    ensures AreDigits(ShiftRight(0, s, d)) && Val(ShiftRight(0, s, d)) == Val(s) / Pow2(d)
  {
    ShiftRightValue(0, s, d);
    MulZero(0 % Pow2(d), Pow(|s|));
    DivModUnique(Val(s), Pow2(d), Val(ShiftRight(0, s, d)), LastDigit(0, s) % Pow2(d));
  }

  lemma {:induction false} ShiftRightAt(before: int, s: seq<int>, d: nat, i: nat)
    requires 0 < d < 16 && IsDigit(before) && AreDigits(s) && i < |s|
    ensures IsDigit(s[i]) && (i > 0 ==> IsDigit(s[i - 1]))
    ensures ShiftRight(before, s, d)[i]
         == Or(HighBits(s[i], 16 - d), LowBits(if i == 0 then before else s[i - 1], 16 - d))
    decreases i
  {
    assert IsDigit(s[0]);
    if i > 0 { ShiftRightAt(s[0], s[1..], d, i - 1); }
  }

  lemma {:induction false} ShiftLeftAt(s: seq<int>, sh: nat, i: nat)
    requires 0 < sh < 16 && AreDigits(s) && i < |s|
    ensures IsDigit(s[i]) && (i + 1 < |s| ==> IsDigit(s[i + 1]))
    ensures ShiftLeft(s, sh)[i] == if i + 1 < |s| then Or(LowBits(s[i], sh), HighBits(s[i + 1], sh))
                                   else LowBits(s[i], sh)
  {
    if i > 0 { ShiftLeftAt(s[1..], sh, i - 1); }
  }

  /** A digit with room for the shift has no bits to lose. */
  lemma NoHighBits(x: int, sh: nat)
    requires IsDigit(x) && 0 < sh < 16 && x * Pow2(sh) < 0x1_0000
    ensures HighBits(x, sh) == 0 && LowBits(x, sh) == x * Pow2(sh)
  {
    ShiftDigit(x, sh);
  }

  /** Shifting digits whose leading one leaves room loses nothing. */
  lemma ShiftLeftExact(s: seq<int>, sh: nat)
    requires 0 < sh < 16 && AreDigits(s) && |s| > 0 && IsDigit(s[0]) && s[0] * Pow2(sh) < 0x1_0000
    ensures AreDigits(ShiftLeft(s, sh)) && Val(ShiftLeft(s, sh)) == Val(s) * Pow2(sh)
  {
    NoHighBits(s[0], sh);
    ShiftLeftValue(s, sh);
    MulZero(HighBits(s[0], sh), Pow(|s|));
  }

  /** The leading digit after the shift holds at least the shifted leading digit. */
  lemma ShiftLeftLead(s: seq<int>, sh: nat)
    requires 0 < sh < 16 && AreDigits(s) && |s| > 1 && IsDigit(s[0]) && s[0] * Pow2(sh) < 0x1_0000
    ensures ShiftLeft(s, sh)[0] >= s[0] * Pow2(sh)
  {
    NoHighBits(s[0], sh);
    assert IsDigit(s[1]);
    ShiftedDigit(s[0], s[1], sh);
    ShiftLeftAt(s, sh, 0);
  }

  /** The top digits of the shifted dividend are below the shifted divisor. */
  lemma TopBelowDivisor(us: seq<int>, n: nat, m: nat, u: int, v: int, s: int)
    requires |us| == m + n + 1 && AreDigits(us) && n >= 1 && s > 0
    requires Val(us) == u * s && u < Pow(m + n) && Pow(n - 1) <= v
    ensures Val(us[..n]) < v * s
  {
    assert us == us[..n] + us[n..];
    ValConcat(us[..n], us[n..]);
    DigitsSlice(us, n);
    ValBound(us[n..]);
    PowAdd(n - 1, m + 1);
    TopQuotient(Val(us[..n]), Pow(m + 1), Pow(n - 1), u, v, s, Val(us[n..]));
  }

  lemma TopQuotient(t: int, p: int, p': int, u: int, v: int, s: int, low: int)
    requires t * p + low == u * s && 0 <= low && p > 0 && s > 0 && u < p' * p && p' <= v
    ensures t < v * s
  {
    if t >= v * s {
      MulLe(p', v, s);
      MulLe(p' * s, t, p);
      assert p' * s * p == p' * p * s;
      MulLe(u + 1, p' * p, s);
      Distribute(u, 1, s);
    }
  }

  // ----- a 64-bit number as four digits

  lemma ValFour(a: int, b: int, c: int, d: int)
    ensures Val([a, b, c, d]) == ((a * 0x1_0000 + b) * 0x1_0000 + c) * 0x1_0000 + d
  {
    ValAppend([], a);
    ValAppend([a], b);
    ValAppend([a, b], c);
    ValAppend([a, b, c], d);
    assert [] + [a] == [a] && [a] + [b] == [a, b] && [a, b] + [c] == [a, b, c] && [a, b, c] + [d] == [a, b, c, d];
  }

  /** Digits led by zeros have the value of the rest. */
  lemma ValSkipZeros(s: seq<int>, k: nat)
    requires k <= |s| && forall i :: 0 <= i < k ==> s[i] == 0
    ensures Val(s) == Val(s[k..])
  {
    assert s == s[..k] + s[k..];
    ValConcat(s[..k], s[k..]);
    ValZeros(s[..k]);
    MulZero(Val(s[..k]), Pow(|s| - k));
  }

  lemma ValAtLeast(s: seq<int>)
    requires |s| > 0 && AreDigits(s) && s[0] > 0
    ensures Val(s) >= Pow(|s| - 1)
  {
    DigitsSlice(s, 1);
    ValHead(s);
    ValBound(s[1..]);
    MulLe(1, s[0], Pow(|s| - 1));
  }
}
