/**
 * strtoul on a string without its terminating null: blanks, an optional 0x, then the longest run
 * of digits, with the value wrapped to 32 bits; and its round trip with number output.
 */
module Strtoul {
  import opened Bits
  import opened Numerals
  import Format

  function At(s: string, i: nat): char { if i < |s| then s[i] else '\0' }

  predicate IsSpace(c: char)
  {
    c == ' ' || c == '\U{0c}' || c == '\n' || c == '\r' || c == '\t' || c == '\U{0b}'
  }

  /** Blanks are the space and the characters 9 to 13. */
  lemma Spaces(c: char)
    ensures IsSpace(c) <==> c as int == 32 || 9 <= c as int <= 13
  {
  }

  // ----- what is read

  function AfterSpaces(s: string, i: nat): (k: nat)
    requires i <= |s|
    ensures i <= k <= |s|
    decreases |s| - i
  {
    if i < |s| && IsSpace(s[i]) then AfterSpaces(s, i + 1) else i
  }

  predicate HexMark(s: string, i: nat, base: nat)
  {
    (base == 16 || base == 0) && At(s, i) == '0' && (At(s, i + 1) == 'x' || At(s, i + 1) == 'X')
  }

  /** Where the digits begin. */
  function Begin(s: string, base: nat): (k: nat)
    ensures k <= |s|
  {
    var i := AfterSpaces(s, 0);
    if HexMark(s, i, base) then i + 2 else i
  }

  function Radix(s: string, base: nat): nat
  {
    var i := AfterSpaces(s, 0);
    if HexMark(s, i, base) then 16 else if base != 0 then base else if At(s, i) == '0' then 8 else 10
  }

  /** Where the run of digits from `i` on ends. */
  function RunEnd(s: string, i: nat, base: nat): (k: nat)
    requires i <= |s|
    ensures i <= k <= |s| && AllDigits(s[i..k], base) && (k < |s| ==> !IsDigit(s[k], base))
    decreases |s| - i
  {
    if i < |s| && IsDigit(s[i], base) then
      var k := RunEnd(s, i + 1, base);
      assert s[i..k] == [s[i]] + s[i + 1..k];
      k
    else i
  }

  /** The number that strtoul finds in `s`. */
  function Parsed(s: string, base: nat): nat
  {
    var i, b := Begin(s, base), Radix(s, base);
    W32(Value(s[i..RunEnd(s, i, b)], b))
  }

  // ----- the loop

  lemma WrapStep(x: nat, base: nat, d: nat)
    ensures W32(W32(x) * base + d) == W32(x * base + d)
  {
    var m := 0x1_0000_0000;
    var q, r := x / m, x % m;
    var y := r * base + d;
    assert x == q * m + r;
    Distribute(q * m, r, base);
    Assoc(q, m, base);
    Assoc(q, base, m);
    assert x * base + d == q * base * m + y;
    WrapUnique(y, q * base);
  }

  lemma WrapUnique(y: nat, k: nat)
    ensures W32(k * 0x1_0000_0000 + y) == W32(y)
  {
  }

  lemma ValueMore(s: string, i: nat, p: nat, base: nat)
    requires i <= p < |s| && AllDigits(s[i..p], base) && IsDigit(s[p], base)
    ensures AllDigits(s[i..p + 1], base) && Value(s[i..p + 1], base) == Value(s[i..p], base) * base + DigitValue(s[p])
  {
    var t := s[i..p + 1];
    assert t[..|t| - 1] == s[i..p] && t[|t| - 1] == s[p];
    assert forall k :: 0 <= k < |t| ==> IsDigit(t[k], base);
  }

  method Run(s: string, i: nat, base: nat) returns (v: nat, p: nat)
    requires i <= |s|
    ensures p == RunEnd(s, i, base) && v == W32(Value(s[i..p], base))
  {
    v, p := 0, i;
    while IsDigit(At(s, p), base)
      invariant i <= p <= |s| && AllDigits(s[i..p], base) && v == W32(Value(s[i..p], base))
      invariant RunEnd(s, p, base) == RunEnd(s, i, base)
      decreases |s| - p
    {
      WrapStep(Value(s[i..p], base), base, DigitValue(s[p]));
      ValueMore(s, i, p, base);
      v, p := W32(v * base + DigitValue(s[p])), p + 1;
    }
  }

  /** strtoul: the value and where reading stopped. */
  method Parse(s: string, base0: nat) returns (v: nat, end: nat)
    ensures v == Parsed(s, base0) && end == RunEnd(s, Begin(s, base0), Radix(s, base0))
  {
    var p, base := 0, base0;
    while IsSpace(At(s, p))
      invariant 0 <= p <= |s| && AfterSpaces(s, p) == AfterSpaces(s, 0)
      decreases |s| - p
    {
      p := p + 1;
    }
    if HexMark(s, p, base) {
      p, base := p + 2, 16;
    }
    if base == 0 {
      base := if At(s, p) == '0' then 8 else 10;
    }
    v, end := Run(s, p, base);
  }

  // ----- reading back

  lemma {:induction false} SkipsAll(s: string, i: nat, n: nat)
    requires i <= n <= |s| && (forall k :: i <= k < n ==> IsSpace(s[k])) && !IsSpace(At(s, n))
    ensures AfterSpaces(s, i) == n
    decreases n - i
  {
    if i < n { SkipsAll(s, i + 1, n); }
  }

  lemma {:induction false} RunsTo(s: string, i: nat, n: nat, base: nat)
    requires i <= n <= |s| && (forall k :: i <= k < n ==> IsDigit(s[k], base)) && !IsDigit(At(s, n), base)
    ensures RunEnd(s, i, base) == n
    decreases n - i
  {
    if i < n { RunsTo(s, i + 1, n, base); }
  }

  /** Blanks, perhaps a hexadecimal mark, digits and then something else: the digits' value is read. */
  lemma ParsedIs(s: string, pre: string, mark: string, ds: string, post: string, base: nat, u: nat)
    requires s == pre + mark + ds + post
    requires 2 <= base <= 16 && (forall k :: 0 <= k < |pre| ==> pre[k] == ' ') && |ds| > 0 && AllDigits(ds, base)
    requires mark == "" || (mark == "0x" && base == 16)
    requires (forall k :: 0 <= k < |post| ==> post[k] == ' ') && Value(ds, base) == u < 0x1_0000_0000
    ensures Parsed(s, base) == u
  {
    FoundAt(s, pre, mark, ds, post, base);
    assert s[|pre| + |mark|..|pre| + |mark| + |ds|] == ds;
    WholeWord(u);
  }

  lemma WholeWord(u: nat)
    requires u < 0x1_0000_0000
    ensures W32(u) == u
  {
  }

  /** Where the digits are found. */
  lemma FoundAt(s: string, pre: string, mark: string, ds: string, post: string, base: nat)
    requires s == pre + mark + ds + post
    requires 2 <= base <= 16 && (forall k :: 0 <= k < |pre| ==> pre[k] == ' ') && |ds| > 0 && AllDigits(ds, base)
    requires mark == "" || (mark == "0x" && base == 16)
    requires forall k :: 0 <= k < |post| ==> post[k] == ' '
    ensures var i := |pre| + |mark|;
      Begin(s, base) == i && Radix(s, base) == base && RunEnd(s, i, base) == i + |ds|
  {
    var i := |pre| + |mark|;
    var n := i + |ds|;
    assert forall k :: i <= k < n ==> s[k] == ds[k - i];
    assert At(s, n) == if |post| > 0 then ' ' else '\0';
    assert At(s, |pre|) == if |mark| > 0 then '0' else ds[0];
    SkipsAll(s, 0, |pre|);
    assert IsDigit(ds[0], base);
    if mark == "" {
      assert At(s, i + 1) == if |ds| > 1 then ds[1] else At(s, n);
      assert |ds| > 1 ==> IsDigit(ds[1], base);
      assert !HexMark(s, i, base);
    } else {
      assert s[|pre|] == '0' && s[|pre| + 1] == 'x';
    }
    assert Begin(s, base) == i && Radix(s, base) == base;
    RunsTo(s, i, n, base);
  }

  /** strtoul reads back what printnum writes, in every base from 2 to 16. */
  lemma ReadsBack(u: nat, base: nat)
    requires u < 0x1_0000_0000 && 2 <= base <= 16
    ensures Parsed(Digits(u, base), base) == u
  {
    DigitsValue(u, base);
    var ds := Digits(u, base);
    assert ds == "" + "" + ds + "";
    ParsedIs(ds, "", "", ds, "", base, u);
  }

  lemma Regroup(a: string, p: string, z: string, ds: string, b: string)
    ensures a + "" + p + z + ds + b == a + p + (z + ds) + b
    ensures p == "0" ==> a + "" + p + z + ds + b == a + "" + (Repeat('0', 1) + (z + ds)) + b
  {
  }

  lemma ZerosRead(z: int, digits: string, base: nat) returns (ds: string)
    requires base >= 1 && AllDigits(digits, base)
    ensures ds == Repeat('0', z) + digits && AllDigits(ds, base) && Value(ds, base) == Value(digits, base)
  {
    var n := if z > 0 then z else 0;
    assert Repeat('0', z) == Repeat('0', n);
    LeadingZeros(n, digits, base);
    ds := Repeat('0', z) + digits;
  }

  /** A field taken apart: `a`, `z` and `b` are the numbers of blanks, zeros and blanks. */
  lemma ReadsPieces(f: string, a: int, prefix: string, z: int, digits: string, b: int, base: nat, u: nat)
    requires 2 <= base <= 16 && |digits| > 0 && AllDigits(digits, base) && Value(digits, base) == u < 0x1_0000_0000
    requires prefix == "" || prefix == "0" || (prefix == "0x" && base == 16)
    requires f == Repeat(' ', a) + "" + prefix + Repeat('0', z) + digits + Repeat(' ', b)
    ensures Parsed(f, base) == u
  {
    var before, zeros, after := Repeat(' ', a), Repeat('0', z), Repeat(' ', b);
    Regroup(before, prefix, zeros, digits, after);
    var ds := ZerosRead(z, digits, base);
    if prefix == "0" {
      var ds' := ZerosRead(1, ds, base);
      ParsedIs(f, before, "", ds', after, base, u);
    } else {
      ParsedIs(f, before, prefix, ds, after, base, u);
    }
  }

  /** It also reads back an unsigned field, whatever its padding, and with the prefix of bases 8 and 16. */
  lemma ReadsFieldBack(u: nat, base: nat, width: int, padc: char, ladjust: bool, altfmt: bool)
    requires u < 0x1_0000_0000 && 2 <= base <= 16
    ensures Parsed(Format.Field(width, padc, ladjust, "", Format.PrefixOf(u, base, altfmt), Digits(u, base)), base) == u
  {
    var prefix, digits := Format.PrefixOf(u, base, altfmt), Digits(u, base);
    var missing := width - |""| - |prefix| - |digits|;
    DigitsValue(u, base);
    ReadsPieces(Format.Field(width, padc, ladjust, "", prefix, digits),
                if padc == ' ' && !ladjust then missing else 0, prefix, if padc == '0' then missing else 0,
                digits, if padc == ' ' && ladjust then missing else 0, base, u);
  }

  // ----- letters of either case

  function UpperChar(c: char): char
  {
    if 'a' <= c <= 'z' then (c as int - 'a' as int + 'A' as int) as char else c
  }

  function Upper(s: string): (u: string)
    ensures |u| == |s| && forall i :: 0 <= i < |s| ==> u[i] == UpperChar(s[i])
  {
    seq(|s|, i requires 0 <= i < |s| => UpperChar(s[i]))
  }

  lemma UpperSame(c: char)
    ensures DigitValue(UpperChar(c)) == DigitValue(c) && IsSpace(UpperChar(c)) == IsSpace(c)
    ensures (UpperChar(c) == '0' <==> c == '0') && (UpperChar(c) in {'x', 'X'} <==> c in {'x', 'X'})
  {
  }

  lemma UpperAt(s: string, i: nat)
    ensures At(Upper(s), i) == UpperChar(At(s, i))
  {
  }

  lemma {:induction false} UpperSpaces(s: string, i: nat)
    requires i <= |s|
    ensures AfterSpaces(Upper(s), i) == AfterSpaces(s, i)
    decreases |s| - i
  {
    if i < |s| {
      UpperSame(s[i]);
      UpperSpaces(s, i + 1);
    }
  }

  lemma UpperBegin(s: string, base: nat)
    ensures Begin(Upper(s), base) == Begin(s, base) && Radix(Upper(s), base) == Radix(s, base)
  {
    var i := AfterSpaces(s, 0);
    UpperSpaces(s, 0);
    UpperAt(s, i);
    UpperAt(s, i + 1);
    UpperSame(At(s, i));
    UpperSame(At(s, i + 1));
  }

  lemma {:induction false} UpperRun(s: string, i: nat, base: nat)
    requires i <= |s|
    ensures RunEnd(Upper(s), i, base) == RunEnd(s, i, base)
    decreases |s| - i
  {
    if i < |s| {
      UpperSame(s[i]);
      UpperRun(s, i + 1, base);
    }
  }

  lemma {:induction false} UpperValue(a: string, b: string, base: nat)
    requires |a| == |b| && AllDigits(b, base) && forall k :: 0 <= k < |a| ==> a[k] == UpperChar(b[k])
    ensures AllDigits(a, base) && Value(a, base) == Value(b, base)
  {
    forall k | 0 <= k < |a| ensures DigitValue(a[k]) == DigitValue(b[k]) { UpperSame(b[k]); }
    if |a| > 0 { UpperValue(a[..|a| - 1], b[..|b| - 1], base); }
  }

  /** Upper-case letters are read like lower-case ones, in digits and in the hexadecimal mark. */
  lemma CaseIgnored(s: string, base: nat)
    ensures Parsed(Upper(s), base) == Parsed(s, base)
  {
    UpperBegin(s, base);
    var i, b := Begin(s, base), Radix(s, base);
    UpperRun(s, i, b);
    var k := RunEnd(s, i, b);
    UpperValue(Upper(s)[i..k], s[i..k], b);
  }

  // ----- base 0

  /** With base 0 a hexadecimal mark, a leading 0 or another digit say which base is read. */
  lemma AnyBase(s: string, pre: string, base: nat)
    requires AfterSpaces(s, 0) == |pre| <= |s|
    requires var c, d := At(s, |pre|), At(s, |pre| + 1);
      base == if c == '0' && (d == 'x' || d == 'X') then 16 else if c == '0' then 8 else 10
    ensures Parsed(s, 0) == Parsed(s, base)
  {
  }

  /** Blanks, then something that is none. */
  lemma BlanksSkipped(f: string, a: int, rest: string)
    requires f == Repeat(' ', a) + rest && |rest| > 0 && !IsSpace(rest[0])
    ensures AfterSpaces(f, 0) == |Repeat(' ', a)| && At(f, |Repeat(' ', a)|) == rest[0]
    ensures At(f, |Repeat(' ', a)| + 1) == At(rest, 1)
  {
    SkipsAll(f, 0, |Repeat(' ', a)|);
  }

  lemma FirstDigit(u: nat, base: nat)
    requires 2 <= base <= 16
    ensures |Digits(u, base)| > 0 && AllDigits(Digits(u, base), base)
    ensures Digits(u, base)[0] == '0' <==> u == 0
  {
    DigitsValue(u, base);
    DigitsShape(u, base);
  }

  /** A digit is neither blank nor part of a hexadecimal mark. */
  lemma DigitPlain(c: char)
    requires IsDigit(c, 16)
    ensures !IsSpace(c) && c != 'x' && c != 'X'
  {
  }

  /** An unsigned field with its prefix, taken apart into blanks and what follows them. */
  lemma FieldParts(width: int, padc: char, ladjust: bool, prefix: string, digits: string) returns (a: int, rest: string)
    requires |digits| > 0
    ensures Format.Field(width, padc, ladjust, "", prefix, digits) == Repeat(' ', a) + rest
    ensures |rest| > 0 && rest[0] == (if |prefix| > 0 then prefix[0] else if padc == '0' && width > |digits| then '0' else digits[0])
    ensures |prefix| == 2 ==> At(rest, 1) == prefix[1]
    ensures |prefix| < 2 ==> At(rest, 1) in {'0', ' ', '\0'} || At(rest, 1) in digits
  {
    var missing := width - |prefix| - |digits|;
    a := if padc == ' ' && !ladjust then missing else 0;
    var z, b := if padc == '0' then missing else 0, if padc == ' ' && ladjust then missing else 0;
    rest := prefix + Repeat('0', z) + digits + Repeat(' ', b);
    RestStarts(prefix, z, digits, b);
    assert Format.Field(width, padc, ladjust, "", prefix, digits) == Repeat(' ', a) + rest;
  }

  lemma RestStarts(prefix: string, z: int, digits: string, b: int)
    requires |digits| > 0
    ensures var rest := prefix + Repeat('0', z) + digits + Repeat(' ', b);
      && |rest| > 0 && rest[0] == (if |prefix| > 0 then prefix[0] else if z > 0 then '0' else digits[0])
      && (|prefix| == 2 ==> At(rest, 1) == prefix[1])
      && (|prefix| < 2 ==> At(rest, 1) in {'0', ' ', '\0'} || At(rest, 1) in digits)
  {
    SecondChar(Repeat('0', z), digits, Repeat(' ', b), if |prefix| < 2 then 1 - |prefix| else 0);
    var rest := prefix + Repeat('0', z) + digits + Repeat(' ', b);
    assert rest == prefix + (Repeat('0', z) + digits + Repeat(' ', b));
  }

  lemma SecondChar(zeros: string, digits: string, blanks: string, i: nat)
    requires (forall k :: 0 <= k < |zeros| ==> zeros[k] == '0') && forall k :: 0 <= k < |blanks| ==> blanks[k] == ' '
    ensures var c := At(zeros + digits + blanks, i); c in {'0', ' ', '\0'} || c in digits
  {
  }

  /** With base 0 the field is read in the base that its first characters show. */
  lemma ShownBase(width: int, padc: char, ladjust: bool, prefix: string, digits: string, base: nat)
    requires |digits| > 0 && AllDigits(digits, 16) && (prefix == "" || prefix == "0" || prefix == "0x")
    requires base == if prefix == "0x" then 16 else if prefix == "0" || digits[0] == '0' || (padc == '0' && width > |digits|) then 8 else 10
    ensures var f := Format.Field(width, padc, ladjust, "", prefix, digits); Parsed(f, 0) == Parsed(f, base)
  {
    var f := Format.Field(width, padc, ladjust, "", prefix, digits);
    var a, rest := FieldParts(width, padc, ladjust, prefix, digits);
    assert IsDigit(digits[0], 16);
    DigitPlain(digits[0]);
    if At(rest, 1) in digits {
      var i :| 0 <= i < |digits| && digits[i] == At(rest, 1);
      assert IsDigit(digits[i], 16);
      DigitPlain(digits[i]);
    }
    BlanksSkipped(f, a, rest);
    AnyBase(f, Repeat(' ', a), base);
  }

  lemma DigitsIn16(s: string, base: nat)
    requires AllDigits(s, base) && base <= 16
    ensures AllDigits(s, 16)
  {
  }

  /** The decimal digits of a number get zeros in front of them. */
  predicate ZeroFilled(u: nat, base: nat, width: int, padc: char)
    requires 2 <= base <= 16
  {
    base == 10 && padc == '0' && width > |Digits(u, 10)|
  }

  /** With base 0 strtoul reads back octal and hexadecimal fields that show their base, and decimal ones without zeros in front. */
  lemma ReadsBase0(u: nat, base: nat, width: int, padc: char, ladjust: bool)
    requires u < 0x1_0000_0000 && base in {8, 10, 16} && !ZeroFilled(u, base, width, padc)
    ensures Parsed(Format.Field(width, padc, ladjust, "", Format.PrefixOf(u, base, true), Digits(u, base)), 0) == u
  {
    var prefix, digits := Format.PrefixOf(u, base, true), Digits(u, base);
    FirstDigit(u, base);
    DigitsIn16(digits, base);
    var shown := if u == 0 then 8 else base;
    ShownBase(width, padc, ladjust, prefix, digits, shown);
    if u == 0 { assert Digits(0, 8) == digits; }
    ReadsFieldBack(u, shown, width, padc, ladjust, true);
  }

  lemma {:induction false} SmallerBase(s: string)
    requires AllDigits(s, 8)
    ensures AllDigits(s, 10) && Value(s, 8) <= Value(s, 10)
    ensures |s| >= 2 && DigitValue(s[0]) > 0 ==> Value(s, 8) < Value(s, 10)
  {
    if |s| > 0 {
      var p := s[..|s| - 1];
      SmallerBase(p);
      if |p| > 0 && DigitValue(s[0]) > 0 { PositiveValue(p); }
    }
  }

  lemma {:induction false} PositiveValue(s: string)
    requires AllDigits(s, 10) && |s| > 0 && DigitValue(s[0]) > 0
    ensures Value(s, 10) > 0
  {
    if |s| > 1 { PositiveValue(s[..|s| - 1]); }
  }

  lemma {:induction false} PrefixValue(s: string, m: nat)
    requires AllDigits(s, 10) && m < |s| && Value(s, 10) > 0
    ensures AllDigits(s[..m], 10) && Value(s[..m], 10) < Value(s, 10)
  {
    var p := s[..|s| - 1];
    assert AllDigits(p, 10);
    if m < |p| {
      assert p[..m] == s[..m];
      if Value(p, 10) > 0 { PrefixValue(p, m); } else { ZeroPrefix(p, m); }
    } else {
      assert p == s[..m];
    }
  }

  lemma {:induction false} ZeroPrefix(s: string, m: nat)
    requires AllDigits(s, 10) && m <= |s| && Value(s, 10) == 0
    ensures AllDigits(s[..m], 10) && Value(s[..m], 10) == 0
  {
    if m < |s| {
      var p := s[..|s| - 1];
      assert AllDigits(p, 10) && p[..m] == s[..m];
      ZeroPrefix(p, m);
    } else {
      assert s[..m] == s;
    }
  }

  /** Decimal digits read in base 8, as far as they go, fall short from 8 on. */
  lemma OctalShort(u: nat, m: nat)
    requires u >= 8 && m <= |Digits(u, 10)| && AllDigits(Digits(u, 10)[..m], 8)
    ensures Value(Digits(u, 10)[..m], 8) < u
  {
    var ds := Digits(u, 10);
    DigitsValue(u, 10);
    if m < |ds| {
      SmallerBase(ds[..m]);
      PrefixValue(ds, m);
    } else {
      assert ds[..m] == ds;
      WholeShort(u);
    }
  }

  lemma WholeShort(u: nat)
    requires u >= 8 && AllDigits(Digits(u, 10), 8)
    ensures Value(Digits(u, 10), 8) < u
  {
    var ds := Digits(u, 10);
    DigitsValue(u, 10);
    FirstDigit(u, 10);
    OneDigit(u);
    assert IsDigit(ds[0], 10) && IsDigit(ds[0], 8);
    SmallerBase(ds);
  }

  lemma OneDigit(u: nat)
    ensures u < 10 <==> |Digits(u, 10)| == 1
    ensures u < 10 ==> DigitValue(Digits(u, 10)[0]) == u
  {
    if u >= 10 { Shrinks(u, 10); DigitsValue(u / 10, 10); } else { DigitRoundTrip(u); }
  }

  /** Octal digits after zeros are read with them, as far as they go. */
  lemma FilledRun(f: string, z: nat, ds: string) returns (m: nat)
    requires f == Repeat('0', z) + ds && z > 0
    ensures m <= |ds| && RunEnd(f, 0, 8) == z + m && AllDigits(ds[..m], 8)
    ensures AllDigits(f[0..z + m], 8) && Value(f[0..z + m], 8) == Value(ds[..m], 8)
  {
    m := RunEnd(f, z, 8) - z;
    assert f[z..z + m] == ds[..m];
    ZerosRun(f, z);
    LeadingZeros(z, ds[..m], 8);
    assert f[0..z + m] == Repeat('0', z) + ds[..m];
  }

  /** A decimal number filled with zeros is read in base 8. */
  lemma FilledValue(u: nat, width: int, ladjust: bool) returns (m: nat)
    requires u < 0x1_0000_0000 && ZeroFilled(u, 10, width, '0')
    ensures m <= |Digits(u, 10)| && AllDigits(Digits(u, 10)[..m], 8)
    ensures Parsed(Format.Field(width, '0', ladjust, "", "", Digits(u, 10)), 0) == W32(Value(Digits(u, 10)[..m], 8))
  {
    var ds := Digits(u, 10);
    var f := Format.Field(width, '0', ladjust, "", "", ds);
    FilledField(width, ladjust, ds);
    FirstDigit(u, 10);
    DigitsIn16(ds, 10);
    ShownBase(width, '0', ladjust, "", ds, 8);
    m := FilledRead(f, width - |ds|, ds);
  }

  lemma FilledRead(f: string, z: nat, ds: string) returns (m: nat)
    requires f == Repeat('0', z) + ds && z > 0
    ensures m <= |ds| && AllDigits(ds[..m], 8) && Parsed(f, 8) == W32(Value(ds[..m], 8))
  {
    m := FilledRun(f, z, ds);
    ReadFrom0(f, z + m);
  }

  lemma FilledField(width: int, ladjust: bool, ds: string)
    requires width > |ds|
    ensures var f := Format.Field(width, '0', ladjust, "", "", ds);
      f == Repeat('0', width - |ds|) + ds && |f| > 0 && f[0] == '0'
  {
  }

  lemma ReadFrom0(f: string, k: nat)
    requires |f| > 0 && f[0] == '0' && RunEnd(f, 0, 8) == k
    ensures Parsed(f, 8) == W32(Value(f[0..k], 8))
  {
  }

  lemma ZerosRun(f: string, z: nat)
    requires z <= |f| && forall k :: 0 <= k < z ==> f[k] == '0'
    ensures RunEnd(f, 0, 8) == RunEnd(f, z, 8)
  {
    ZerosRunFrom(f, 0, z);
  }

  lemma {:induction false} ZerosRunFrom(f: string, i: nat, z: nat)
    requires i <= z <= |f| && forall k :: 0 <= k < z ==> f[k] == '0'
    ensures RunEnd(f, i, 8) == RunEnd(f, z, 8)
    decreases z - i
  {
    if i < z { ZerosRunFrom(f, i + 1, z); }
  }

  /** The exact condition: it comes back if and only if it is below 8. */
  lemma ZeroFilledTrap(u: nat, width: int, ladjust: bool)
    requires u < 0x1_0000_0000 && ZeroFilled(u, 10, width, '0')
    ensures Parsed(Format.Field(width, '0', ladjust, "", "", Digits(u, 10)), 0) == u <==> u < 8
  {
    if u < 8 {
      assert Digits(u, 10) == Digits(u, 8);
      FirstDigit(u, 8);
      DigitsIn16(Digits(u, 8), 8);
      ShownBase(width, '0', ladjust, "", Digits(u, 8), 8);
      ReadsFieldBack(u, 8, width, '0', ladjust, false);
    } else {
      var m := FilledValue(u, width, ladjust);
      OctalShort(u, m);
      WholeWord(Value(Digits(u, 10)[..m], 8));
    }
  }
}
