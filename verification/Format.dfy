/**
 * Number output: printnum, and the field logic of the formatter's print_num.
 */
module Format {
  import opened Bits
  import opened Numerals

  // ----- digits

  /** The digits written backwards into a 32-byte buffer, from `p` + 1 on. */
  method FillDigits(u0: nat, base: nat) returns (buf: array<char>, p: int)
    requires 2 <= base <= 16 && u0 < Pow(base, 32)
    ensures buf.Length == 32 && -1 <= p < 31 && buf[p + 1..] == Digits(u0, base)
  {
    DigitsFit(u0, base, 32);
    buf := new char[32];
    var u;
    p, u := 31, u0;
    u, p := WriteDigit(buf, p, u, base, Digits(u0, base));
    while u != 0
      invariant -1 <= p < 31 && Rest(buf, p, u, base, Digits(u0, base))
      decreases u
    {
      u, p := WriteDigit(buf, p, u, base, Digits(u0, base));
    }
  }

  /** What is still to be written, followed by what is in the buffer. */
  ghost predicate Rest(buf: array<char>, p: int, u: nat, base: nat, all: string)
    requires 2 <= base <= 16
    reads buf
  {
    && buf.Length == 32 && -1 <= p < 32 && |all| <= 32
    && all == (if u == 0 then [] else Digits(u, base)) + buf[p + 1..]
  }

  lemma DigitsSplit(u: nat, base: nat)
    requires 2 <= base <= 16
    ensures u / base >= 0 && u % base < base && (u > 0 ==> u / base < u)
    ensures Digits(u, base) == (if u / base == 0 then [] else Digits(u / base, base)) + [DigitChar(u % base)]
    ensures |Digits(u, base)| >= 1
  {
    if u < base { Small(u, base); } else { Shrinks(u, base); }
  }

  method WriteDigit(buf: array<char>, p0: int, u0: nat, base: nat, ghost all: string) returns (u: nat, p: int)
    requires buf.Length == 32 && 2 <= base <= 16 && |all| <= 32 && -1 <= p0 < 32
    requires all == Digits(u0, base) + buf[p0 + 1..]
    modifies buf
    ensures p == p0 - 1 && -1 <= p && Rest(buf, p, u, base, all) && (u0 > 0 ==> u < u0)
  {
    DigitsSplit(u0, base);
    ghost var tail := buf[p0 + 1..];
    buf[p0] := DigitChar(u0 % base);
    assert buf[p0..] == [DigitChar(u0 % base)] + tail;
    u, p := u0 / base, p0 - 1;
  }

  /** printnum. */
  method PrintNum(u: nat, base: nat) returns (out: string)
    requires 2 <= base <= 16 && u < Pow(base, 32)
    ensures out == Digits(u, base)
  {
    var buf, p := FillDigits(u, base);
    out := Copy(buf, p);
  }

  method Copy(buf: array<char>, p0: int) returns (out: string)
    requires -1 <= p0 < buf.Length
    ensures out == buf[p0 + 1..]
  {
    var p := p0 + 1;
    out := [];
    while p != buf.Length
      invariant p0 + 1 <= p <= buf.Length && out == buf[p0 + 1..p]
    {
      out := out + [buf[p]];
      p := p + 1;
    }
  }

  /** Every 32-bit number fits the buffer in every base. */
  lemma WordsFit(u: nat, base: nat)
    requires u < 0x1_0000_0000 && 2 <= base
    ensures u < Pow(base, 32)
  {
    PowMonotone(2, base, 32);
    assert Pow(2, 8) == 256;
    assert Pow(2, 16) == 65536;
    assert Pow(2, 24) == 0x100_0000;
  }

  lemma SmallPowers()
    ensures Pow(2, 32) == 0x1_0000_0000 && Pow(3, 32) == 1853020188851841 && Pow(4, 32) == 0x1_0000_0000_0000_0000
  {
    assert Pow(2, 4) == 16 && Pow(3, 4) == 81 && Pow(4, 4) == 256;
    PowDoubles(2, 16);
    PowDoubles(3, 81);
    PowDoubles(4, 256);
  }

  lemma PowDoubles(b: nat, x: nat)
    requires Pow(b, 4) == x
    ensures Pow(b, 32) == ((x * x) * (x * x)) * ((x * x) * (x * x))
  {
    PowDouble(b, 4);
    PowDouble(b, 8);
    PowDouble(b, 16);
  }

  /** Every 64-bit number fits it in exactly the bases from 4 on. */
  lemma LongWordsFit(base: nat)
    requires 2 <= base <= 16
    ensures (forall u: nat :: u < 0x1_0000_0000_0000_0000 ==> |Digits(u, base)| <= 32) <==> base >= 4
  {
    SmallPowers();
    if base >= 4 {
      PowMonotone(4, base, 32);
      forall u: nat | u < 0x1_0000_0000_0000_0000 ensures |Digits(u, base)| <= 32 {
        DigitsFit(u, base, 32);
      }
    } else {
      DigitsFit(0xffff_ffff_ffff_ffff, base, 32);
    }
  }

  // ----- a field

  /** A padded number: blanks before it, zeros after sign and prefix, or blanks at the end. */
  ghost function Field(width: int, padc: char, ladjust: bool, sign: string, prefix: string, digits: string): string
  {
    var missing := width - |sign| - |prefix| - |digits|;
    var before, zeros, after := padc == ' ' && !ladjust, padc == '0', padc == ' ' && ladjust;
    Repeat(' ', if before then missing else 0) + sign + prefix + Repeat('0', if zeros then missing else 0) + digits
      + Repeat(' ', if after then missing else 0)
  }

  lemma FieldLength(width: int, padc: char, ladjust: bool, sign: string, prefix: string, digits: string)
    requires padc == ' ' || padc == '0'
    ensures var n := |sign| + |prefix| + |digits|;
      |Field(width, padc, ladjust, sign, prefix, digits)| == if width > n then width else n
  {
  }

  /** All of `s` from `i` up to `j` is `c`. */
  predicate Filled(s: string, i: int, j: int, c: char) { forall k :: 0 <= k < |s| && i <= k < j ==> s[k] == c }

  /**
   * On which side the padding goes: blanks before everything, or after everything if adjusted to the
   * left; zeros between sign and prefix on one side and the digits on the other.
   */
  lemma FieldSides(width: int, padc: char, ladjust: bool, sign: string, prefix: string, digits: string)
    requires padc == ' ' || padc == '0'
    ensures var f, body := Field(width, padc, ladjust, sign, prefix, digits), sign + prefix + digits;
      && |f| >= |body|
      && (padc == ' ' && !ladjust ==> f[|f| - |body|..] == body && Filled(f, 0, |f| - |body|, ' '))
      && (padc == ' ' && ladjust ==> f[..|body|] == body && Filled(f, |body|, |f|, ' '))
      && (padc == '0' ==> f[..|sign| + |prefix|] == sign + prefix && f[|f| - |digits|..] == digits
                          && Filled(f, |sign| + |prefix|, |f| - |digits|, '0'))
  {
    var missing := width - |sign| - |prefix| - |digits|;
    var f, body := Field(width, padc, ladjust, sign, prefix, digits), sign + prefix + digits;
    if padc == '0' {
      assert f == sign + prefix + Repeat('0', missing) + digits;
    } else if ladjust {
      assert f == body + Repeat(' ', missing);
    } else {
      assert f == Repeat(' ', missing) + body;
    }
  }

  function PrefixOf(u: nat, base: nat, altfmt: bool): string
  {
    if u == 0 || !altfmt then "" else if base == 8 then "0" else if base == 16 then "0x" else ""
  }

  /** while (--length >= 0) putc(c), when the padding is wanted here. */
  method Pad(out0: string, length0: int, c: char, here: bool) returns (out: string, length: int)
    ensures out == out0 + Repeat(c, if here then length0 else 0)
    ensures length == if !here then length0 else if length0 >= 0 then -1 else length0 - 1
  {
    out, length := out0, length0;
    if here {
      length := length - 1;
      while length >= 0
        invariant length0 > 0 ==> -1 <= length < length0 && out == out0 + Repeat(c, length0 - 1 - length)
        invariant length0 <= 0 ==> length == length0 - 1 && out == out0
        decreases length
      {
        out, length := out + [c], length - 1;
        assert out == out0 + Repeat(c, length0 - 1 - length);
      }
    }
  }

  /** The parts of a field in the order they are put out. */
  method Emit(width: int, padc: char, ladjust: bool, sign: string, prefix: string, digits: string) returns (out: string)
    requires padc == ' ' || padc == '0'
    ensures out == Field(width, padc, ladjust, sign, prefix, digits)
  {
    var length := width - |digits| - |sign| - |prefix|;
    out, length := Pad([], length, ' ', padc == ' ' && !ladjust);
    out := out + sign + prefix;
    out, length := Pad(out, length, '0', padc == '0');
    out := out + digits;
    out, length := Pad(out, length, ' ', ladjust);
  }

  /** print_num: `sign` is empty or one character. */
  method PrintField(u: nat, base: nat, width: int, padc: char, ladjust: bool, sign: string, altfmt: bool) returns (out: string)
    requires 2 <= base <= 16 && u < Pow(base, 32) && (padc == ' ' || padc == '0') && |sign| <= 1
    ensures out == Field(width, padc, ladjust, sign, PrefixOf(u, base, altfmt), Digits(u, base))
    ensures !altfmt || u == 0 || (base != 8 && base != 16) ==> out == Field(width, padc, ladjust, sign, "", Digits(u, base))
    ensures altfmt && u != 0 && base == 8 ==> out == Field(width, padc, ladjust, sign, "0", Digits(u, base))
    ensures altfmt && u != 0 && base == 16 ==> out == Field(width, padc, ladjust, sign, "0x", Digits(u, base))
  {
    var buf, p := FillDigits(u, base);
    var digits := Copy(buf, p);
    out := Emit(width, padc, ladjust, sign, PrefixOf(u, base, altfmt), digits);
  }
}
