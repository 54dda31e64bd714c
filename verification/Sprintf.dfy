/**
 * sprintf and snprintf: the formatter hands its characters one by one to a sink that may stop
 * storing them. `text` is what the formatter puts out, which does not depend on the sink.
 */
module Sprintf {
  import opened Bits

  /** The sink of one call: what has been stored, and the unsigned limit, all ones for none. */
  class Sink {
    var buf: string
    var len: nat
    const max: nat

    constructor (limit: nat)
      ensures buf == "" && len == 0 && max == limit
    {
      buf, len, max := "", 0, limit;
    }

    ghost predicate Valid()
      reads this
    {
      len == |buf|
    }

    /** savechar. */
    method SaveChar(c: char)
      requires Valid()
      modifies this
      ensures Valid() && buf == if max != 0xffff_ffff && old(|buf|) == max then old(buf) else old(buf) + [c]
    {
      if max != 0xffff_ffff {
        if len == max {
          return;
        }
      }
      len := len + 1;
      buf := buf + [c];
    }

    /** The formatter's output, character by character. */
    method SaveAll(text: string)
      requires Valid() && buf == ""
      modifies this
      ensures Valid() && buf == Stored(text, max)
    {
      var i := 0;
      while i < |text|
        invariant 0 <= i <= |text| && Valid() && buf == Stored(text[..i], max)
      {
        SaveChar(text[i]);
        i := i + 1;
      }
      assert text[..i] == text;
    }
  }

  ghost function Stored(text: string, max: nat): string
  {
    if max == 0xffff_ffff || |text| <= max then text else text[..max]
  }

  /** vsprintf: the string with its terminating null, and the length returned. */
  method VSprintf(text: string) returns (s: string, n: nat)
    ensures s == text + "\0" && n == |text|
  {
    var sink := new Sink(0xffff_ffff);
    sink.SaveAll(text);
    s, n := sink.buf + "\0", sink.len;
  }

  /** vsnprintf: at most size - 1 characters and a null; a size of 0 or less means no limit at all. */
  method VSnprintf(size: int, text: string) returns (s: string, n: nat)
    requires -0x8000_0000 < size < 0x8000_0000 && |text| < 0x8000_0000
    ensures size >= 1 ==> s == (if |text| < size then text else text[..size - 1]) + "\0" && |s| <= size
    ensures size <= 0 ==> s == text + "\0"
    ensures n == |s| - 1 && (|s| <= size <==> size >= 1)
  {
    var sink := new Sink(W32(size - 1));
    sink.SaveAll(text);
    s, n := sink.buf + "\0", sink.len;
  }
}
