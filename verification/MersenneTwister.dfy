/**
 * The MT19937 generator: a block of 624 words rewritten in place, whose outputs are the tempered
 * terms of an infinite recurrence, and the tempering, which is a bijection of 32-bit words.
 */
module MersenneTwister {

  type Word = bv32

  // ----- the recurrence

  function Twist(u: Word, v: Word): Word
  {
    var y: Word := (u & 0x8000_0000) | (v & 0x7fff_ffff);
    (y >> 1) ^ (if y & 1 == 0 then 0 else 0x9908_b0df)
  }

  /** The word that follows: `u` and `v` are 624 and 623 places back, `m` is 227 places back. */
  function Mix(m: Word, u: Word, v: Word): Word { m ^ Twist(u, v) }

  function SeedNext(w: Word): Word { 69069 * w }

  /** Term `k` of the sequence a seed determines. */
  ghost function X(seed: Word, k: nat): Word
  {
    if k == 0 then seed
    else if k < 624 then SeedNext(X(seed, k - 1))
    else Mix(X(seed, k - 227), X(seed, k - 624), X(seed, k - 623))
  }

  lemma Recurrence(seed: Word, k: nat)
    ensures X(seed, k + 624) == Mix(X(seed, k + 397), X(seed, k), X(seed, k + 1))
  {
  }

  /** Two blocks' worth of terms from `start` on. */
  ghost function Window(seed: Word, start: nat): (x: seq<Word>)
    ensures |x| == 1248 && forall i :: 0 <= i < 1248 ==> x[i] == X(seed, start + i)
  {
    seq(1248, i requires 0 <= i => X(seed, start + i))
  }

  ghost predicate Recurs(x: seq<Word>)
    requires |x| == 1248
  {
    forall k :: 0 <= k < 624 ==> Follows(x, k)
  }

  ghost predicate Follows(x: seq<Word>, k: int)
    requires |x| == 1248 && 0 <= k < 624
  {
    x[k + 624] == Mix(x[k + 397], x[k], x[k + 1])
  }

  lemma RecursAt(x: seq<Word>, k: int)
    requires |x| == 1248 && 0 <= k < 624 && Recurs(x)
    ensures x[k + 624] == Mix(x[k + 397], x[k], x[k + 1])
  {
    assert Follows(x, k);
  }

  lemma WindowRecurs(seed: Word, start: nat)
    ensures Recurs(Window(seed, start))
  {
    var x := Window(seed, start);
    forall k | 0 <= k < 624 ensures Follows(x, k) {
      Recurrence(seed, start + k);
    }
  }

  ghost predicate SeededBy(x: seq<Word>)
    requires |x| == 1248
  {
    forall k :: 1 <= k < 624 ==> Grows(x, k)
  }

  ghost predicate Grows(x: seq<Word>, k: int)
    requires |x| == 1248 && 1 <= k < 624
  {
    x[k] == SeedNext(x[k - 1])
  }

  lemma SeededAt(x: seq<Word>, k: int)
    requires |x| == 1248 && 1 <= k < 624 && SeededBy(x)
    ensures x[k] == SeedNext(x[k - 1])
  {
    assert Grows(x, k);
  }

  lemma WindowSeeded(seed: Word)
    ensures SeededBy(Window(seed, 0)) && Window(seed, 0)[0] == seed
  {
    var x := Window(seed, 0);
    forall k | 1 <= k < 624 ensures Grows(x, k) {
      assert X(seed, k) == SeedNext(X(seed, k - 1));
    }
  }

  class Generator {
    const mt: array<Word>
    var mti: int
    /** The seed in use, and which term of its sequence mt[0] is. */
    ghost var seed: Word
    ghost var start: nat

    constructor ()
      ensures Valid() && mti == 625 && fresh(mt)
    {
      mt := new Word[624];
      mti := 625;
    }

    ghost predicate Valid()
      reads this, mt
    {
      mt.Length == 624 && 0 <= mti <= 625 && (mti < 624 ==> start >= 624) && (mti <= 624 ==> Block())
    }

    ghost predicate Block()
      requires mt.Length == 624
      reads this, mt
    {
      forall i :: 0 <= i < 624 ==> mt[i] == X(seed, start + i)
    }

    /** Words below `n` are those of the second half of `x`, the others still of the first. */
    ghost predicate Partly(x: seq<Word>, n: int)
      requires mt.Length == 624 && |x| == 1248
      reads mt
    {
      && (forall i :: 0 <= i < n && i < 624 ==> mt[i] == x[624 + i])
      && forall i :: n <= i < 624 && 0 <= i ==> mt[i] == x[i]
    }

    /** How many numbers have been drawn since seeding. */
    ghost function Drawn(): int
      reads this
    {
      if mti == 625 then 0 else start + mti - 624
    }

    /** The word the seeding puts next. */
    method NextSeed(k: nat, ghost x: seq<Word>) returns (w: Word)
      requires mt.Length == 624 && 1 <= k < 624 && |x| == 1248 && mt[k - 1] == x[k - 1] && x[k] == SeedNext(x[k - 1])
      ensures w == x[k]
    {
      w := SeedNext(mt[k - 1]);
    }

    /** The loop of the seeding. */
    method Fill(ghost x: seq<Word>)
      requires mt.Length == 624 && |x| == 1248 && mt[0] == x[0] && SeededBy(x)
      modifies this`mti, mt
      ensures mti == 624 && forall i :: 0 <= i < 624 ==> mt[i] == x[i]
    {
      mti := 1;
      while mti < 624
        invariant 1 <= mti <= 624
        invariant forall i :: 0 <= i < mti ==> mt[i] == x[i]
      {
        SeededAt(x, mti);
        var w := NextSeed(mti, x);
        mt[mti] := w;
        mti := mti + 1;
      }
    }

    /** sgenrand. */
    method Seed(s: Word)
      requires mt.Length == 624
      modifies this, mt
      ensures Valid() && mti == 624 && seed == s && start == 0
    {
      ghost var x := Window(s, 0);
      WindowSeeded(s);
      seed, start := s, 0;
      mt[0] := s;
      Fill(x);
    }

    /** The next block's word `k`, from words of both blocks. */
    method NextWord(k: nat, m: nat, v: nat, ghost x: seq<Word>) returns (w: Word)
      requires mt.Length == 624 && k < 624 && |x| == 1248 && Partly(x, k)
      requires m == (if k < 227 then k + 397 else k - 227) && v == (if k < 623 then k + 1 else 0)
      requires x[k + 624] == Mix(x[k + 397], x[k], x[k + 1])
      ensures w == x[k + 624]
    {
      assert mt[m] == x[k + 397] && mt[v] == x[k + 1] && mt[k] == x[k];
      w := Mix(mt[m], mt[k], mt[v]);
    }

    method Put(k: nat, w: Word, ghost x: seq<Word>)
      requires mt.Length == 624 && k < 624 && |x| == 1248 && Partly(x, k) && w == x[k + 624]
      modifies mt
      ensures Partly(x, k + 1)
    {
      mt[k] := w;
    }

    method Rewrite(k: nat, m: nat, v: nat, ghost x: seq<Word>)
      requires mt.Length == 624 && k < 624 && |x| == 1248 && Partly(x, k) && Recurs(x)
      requires m == (if k < 227 then k + 397 else k - 227) && v == (if k < 623 then k + 1 else 0)
      modifies mt
      ensures Partly(x, k + 1)
    {
      RecursAt(x, k);
      var w := NextWord(k, m, v, x);
      Put(k, w, x);
    }

    /** The block rewritten in place, in the three index ranges of the source. */
    method RewriteAll(ghost x: seq<Word>)
      requires mt.Length == 624 && |x| == 1248 && Partly(x, 0) && Recurs(x)
      modifies mt
      ensures Partly(x, 624)
    {
      var k := 0;
      while k < 227
        invariant 0 <= k <= 227 && Partly(x, k)
      {
        Rewrite(k, k + 397, k + 1, x);
        k := k + 1;
      }
      while k < 623
        invariant 227 <= k <= 623 && Partly(x, k)
      {
        Rewrite(k, k - 227, k + 1, x);
        k := k + 1;
      }
      Rewrite(623, 396, 0, x);
    }

    method NextBlock()
      requires mt.Length == 624 && Block()
      modifies mt, this`start
      ensures Block() && start == old(start) + 624
    {
      ghost var x := Window(seed, start);
      WindowRecurs(seed, start);
      RewriteAll(x);
      start := start + 624;
    }

    method Output(y: Word, ghost x: Word) returns (r: Word)
      requires y == x
      ensures r == Temper(x) && Tempered(x, r)
    {
      r := Temper(y);
      TemperBits(x);
    }

    /** Nothing left of the block: the next one, or the first one of the default seed. */
    method Refill()
      requires Valid() && mti >= 624
      modifies this, mt
      ensures Valid() && mti == 0 && start == 624 + old(Drawn())
      ensures seed == (if old(mti) == 625 then 4357 else old(seed))
    {
      if mti == 625 {
        Seed(4357);
      }
      NextBlock();
      mti := 0;
    }

    method Take(ghost n: nat) returns (r: Word)
      requires Valid() && mti < 624 && n == start + mti
      modifies this`mti
      ensures Valid() && mti == old(mti) + 1
      ensures r == Temper(X(seed, n)) && Tempered(X(seed, n), r)
    {
      r := Output(mt[mti], X(seed, n));
      mti := mti + 1;
    }

    /** genrand: the n-th number drawn is the tempered term 624 + n. */
    method Draw() returns (r: Word)
      requires Valid()
      modifies this, mt
      ensures Valid() && seed == (if old(mti) == 625 then 4357 else old(seed))
      ensures r == Temper(X(seed, 624 + old(Drawn()))) && Drawn() == old(Drawn()) + 1
      ensures Tempered(X(seed, 624 + old(Drawn())), r)
    {
      ghost var n := 624 + Drawn();
      if mti >= 624 {
        Refill();
      }
      r := Take(n);
    }
  }

  // ----- tempering

  function Stage1(y: Word): Word { y ^ (y >> 11) }
  function Left7(y: Word): Word { (y << 7) & 0x9d2c_5680 }
  function Stage2(y: Word): Word { y ^ Left7(y) }
  function Stage3(y: Word): Word { y ^ ((y << 15) & 0xefc6_0000) }
  function Stage4(y: Word): Word { y ^ (y >> 18) }

  function Temper(y: Word): Word { Stage4(Stage3(Stage2(Stage1(y)))) }

  function Undo1(z: Word): Word { z ^ (z >> 11) ^ (z >> 22) }
  function Undo2(z: Word): Word { Again2(z, Again2(z, Again2(z, Again2(z, z)))) }
  function Again2(z: Word, y: Word): Word { z ^ Left7(y) }

  function Untemper(z: Word): Word { Undo1(Undo2(Stage3(Stage4(z)))) }

  lemma Shift11(y: Word)
    ensures (y ^ (y >> 11)) ^ ((y ^ (y >> 11)) >> 11) ^ ((y ^ (y >> 11)) >> 22) == y
    ensures (y ^ (y >> 11) ^ (y >> 22)) ^ ((y ^ (y >> 11) ^ (y >> 22)) >> 11) == y
  {
  }

  lemma Stage1Undone(y: Word)
    ensures Undo1(Stage1(y)) == y
  {
    Shift11(y);
    assert Stage1(y) == y ^ (y >> 11);
    assert Undo1(y ^ (y >> 11)) == y;
  }

  lemma Stage1Done(y: Word)
    ensures Stage1(Undo1(y)) == y
  {
    Shift11(y);
    assert Undo1(y) == y ^ (y >> 11) ^ (y >> 22);
    assert Stage1(y ^ (y >> 11) ^ (y >> 22)) == y;
  }

  lemma Stage4Undone(y: Word)
    ensures Stage4(Stage4(y)) == y
  {
    assert Stage4(y) == y ^ (y >> 18);
    assert Stage4(y ^ (y >> 18)) == y;
  }

  lemma Left7Xor(a: Word, b: Word)
    ensures Left7(a ^ b) == Left7(a) ^ Left7(b)
  {
  }

  /** Five shifts by 7 leave nothing of a word. */
  lemma Left7Vanishes(y: Word)
    ensures Left7(Left7(Left7(Left7(Left7(y))))) == 0
  {
  }

  lemma XorZero(a: Word, b: Word)
    ensures a ^ 0 == a && (a ^ b == 0 ==> a == b) && (a ^ b) ^ b == a
  {
  }

  /** Each repetition pushes the error 7 places to the left. */
  lemma ErrorShifts(y: Word, e: Word)
    ensures Again2(y ^ Left7(y), y ^ e) == y ^ Left7(e)
  {
  }

  lemma Stage2Undone(y: Word)
    ensures Undo2(Stage2(y)) == y
  {
    var e := Left7(y);
    ErrorShifts(y, e);
    ErrorShifts(y, Left7(e));
    ErrorShifts(y, Left7(Left7(e)));
    ErrorShifts(y, Left7(Left7(Left7(e))));
    Left7Vanishes(y);
    XorZero(y, y);
  }

  lemma DifferenceShifts(z: Word, a: Word, b: Word)
    ensures Again2(z, a) ^ Again2(z, b) == Left7(a ^ b)
  {
    Left7Xor(a, b);
    XorCancel(z, Left7(a), Left7(b));
  }

  lemma XorCancel(z: Word, a: Word, b: Word)
    ensures (z ^ a) ^ (z ^ b) == a ^ b
  {
  }

  lemma Stage2Done(z: Word)
    ensures Stage2(Undo2(z)) == z
  {
    var a := Again2(z, z);
    var b := Again2(z, a);
    var c := Again2(z, b);
    var d := Again2(z, c);
    XorBack(z, Left7(z));
    DifferenceShifts(z, a, z);
    DifferenceShifts(z, b, a);
    DifferenceShifts(z, c, b);
    Left7Vanishes(z);
    Left7Xor(d, c);
    XorZero(Left7(d), Left7(c));
    XorZero(z, Left7(d));
  }

  lemma XorBack(z: Word, g: Word)
    ensures (z ^ g) ^ z == g
  {
  }

  lemma Stage3Undone(y: Word)
    ensures Stage3(Stage3(y)) == y
  {
  }

  /** Tempering is a bijection. */
  lemma TemperBijective(y: Word)
    ensures Untemper(Temper(y)) == y && Temper(Untemper(y)) == y
  {
    Stage4Undone(Stage3(Stage2(Stage1(y))));
    Stage3Undone(Stage2(Stage1(y)));
    Stage2Undone(Stage1(y));
    Stage1Undone(y);
    Stage1Done(Undo2(Stage3(Stage4(y))));
    Stage2Done(Stage3(Stage4(y)));
    Stage3Undone(Stage4(y));
    Stage4Undone(y);
  }

  // ----- the same numbers bit by bit

  predicate Bit(w: Word, i: Word)
    requires i < 32
  {
    (w >> i) & 1 == 1
  }

  /** The bits that the feedback sets, and those that the two shifts to the left reach. */
  predicate Feedback(i: Word) { i in {0, 1, 2, 3, 4, 6, 7, 12, 13, 15, 19, 24, 27, 28, 31} }
  predicate Reach7(i: Word) { i in {7, 9, 10, 12, 14, 18, 19, 21, 24, 26, 27, 28, 31} }
  predicate Reach15(i: Word) { i in {17, 18, 22, 23, 24, 25, 26, 27, 29, 30, 31} }

  /**
   * Bit `i` of a term, from the terms 227, 624 and 623 places back: the first's, exclusive-or that of
   * the word joined from bit 31 of the second and the other bits of the third and shifted right by one,
   * exclusive-or the feedback if the third is odd.
   */
  predicate NextBit(m: Word, u: Word, v: Word, x: Word, i: Word)
    requires i < 32
  {
    Bit(x, i) == (Bit(m, i) != ((if i == 31 then false else if i == 30 then Bit(u, 31) else Bit(v, i + 1)) != (Bit(v, 0) && Feedback(i))))
  }

  /** Bit `i` of a word shifted right by `n` into itself, and of one shifted left by `n` where it reaches. */
  predicate RightBit(y: Word, z: Word, n: Word, i: Word)
    requires i < 32 && n < 32
  {
    Bit(z, i) == (Bit(y, i) != (i < 32 - n && Bit(y, i + n)))
  }

  predicate LeftBit(y: Word, z: Word, n: Word, reach: bool, i: Word)
    requires i < 32
  {
    Bit(z, i) == (Bit(y, i) != (i >= n && reach && Bit(y, i - n)))
  }

  lemma JoinedBit(m: Word, u: Word, v: Word, x: Word, i: Word)
    requires i < 32 && x == m ^ (((u & 0x8000_0000) | (v & 0x7fff_ffff)) >> 1) ^ (if v & 1 == 0 then 0 else 0x9908_b0df)
    ensures NextBit(m, u, v, x, i)
  {
  }

  lemma JoinedWord(m: Word, u: Word, v: Word)
    ensures Mix(m, u, v) == m ^ (((u & 0x8000_0000) | (v & 0x7fff_ffff)) >> 1) ^ (if v & 1 == 0 then 0 else 0x9908_b0df)
  {
  }

  lemma Right11(y: Word, z: Word, i: Word)
    requires i < 32 && z == y ^ (y >> 11)
    ensures RightBit(y, z, 11, i)
  {
  }

  lemma Right18(y: Word, z: Word, i: Word)
    requires i < 32 && z == y ^ (y >> 18)
    ensures RightBit(y, z, 18, i)
  {
  }

  lemma LeftBy7(y: Word, z: Word, i: Word)
    requires i < 32 && z == y ^ ((y << 7) & 0x9d2c_5680)
    ensures LeftBit(y, z, 7, Reach7(i), i)
  {
  }

  lemma LeftBy15(y: Word, z: Word, i: Word)
    requires i < 32 && z == y ^ ((y << 15) & 0xefc6_0000)
    ensures LeftBit(y, z, 15, Reach15(i), i)
  {
  }

  /** 69069 = 2^16 + 2^11 + 2^10 + 2^8 + 2^7 + 2^6 + 2^3 + 2^2 + 1. */
  function ShiftedSum(w: Word): Word
  {
    w + (w << 2) + (w << 3) + (w << 6) + (w << 7) + (w << 8) + (w << 10) + (w << 11) + (w << 16)
  }

  lemma Multiplied(w: Word)
    ensures 69069 * w == w + (w << 2) + (w << 3) + (w << 6) + (w << 7) + (w << 8) + (w << 10) + (w << 11) + (w << 16)
  {
  }

  lemma SeedSum(w: Word)
    ensures SeedNext(w) == ShiftedSum(w)
  {
    Multiplied(w);
  }

  ghost predicate NextBits(m: Word, u: Word, v: Word, x: Word)
  {
    forall i: Word :: i < 32 ==> NextBit(m, u, v, x, i)
  }

  lemma MixBits(m: Word, u: Word, v: Word)
    ensures NextBits(m, u, v, Mix(m, u, v))
  {
    JoinedWord(m, u, v);
    forall i: Word | i < 32 ensures NextBit(m, u, v, Mix(m, u, v), i) { JoinedBit(m, u, v, Mix(m, u, v), i); }
  }

  /** The sequence in plain terms: multiples of 69069 to begin with, and then bit by bit. */
  lemma Terms(seed: Word, k: nat)
    ensures X(seed, 0) == seed
    ensures 0 < k < 624 ==> X(seed, k) == ShiftedSum(X(seed, k - 1))
    ensures k >= 624 ==> NextBits(X(seed, k - 227), X(seed, k - 624), X(seed, k - 623), X(seed, k))
  {
    if 0 < k < 624 { SeedSum(X(seed, k - 1)); }
    if k >= 624 { MixBits(X(seed, k - 227), X(seed, k - 624), X(seed, k - 623)); }
  }

  /** `z` comes of `y` by four shifts: right by 11, left by 7 and by 15 where they reach, right by 18. */
  ghost predicate Tempered(y: Word, z: Word)
  {
    exists a: Word, b: Word, c: Word :: ShiftedRight(y, a, 11) && Shifted7(a, b) && Shifted15(b, c) && ShiftedRight(c, z, 18)
  }

  ghost predicate ShiftedRight(y: Word, z: Word, n: Word)
    requires n < 32
  {
    forall i: Word :: i < 32 ==> RightBit(y, z, n, i)
  }

  ghost predicate Shifted7(y: Word, z: Word) { forall i: Word :: i < 32 ==> LeftBit(y, z, 7, Reach7(i), i) }
  ghost predicate Shifted15(y: Word, z: Word) { forall i: Word :: i < 32 ==> LeftBit(y, z, 15, Reach15(i), i) }

  lemma Stage1Bits(y: Word)
    ensures ShiftedRight(y, Stage1(y), 11)
  {
    forall i: Word | i < 32 ensures RightBit(y, Stage1(y), 11, i) { Right11(y, Stage1(y), i); }
  }

  lemma Stage2Bits(y: Word)
    ensures Shifted7(y, Stage2(y))
  {
    forall i: Word | i < 32 ensures LeftBit(y, Stage2(y), 7, Reach7(i), i) { LeftBy7(y, Stage2(y), i); }
  }

  lemma Stage3Bits(y: Word)
    ensures Shifted15(y, Stage3(y))
  {
    forall i: Word | i < 32 ensures LeftBit(y, Stage3(y), 15, Reach15(i), i) { LeftBy15(y, Stage3(y), i); }
  }

  lemma Stage4Bits(y: Word)
    ensures ShiftedRight(y, Stage4(y), 18)
  {
    forall i: Word | i < 32 ensures RightBit(y, Stage4(y), 18, i) { Right18(y, Stage4(y), i); }
  }

  lemma TemperBits(y: Word)
    ensures Tempered(y, Temper(y))
  {
    Stage1Bits(y);
    Stage2Bits(Stage1(y));
    Stage3Bits(Stage2(Stage1(y)));
    Stage4Bits(Stage3(Stage2(Stage1(y))));
  }

  predicate Agree(a: Word, b: Word, i: Word)
    requires i < 32
  {
    Bit(a, i) == Bit(b, i)
  }

  /** A word is its bits. */
  lemma BitsDetermine(a: Word, b: Word)
    requires forall i: Word :: i < 32 ==> Agree(a, b, i)
    ensures a == b
  {
    assert Agree(a, b, 0) && Agree(a, b, 1) && Agree(a, b, 2) && Agree(a, b, 3) && Agree(a, b, 4) && Agree(a, b, 5) && Agree(a, b, 6) && Agree(a, b, 7);
    assert Agree(a, b, 8) && Agree(a, b, 9) && Agree(a, b, 10) && Agree(a, b, 11) && Agree(a, b, 12) && Agree(a, b, 13) && Agree(a, b, 14) && Agree(a, b, 15);
    assert Agree(a, b, 16) && Agree(a, b, 17) && Agree(a, b, 18) && Agree(a, b, 19) && Agree(a, b, 20) && Agree(a, b, 21) && Agree(a, b, 22) && Agree(a, b, 23);
    assert Agree(a, b, 24) && Agree(a, b, 25) && Agree(a, b, 26) && Agree(a, b, 27) && Agree(a, b, 28) && Agree(a, b, 29) && Agree(a, b, 30) && Agree(a, b, 31);
  }

  // ----- some values

  /** The first terms of the default seed, and one later term and the number that comes of it. */
  lemma SomeValues()
    ensures X(4357, 0) == 4357 && X(4357, 1) == 300933633 && X(4357, 2) == 1838352333 && X(4357, 3) == 1039116329
    ensures Mix(61989553, 4357, 300933633) == 2454627182 && Temper(2454627182) == 3510405877
  {
    assert X(4357, 1) == SeedNext(4357);
    assert X(4357, 2) == SeedNext(300933633);
  }
}
