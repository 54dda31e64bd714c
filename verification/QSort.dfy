/**
 * The library sort: Bentley and McIlroy's quicksort, in place, with a partition into four ranges
 * (equal, less, greater, equal), two block swaps, recursion on the left part, iteration on the
 * right part and insertion sort for short or apparently sorted ranges.
 *
 * `cmp` is the caller's comparison; ranges are half open, [lo, hi).
 */
module QSort {

  /** The comparison orders all elements, ties allowed. */
  ghost predicate Preorder<T(!new)>(cmp: (T, T) -> int)
  {
    (forall x, y :: Mirrored(cmp, x, y)) && (forall x, y, z :: Chained(cmp, x, y, z))
  }

  ghost predicate Mirrored<T>(cmp: (T, T) -> int, x: T, y: T) { cmp(x, y) < 0 <==> cmp(y, x) > 0 }

  ghost predicate Chained<T>(cmp: (T, T) -> int, x: T, y: T, z: T)
  {
    cmp(x, y) <= 0 && cmp(y, z) <= 0 ==> cmp(x, z) <= 0
  }

  ghost predicate Sorted<T>(cmp: (T, T) -> int, s: seq<T>, lo: int, hi: int)
    requires 0 <= lo && hi <= |s|
  {
    forall i, j :: lo <= i < j < hi ==> cmp(s[i], s[j]) <= 0
  }

  /** `t` is `s` with the elements of [lo, hi) rearranged. */
  ghost predicate Permuted<T>(s: seq<T>, t: seq<T>, lo: int, hi: int)
    requires 0 <= lo <= hi <= |s|
  {
    && |t| == |s| && multiset(t) == multiset(s)
    && forall i :: 0 <= i < |s| && !(lo <= i < hi) ==> t[i] == s[i]
  }

  function Swapped<T>(s: seq<T>, i: int, j: int): seq<T>
    requires 0 <= i < |s| && 0 <= j < |s|
  {
    s[i := s[j]][j := s[i]]
  }

  // ----- rearrangements

  lemma SameMultiset<T>(s: seq<T>, t: seq<T>, lo: int, hi: int)
    requires 0 <= lo <= hi <= |s| && |t| == |s|
    requires forall i :: 0 <= i < |s| && !(lo <= i < hi) ==> t[i] == s[i]
    ensures multiset(t) == multiset(s) <==> multiset(t[lo..hi]) == multiset(s[lo..hi])
  {
    InThreeParts(s, s[..lo], s[lo..hi], s[hi..]);
    InThreeParts(t, s[..lo], t[lo..hi], s[hi..]);
    Cancel(multiset(s[..lo]), multiset(s[lo..hi]), multiset(t[lo..hi]), multiset(s[hi..]));
  }

  lemma InThreeParts<T>(s: seq<T>, a: seq<T>, x: seq<T>, b: seq<T>)
    requires s == a + x + b
    ensures multiset(s) == multiset(a) + multiset(x) + multiset(b)
  {
  }

  lemma Cancel<T>(a: multiset<T>, x: multiset<T>, y: multiset<T>, b: multiset<T>)
    ensures a + x + b == a + y + b <==> x == y
  {
    if a + x + b == a + y + b {
      assert (a + x + b) - a - b == x;
      assert (a + y + b) - a - b == y;
    }
  }

  lemma SwapPermutes<T>(s: seq<T>, i: int, j: int, lo: int, hi: int)
    requires 0 <= lo <= i < hi <= |s| && lo <= j < hi
    ensures Permuted(s, Swapped(s, i, j), lo, hi)
  {
  }

  lemma PermutedSelf<T>(s: seq<T>, lo: int, hi: int)
    requires 0 <= lo <= hi <= |s|
    ensures Permuted(s, s, lo, hi)
  {
  }

  lemma PermutedTrans<T>(s: seq<T>, t: seq<T>, u: seq<T>, lo: int, hi: int)
    requires 0 <= lo <= hi <= |s| && Permuted(s, t, lo, hi) && Permuted(t, u, lo, hi)
    ensures Permuted(s, u, lo, hi)
  {
  }

  lemma PermutedWider<T>(s: seq<T>, t: seq<T>, lo: int, hi: int, lo': int, hi': int)
    requires 0 <= lo' <= lo <= hi <= hi' <= |s| && Permuted(s, t, lo, hi)
    ensures Permuted(s, t, lo', hi')
  {
  }

  /** Every element of the rearranged range was somewhere in it before. */
  lemma CameFrom<T>(s: seq<T>, t: seq<T>, lo: int, hi: int, i: int) returns (j: int)
    requires 0 <= lo <= i < hi <= |s| && Permuted(s, t, lo, hi)
    ensures lo <= j < hi && s[j] == t[i]
  {
    SameMultiset(s, t, lo, hi);
    assert t[i] == t[lo..hi][i - lo];
    assert t[i] in multiset(t[lo..hi]);
    assert t[i] in s[lo..hi];
    var k :| 0 <= k < hi - lo && s[lo..hi][k] == t[i];
    j := lo + k;
  }

  // ----- insertion sort

  /** Sorted but for the element at `hole`, which may belong further left. */
  ghost predicate SortedBut<T>(cmp: (T, T) -> int, s: seq<T>, lo: int, hi: int, hole: int)
    requires 0 <= lo && hi <= |s|
  {
    forall i, j :: lo <= i < j < hi && j != hole ==> cmp(s[i], s[j]) <= 0
  }

  lemma SinkStep<T(!new)>(cmp: (T, T) -> int, s: seq<T>, lo: int, hi: int, pl: int)
    requires Preorder(cmp) && 0 <= lo < pl < hi <= |s| && SortedBut(cmp, s, lo, hi, pl) && cmp(s[pl - 1], s[pl]) > 0
    ensures SortedBut(cmp, Swapped(s, pl, pl - 1), lo, hi, pl - 1)
  {
    assert Mirrored(cmp, s[pl], s[pl - 1]);
  }

  lemma SinkDone<T(!new)>(cmp: (T, T) -> int, s: seq<T>, lo: int, hi: int, pl: int)
    requires Preorder(cmp) && 0 <= lo <= pl < hi <= |s| && SortedBut(cmp, s, lo, hi, pl)
    requires pl == lo || cmp(s[pl - 1], s[pl]) <= 0
    ensures Sorted(cmp, s, lo, hi)
  {
    forall i | lo <= i < pl ensures cmp(s[i], s[pl]) <= 0 {
      if i < pl - 1 { assert Chained(cmp, s[i], s[pl - 1], s[pl]); }
    }
  }

  method SwapAt<T>(a: array<T>, i: int, j: int, lo: int, hi: int)
    requires 0 <= lo <= i < hi <= a.Length && lo <= j < hi
    modifies a
    ensures a[..] == Swapped(old(a[..]), i, j) && Permuted(old(a[..]), a[..], lo, hi)
  {
    ghost var s := a[..];
    a[i], a[j] := a[j], a[i];
    assert a[..] == Swapped(s, i, j);
    SwapPermutes(s, i, j, lo, hi);
  }

  lemma SinkStart<T>(cmp: (T, T) -> int, s: seq<T>, lo: int, pm: int)
    requires 0 <= lo < pm < |s| && Sorted(cmp, s, lo, pm)
    ensures SortedBut(cmp, s, lo, pm + 1, pm)
  {
  }

  method SinkOnce<T(!new)>(a: array<T>, lo: int, hi: int, pl: int, cmp: (T, T) -> int, ghost was: seq<T>)
    requires Preorder(cmp) && 0 <= lo < pl < hi <= a.Length && SortedBut(cmp, a[..], lo, hi, pl)
    requires cmp(a[pl - 1], a[pl]) > 0 && |was| == a.Length && Permuted(was, a[..], lo, hi)
    modifies a
    ensures SortedBut(cmp, a[..], lo, hi, pl - 1) && Permuted(was, a[..], lo, hi)
  {
    ghost var s := a[..];
    SwapAt(a, pl, pl - 1, lo, hi);
    SinkStep(cmp, s, lo, hi, pl);
    PermutedTrans(was, s, a[..], lo, hi);
  }

  method Sink<T(!new)>(a: array<T>, lo: int, pm: int, cmp: (T, T) -> int)
    requires Preorder(cmp) && 0 <= lo < pm < a.Length && Sorted(cmp, a[..], lo, pm)
    modifies a
    ensures Sorted(cmp, a[..], lo, pm + 1) && Permuted(old(a[..]), a[..], lo, pm + 1)
  {
    var pl := pm;
    SinkStart(cmp, a[..], lo, pm);
    PermutedSelf(a[..], lo, pm + 1);
    while pl > lo && cmp(a[pl - 1], a[pl]) > 0
      invariant lo <= pl <= pm && SortedBut(cmp, a[..], lo, pm + 1, pl)
      invariant Permuted(old(a[..]), a[..], lo, pm + 1)
      decreases pl
    {
      SinkOnce(a, lo, pm + 1, pl, cmp, old(a[..]));
      pl := pl - 1;
    }
    SinkDone(cmp, a[..], lo, pm + 1, pl);
  }

  method InsertionSort<T(!new)>(a: array<T>, lo: int, hi: int, cmp: (T, T) -> int)
    requires Preorder(cmp) && 0 <= lo <= hi <= a.Length
    modifies a
    ensures Sorted(cmp, a[..], lo, hi) && Permuted(old(a[..]), a[..], lo, hi)
  {
    var pm := lo + 1;
    while pm < hi
      invariant lo < pm && (pm <= hi || hi <= lo + 1) && Sorted(cmp, a[..], lo, if pm <= hi then pm else hi)
      invariant Permuted(old(a[..]), a[..], lo, hi)
    {
      ghost var s := a[..];
      Sink(a, lo, pm, cmp);
      PermutedWider(s, a[..], lo, pm + 1, lo, hi);
      PermutedTrans(old(a[..]), s, a[..], lo, hi);
      pm := pm + 1;
    }
  }

  // ----- choosing the pivot

  ghost predicate Between<T>(cmp: (T, T) -> int, x: T, m: T, y: T)
  {
    (cmp(x, m) <= 0 && cmp(m, y) <= 0) || (cmp(y, m) <= 0 && cmp(m, x) <= 0)
  }

  /** Where the median of three elements is. */
  function Med3<T(!new)>(a: array<T>, i: int, j: int, k: int, cmp: (T, T) -> int): (m: int)
    requires Preorder(cmp) && 0 <= i < a.Length && 0 <= j < a.Length && 0 <= k < a.Length
    reads a
    ensures m == i || m == j || m == k
    ensures m == i ==> Between(cmp, a[j], a[i], a[k])
    ensures m == j ==> Between(cmp, a[i], a[j], a[k])
    ensures m == k ==> Between(cmp, a[i], a[k], a[j])
  {
    assert Mirrored(cmp, a[i], a[j]) && Mirrored(cmp, a[j], a[k]) && Mirrored(cmp, a[i], a[k]);
    assert Mirrored(cmp, a[j], a[i]) && Mirrored(cmp, a[k], a[j]) && Mirrored(cmp, a[k], a[i]);
    if cmp(a[i], a[j]) < 0 then
      if cmp(a[j], a[k]) < 0 then j else if cmp(a[i], a[k]) < 0 then k else i
    else
      if cmp(a[j], a[k]) > 0 then j else if cmp(a[i], a[k]) < 0 then i else k
  }

  function PivotOf<T(!new)>(a: array<T>, lo: int, n: int, cmp: (T, T) -> int): (p: int)
    requires Preorder(cmp) && 0 <= lo && n >= 7 && lo + n <= a.Length
    reads a
    ensures lo <= p < lo + n
  {
    var pm := lo + n / 2;
    if n == 7 then pm
    else
      var pl, pn := lo, lo + n - 1;
      if n <= 40 then Med3(a, pl, pm, pn, cmp)
      else
        var d := n / 8;
        Med3(a, Med3(a, pl, pl + d, pl + 2 * d, cmp), Med3(a, pm - d, pm, pm + d, cmp),
             Med3(a, pn - 2 * d, pn - d, pn, cmp), cmp)
  }

  // ----- partition

  /** -1, 0 or 1: how an element compares with the pivot. */
  function Sign(x: int): int { if x < 0 then -1 else if x > 0 then 1 else 0 }

  /** Every element of [lo, hi) compares with `v` as `side` says. */
  ghost predicate Side<T>(cmp: (T, T) -> int, s: seq<T>, lo: int, hi: int, v: T, side: int)
    requires 0 <= lo && hi <= |s|
  {
    forall i :: lo <= i < hi ==> Sign(cmp(s[i], v)) == side
  }

  /** The four ranges around the part not yet looked at, [pb, pc]. */
  ghost predicate Quartered<T>(cmp: (T, T) -> int, s: seq<T>, lo: int, hi: int, v: T, pa: int, pb: int, pc: int, pd: int)
  {
    && 0 <= lo < pa <= pb <= pc + 1 && pc <= pd < hi <= |s| && s[lo] == v
    && Side(cmp, s, lo, pa, v, 0) && Side(cmp, s, pa, pb, v, -1)
    && Side(cmp, s, pc + 1, pd + 1, v, 1) && Side(cmp, s, pd + 1, hi, v, 0)
  }

  lemma EqualFromLeft<T>(cmp: (T, T) -> int, s: seq<T>, lo: int, hi: int, v: T, pa: int, pb: int, pc: int, pd: int)
    requires Quartered(cmp, s, lo, hi, v, pa, pb, pc, pd) && pb <= pc && cmp(s[pb], v) == 0
    ensures Quartered(cmp, Swapped(s, pa, pb), lo, hi, v, pa + 1, pb + 1, pc, pd)
  {
  }

  lemma EqualFromRight<T>(cmp: (T, T) -> int, s: seq<T>, lo: int, hi: int, v: T, pa: int, pb: int, pc: int, pd: int)
    requires Quartered(cmp, s, lo, hi, v, pa, pb, pc, pd) && pb <= pc && cmp(s[pc], v) == 0
    ensures Quartered(cmp, Swapped(s, pc, pd), lo, hi, v, pa, pb, pc - 1, pd - 1)
  {
  }

  lemma Exchange<T>(cmp: (T, T) -> int, s: seq<T>, lo: int, hi: int, v: T, pa: int, pb: int, pc: int, pd: int)
    requires Quartered(cmp, s, lo, hi, v, pa, pb, pc, pd) && pb <= pc && cmp(s[pb], v) > 0 && cmp(s[pc], v) < 0
    ensures pb < pc && Quartered(cmp, Swapped(s, pb, pc), lo, hi, v, pa, pb + 1, pc - 1, pd)
  {
  }

  /** The scan from the left stops at an element greater than the pivot. */
  method ScanLeft<T(!new)>(a: array<T>, lo: int, hi: int, ghost v: T, pa0: int, pb0: int, pc: int, ghost pd: int,
                           cmp: (T, T) -> int) returns (pa: int, pb: int, swapped: bool)
    requires hi <= a.Length && Quartered(cmp, a[..], lo, hi, v, pa0, pb0, pc, pd)
    modifies a
    ensures Quartered(cmp, a[..], lo, hi, v, pa, pb, pc, pd) && Permuted(old(a[..]), a[..], lo, hi) && pb0 <= pb
    ensures pb <= pc ==> cmp(a[pb], v) > 0
    ensures !swapped ==> a[..] == old(a[..])
  {
    pa, pb, swapped := pa0, pb0, false;
    while pb <= pc && cmp(a[pb], a[lo]) <= 0
      invariant Quartered(cmp, a[..], lo, hi, v, pa, pb, pc, pd) && Permuted(old(a[..]), a[..], lo, hi) && pb0 <= pb
      invariant !swapped ==> a[..] == old(a[..])
      decreases pc - pb
    {
      if cmp(a[pb], a[lo]) == 0 {
        swapped := true;
        ghost var s := a[..];
        SwapAt(a, pa, pb, lo, hi);
        EqualFromLeft(cmp, s, lo, hi, v, pa, pb, pc, pd);
        PermutedTrans(old(a[..]), s, a[..], lo, hi);
        pa := pa + 1;
      }
      pb := pb + 1;
    }
  }

  /** The scan from the right stops at an element less than the pivot. */
  method ScanRight<T(!new)>(a: array<T>, lo: int, hi: int, ghost v: T, ghost pa: int, pb: int, pc0: int, pd0: int,
                            cmp: (T, T) -> int) returns (pc: int, pd: int, swapped: bool)
    requires hi <= a.Length && Quartered(cmp, a[..], lo, hi, v, pa, pb, pc0, pd0)
    modifies a
    ensures Quartered(cmp, a[..], lo, hi, v, pa, pb, pc, pd) && Permuted(old(a[..]), a[..], lo, hi) && pc <= pc0
    ensures pb <= pc ==> cmp(a[pc], v) < 0 && a[pb] == old(a[pb])
    ensures !swapped ==> a[..] == old(a[..])
  {
    pc, pd, swapped := pc0, pd0, false;
    while pb <= pc && cmp(a[pc], a[lo]) >= 0
      invariant Quartered(cmp, a[..], lo, hi, v, pa, pb, pc, pd) && Permuted(old(a[..]), a[..], lo, hi) && pc <= pc0
      invariant pb <= pc ==> a[pb] == old(a[..])[pb]
      invariant !swapped ==> a[..] == old(a[..])
      decreases pc - pb
    {
      if cmp(a[pc], a[lo]) == 0 {
        swapped := true;
        ghost var s := a[..];
        SwapAt(a, pc, pd, lo, hi);
        EqualFromRight(cmp, s, lo, hi, v, pa, pb, pc, pd);
        PermutedTrans(old(a[..]), s, a[..], lo, hi);
        pd := pd - 1;
      }
      pc := pc - 1;
    }
  }

  /** One round of the outer loop: scan from both sides, then exchange, or stop. */
  method Round<T(!new)>(a: array<T>, lo: int, hi: int, ghost v: T, pa0: int, pb0: int, pc0: int, pd0: int,
                        cmp: (T, T) -> int) returns (pa: int, pb: int, pc: int, pd: int, swapped: bool, done: bool)
    requires hi <= a.Length && Quartered(cmp, a[..], lo, hi, v, pa0, pb0, pc0, pd0)
    modifies a
    ensures Quartered(cmp, a[..], lo, hi, v, pa, pb, pc, pd) && Permuted(old(a[..]), a[..], lo, hi)
    ensures if done then pb > pc else pc - pb < pc0 - pb0 && swapped
    ensures !swapped ==> a[..] == old(a[..])
  {
    var left, right;
    pa, pb, left := ScanLeft(a, lo, hi, v, pa0, pb0, pc0, pd0, cmp);
    ghost var s := a[..];
    pc, pd, right := ScanRight(a, lo, hi, v, pa, pb, pc0, pd0, cmp);
    PermutedTrans(old(a[..]), s, a[..], lo, hi);
    swapped, done := left || right, pb > pc;
    if !done {
      ghost var t := a[..];
      SwapAt(a, pb, pc, lo, hi);
      Exchange(cmp, t, lo, hi, v, pa, pb, pc, pd);
      PermutedTrans(old(a[..]), t, a[..], lo, hi);
      pb, pc, swapped := pb + 1, pc - 1, true;
    }
  }

  /** The whole partition around the element at `lo`. */
  method Partition<T(!new)>(a: array<T>, lo: int, hi: int, cmp: (T, T) -> int)
      returns (pa: int, pb: int, pc: int, pd: int, swapped: bool)
    requires Preorder(cmp) && 0 <= lo < hi <= a.Length
    modifies a
    ensures Quartered(cmp, a[..], lo, hi, old(a[lo]), pa, pb, pc, pd) && pb == pc + 1
    ensures !swapped ==> a[..] == old(a[..])
    ensures Permuted(old(a[..]), a[..], lo, hi)
  {
    ghost var v := a[lo];
    pa, pb, pc, pd, swapped := lo + 1, lo + 1, hi - 1, hi - 1, false;
    Equal(cmp, v);
    var done := false;
    while !done
      invariant Quartered(cmp, a[..], lo, hi, v, pa, pb, pc, pd) && Permuted(old(a[..]), a[..], lo, hi)
      invariant done ==> pb > pc
      invariant !swapped ==> a[..] == old(a[..])
      decreases !done, pc - pb + 2
    {
      ghost var s := a[..];
      var more;
      pa, pb, pc, pd, more, done := Round(a, lo, hi, v, pa, pb, pc, pd, cmp);
      PermutedTrans(old(a[..]), s, a[..], lo, hi);
      swapped := swapped || more;
    }
  }

  lemma Equal<T(!new)>(cmp: (T, T) -> int, v: T)
    requires Preorder(cmp)
    ensures cmp(v, v) == 0
  {
    assert Mirrored(cmp, v, v);
  }

  // ----- block swaps

  /** Where the element at `k` comes from when the blocks of `r` elements at `i` and `j` are exchanged. */
  function Source(k: int, i: int, j: int, r: int): int
  {
    if i <= k < i + r then k + (j - i) else if j <= k < j + r then k - (j - i) else k
  }

  ghost predicate BlocksSwapped<T>(s: seq<T>, t: seq<T>, i: int, j: int, r: int)
    requires 0 <= i <= i + r <= j <= j + r <= |s|
  {
    |t| == |s| && forall k :: 0 <= k < |s| ==> t[k] == s[Source(k, i, j, r)]
  }

  method VecSwap<T>(a: array<T>, i: int, j: int, r: int, lo: int, hi: int)
    requires 0 <= lo <= i <= i + r <= j <= j + r <= hi <= a.Length
    modifies a
    ensures BlocksSwapped(old(a[..]), a[..], i, j, r) && Permuted(old(a[..]), a[..], lo, hi)
  {
    var k := 0;
    while k < r
      invariant 0 <= k <= r && BlocksSwapped(old(a[..]), a[..], i, j, k) && Permuted(old(a[..]), a[..], lo, hi)
    {
      SwapOneMore(a, i, j, k, lo, hi, old(a[..]));
      k := k + 1;
    }
  }

  method SwapOneMore<T>(a: array<T>, i: int, j: int, k: int, lo: int, hi: int, ghost was: seq<T>)
    requires 0 <= lo <= i <= i + k < j <= j + k < hi <= a.Length == |was| && 0 <= k
    requires BlocksSwapped(was, a[..], i, j, k) && Permuted(was, a[..], lo, hi)
    modifies a
    ensures BlocksSwapped(was, a[..], i, j, k + 1) && Permuted(was, a[..], lo, hi)
  {
    ghost var s := a[..];
    SwapAt(a, i + k, j + k, lo, hi);
    SwapExtends(was, s, i, j, k, lo, hi);
  }

  lemma SwapExtends<T>(s: seq<T>, t: seq<T>, i: int, j: int, k: int, lo: int, hi: int)
    requires 0 <= lo <= i <= i + k < j <= j + k < hi <= |s| && 0 <= k
    requires BlocksSwapped(s, t, i, j, k) && Permuted(s, t, lo, hi)
    ensures BlocksSwapped(s, Swapped(t, i + k, j + k), i, j, k + 1) && Permuted(s, Swapped(t, i + k, j + k), lo, hi)
  {
    SwapStaysPermuted(s, t, i + k, j + k, lo, hi);
    OneMore(s, t, i, j, k);
  }

  lemma SwapStaysPermuted<T>(s: seq<T>, t: seq<T>, i: int, j: int, lo: int, hi: int)
    requires 0 <= lo <= i < hi <= |s| && lo <= j < hi && Permuted(s, t, lo, hi)
    ensures Permuted(s, Swapped(t, i, j), lo, hi)
  {
    SwapPermutes(t, i, j, lo, hi);
    PermutedTrans(s, t, Swapped(t, i, j), lo, hi);
  }

  lemma OneMore<T>(s: seq<T>, t: seq<T>, i: int, j: int, k: int)
    requires 0 <= k && 0 <= i < i + k + 1 <= j < j + k + 1 <= |s| && BlocksSwapped(s, t, i, j, k)
    ensures BlocksSwapped(s, Swapped(t, i + k, j + k), i, j, k + 1)
  {
  }

  /** Less, then equal, then greater than `v`. */
  ghost predicate Parted<T>(cmp: (T, T) -> int, s: seq<T>, lo: int, hi: int, v: T, m: int, m': int)
  {
    && 0 <= lo <= m <= m' <= hi <= |s|
    && Side(cmp, s, lo, m, v, -1) && Side(cmp, s, m, m', v, 0) && Side(cmp, s, m', hi, v, 1)
  }

  function Min(x: int, y: int): int { if x < y then x else y }

  /** A block of one side moved past a neighbouring block of the other, by swapping the shorter's length. */
  lemma BlocksPass<T>(cmp: (T, T) -> int, s: seq<T>, t: seq<T>, lo: int, mid: int, hi: int, v: T, p: int, q: int)
    requires 0 <= lo <= mid <= hi <= |s| && Side(cmp, s, lo, mid, v, p) && Side(cmp, s, mid, hi, v, q)
    requires var r := Min(mid - lo, hi - mid); BlocksSwapped(s, t, lo, hi - r, r)
    ensures Side(cmp, t, lo, lo + (hi - mid), v, q) && Side(cmp, t, lo + (hi - mid), hi, v, p)
  {
  }

  lemma SideElsewhere<T>(cmp: (T, T) -> int, s: seq<T>, t: seq<T>, i: int, j: int, r: int, lo: int, hi: int, v: T, p: int)
    requires 0 <= i <= i + r <= j <= j + r <= |s| && BlocksSwapped(s, t, i, j, r)
    requires 0 <= lo && hi <= |s| && (hi <= i || j + r <= lo) && Side(cmp, s, lo, hi, v, p)
    ensures Side(cmp, t, lo, hi, v, p)
  {
  }

  /** After the first block swap: less, equal, greater, equal. */
  ghost predicate Halfway<T>(cmp: (T, T) -> int, s: seq<T>, lo: int, hi: int, v: T, m: int, pb: int, pd: int)
  {
    && 0 <= lo <= m <= pb <= pd + 1 <= hi <= |s|
    && Side(cmp, s, lo, m, v, -1) && Side(cmp, s, m, pb, v, 0)
    && Side(cmp, s, pb, pd + 1, v, 1) && Side(cmp, s, pd + 1, hi, v, 0)
  }

  lemma LeftGathered<T>(cmp: (T, T) -> int, s: seq<T>, t: seq<T>, lo: int, hi: int, v: T, pa: int, pb: int, pc: int, pd: int, r: int)
    requires Quartered(cmp, s, lo, hi, v, pa, pb, pc, pd) && pb == pc + 1 && r == Min(pa - lo, pb - pa)
    requires BlocksSwapped(s, t, lo, pb - r, r)
    ensures Halfway(cmp, t, lo, hi, v, lo + (pb - pa), pb, pd)
  {
    BlocksPass(cmp, s, t, lo, pa, pb, v, 0, -1);
    SideElsewhere(cmp, s, t, lo, pb - r, r, pb, pd + 1, v, 1);
    SideElsewhere(cmp, s, t, lo, pb - r, r, pd + 1, hi, v, 0);
  }

  lemma RightGathered<T>(cmp: (T, T) -> int, s: seq<T>, t: seq<T>, lo: int, hi: int, v: T, m: int, pb: int, pd: int, r: int)
    requires Halfway(cmp, s, lo, hi, v, m, pb, pd) && r == Min(pd + 1 - pb, hi - pd - 1)
    requires BlocksSwapped(s, t, pb, hi - r, r)
    ensures Parted(cmp, t, lo, hi, v, m, pb + (hi - pd - 1))
  {
    BlocksPass(cmp, s, t, pb, pd + 1, hi, v, 1, 0);
    LeftUntouched(cmp, s, t, lo, hi, v, m, pb, r);
    SideJoin(cmp, t, m, pb, pb + (hi - pd - 1), v, 0);
  }

  lemma LeftUntouched<T>(cmp: (T, T) -> int, s: seq<T>, t: seq<T>, lo: int, hi: int, v: T, m: int, pb: int, r: int)
    requires 0 <= lo <= m <= pb <= pb + r <= hi - r <= hi <= |s| && 0 <= r
    requires Side(cmp, s, lo, m, v, -1) && Side(cmp, s, m, pb, v, 0)
    requires BlocksSwapped(s, t, pb, hi - r, r)
    ensures Side(cmp, t, lo, m, v, -1) && Side(cmp, t, m, pb, v, 0)
  {
    SideElsewhere(cmp, s, t, pb, hi - r, r, lo, m, v, -1);
    SideElsewhere(cmp, s, t, pb, hi - r, r, m, pb, v, 0);
  }

  method GatherLeft<T>(a: array<T>, lo: int, hi: int, ghost v: T, pa: int, pb: int, ghost pc: int, ghost pd: int,
                       ghost cmp: (T, T) -> int)
    requires hi <= a.Length && Quartered(cmp, a[..], lo, hi, v, pa, pb, pc, pd) && pb == pc + 1
    modifies a
    ensures Halfway(cmp, a[..], lo, hi, v, lo + (pb - pa), pb, pd) && Permuted(old(a[..]), a[..], lo, hi)
  {
    var r := Min(pa - lo, pb - pa);
    VecSwap(a, lo, pb - r, r, lo, hi);
    LeftGathered(cmp, old(a[..]), a[..], lo, hi, v, pa, pb, pc, pd, r);
  }

  method GatherRight<T>(a: array<T>, lo: int, hi: int, ghost v: T, ghost m: int, pb: int, pc: int, pd: int,
                        ghost cmp: (T, T) -> int)
    requires hi <= a.Length && Halfway(cmp, a[..], lo, hi, v, m, pb, pd) && pb == pc + 1
    modifies a
    ensures Parted(cmp, a[..], lo, hi, v, m, hi - (pd - pc)) && Permuted(old(a[..]), a[..], lo, hi)
  {
    var r := Min(pd - pc, hi - pd - 1);
    VecSwap(a, pb, hi - r, r, lo, hi);
    RightGathered(cmp, old(a[..]), a[..], lo, hi, v, m, pb, pd, r);
  }

  lemma SideJoin<T>(cmp: (T, T) -> int, s: seq<T>, i: int, j: int, k: int, v: T, p: int)
    requires 0 <= i <= j <= k <= |s| && Side(cmp, s, i, j, v, p) && Side(cmp, s, j, k, v, p)
    ensures Side(cmp, s, i, k, v, p)
  {
  }

  // ----- the sort

  /** Everything in [lo, mid) may stand before everything in [mid, hi). */
  ghost predicate Before<T>(cmp: (T, T) -> int, s: seq<T>, lo: int, mid: int, hi: int)
    requires 0 <= lo && mid <= hi <= |s|
  {
    forall i, j :: lo <= i < mid <= j < hi ==> cmp(s[i], s[j]) <= 0
  }

  /** Rearranging a range keeps it on its side of the pivot, and leaves the other ranges alone. */
  lemma SidePermuted<T>(cmp: (T, T) -> int, s: seq<T>, t: seq<T>, lo: int, hi: int, v: T, p: int)
    requires 0 <= lo <= hi <= |s| && Permuted(s, t, lo, hi) && Side(cmp, s, lo, hi, v, p)
    ensures Side(cmp, t, lo, hi, v, p)
  {
    forall i | lo <= i < hi ensures Sign(cmp(t[i], v)) == p {
      var j := CameFrom(s, t, lo, hi, i);
    }
  }

  lemma PartedPermuted<T>(cmp: (T, T) -> int, s: seq<T>, t: seq<T>, lo: int, hi: int, v: T, m: int, m': int)
    requires Parted(cmp, s, lo, hi, v, m, m') && Permuted(s, t, lo, m)
    ensures Parted(cmp, t, lo, hi, v, m, m')
  {
    SidePermuted(cmp, s, t, lo, m, v, -1);
    assert forall i :: m <= i < |s| ==> t[i] == s[i];
  }

  lemma ThroughPivot<T(!new)>(cmp: (T, T) -> int, x: T, y: T, v: T)
    requires Preorder(cmp) && cmp(x, v) <= 0 && cmp(y, v) >= 0
    ensures cmp(x, y) <= 0
  {
    assert Mirrored(cmp, y, v) && Mirrored(cmp, v, y);
    assert Chained(cmp, x, v, y);
  }

  /** A sorted left part followed by the equal elements is sorted and stands before the rest. */
  lemma LeftDone<T(!new)>(cmp: (T, T) -> int, s: seq<T>, lo: int, hi: int, v: T, m: int, m': int)
    requires Preorder(cmp) && Parted(cmp, s, lo, hi, v, m, m') && Sorted(cmp, s, lo, m)
    ensures Sorted(cmp, s, lo, m') && Before(cmp, s, lo, m', hi)
  {
    forall i, j | lo <= i < m' && m <= j < hi ensures cmp(s[i], s[j]) <= 0 {
      ThroughPivot(cmp, s[i], s[j], v);
    }
  }

  lemma BeforePermuted<T>(cmp: (T, T) -> int, s: seq<T>, t: seq<T>, lo: int, mid: int, hi: int)
    requires 0 <= lo <= mid <= hi <= |s| && Permuted(s, t, mid, hi) && Before(cmp, s, lo, mid, hi)
    ensures Before(cmp, t, lo, mid, hi)
  {
    forall i, j | lo <= i < mid <= j < hi ensures cmp(t[i], t[j]) <= 0 {
      var k := CameFrom(s, t, mid, hi, j);
    }
  }

  lemma SortedJoin<T>(cmp: (T, T) -> int, s: seq<T>, lo: int, mid: int, hi: int)
    requires 0 <= lo <= mid <= hi <= |s| && Before(cmp, s, lo, mid, hi) && Sorted(cmp, s, lo, mid) && Sorted(cmp, s, mid, hi)
    ensures Sorted(cmp, s, lo, hi)
  {
  }

  /**
   * One pass of the loop over [lo, hi): either it sorts the range, or it leaves the last part,
   * from `next` on, to the next pass.
   */
  method Pass<T(!new)>(a: array<T>, lo: int, hi: int, cmp: (T, T) -> int) returns (more: bool, next: int)
    requires Preorder(cmp) && 0 <= lo <= hi <= a.Length
    modifies a
    ensures Permuted(old(a[..]), a[..], lo, hi)
    ensures !more ==> Sorted(cmp, a[..], lo, hi)
    ensures more ==> lo < next <= hi && Sorted(cmp, a[..], lo, next) && Before(cmp, a[..], lo, next, hi)
    decreases hi - lo, 1
  {
    more, next := false, hi;
    var n := hi - lo;
    if n < 7 {
      InsertionSort(a, lo, hi, cmp);
      return;
    }
    var pm := PivotOf(a, lo, n, cmp);
    SwapAt(a, lo, pm, lo, hi);
    ghost var s := a[..];
    var pa, pb, pc, pd, swapped := Partition(a, lo, hi, cmp);
    PermutedTrans(old(a[..]), s, a[..], lo, hi);
    ghost var t := a[..];
    if swapped {
      more, next := SortParts(a, lo, hi, s[lo], pa, pb, pc, pd, cmp);
    } else {
      InsertionSort(a, lo, hi, cmp);
    }
    PermutedTrans(old(a[..]), t, a[..], lo, hi);
  }

  /** Everything after a partition that swapped: gather the equal elements and sort the left part. */
  method SortParts<T(!new)>(a: array<T>, lo: int, hi: int, ghost v: T, pa: int, pb: int, pc: int, pd: int,
                            cmp: (T, T) -> int) returns (more: bool, next: int)
    requires Preorder(cmp) && hi <= a.Length && Quartered(cmp, a[..], lo, hi, v, pa, pb, pc, pd) && pb == pc + 1
    modifies a
    ensures Permuted(old(a[..]), a[..], lo, hi)
    ensures !more ==> Sorted(cmp, a[..], lo, hi)
    ensures more ==> lo < next <= hi && Sorted(cmp, a[..], lo, next) && Before(cmp, a[..], lo, next, hi)
    decreases hi - lo, 0
  {
    ghost var s0 := a[..];
    GatherLeft(a, lo, hi, v, pa, pb, pc, pd, cmp);
    ghost var s := a[..];
    var m, m' := lo + (pb - pa), hi - (pd - pc);
    GatherRight(a, lo, hi, v, m, pb, pc, pd, cmp);
    ghost var t := a[..];
    PermutedTrans(s0, s, t, lo, hi);
    if pb - pa > 1 { Sort(a, lo, m, cmp); }
    PartsDone(cmp, s0, t, a[..], lo, hi, v, m, m');
    more, next := pd - pc > 1, m';
  }

  lemma PartsDone<T(!new)>(cmp: (T, T) -> int, s: seq<T>, t: seq<T>, u: seq<T>, lo: int, hi: int, v: T, m: int, m': int)
    requires Preorder(cmp) && Parted(cmp, t, lo, hi, v, m, m') && |s| == |t|
    requires Permuted(s, t, lo, hi) && Permuted(t, u, lo, m) && Sorted(cmp, u, lo, m)
    ensures Permuted(s, u, lo, hi) && Sorted(cmp, u, lo, m') && Before(cmp, u, lo, m', hi)
    ensures hi - m' <= 1 ==> Sorted(cmp, u, lo, hi)
  {
    PermutedWider(t, u, lo, m, lo, hi);
    PermutedTrans(s, t, u, lo, hi);
    PartedPermuted(cmp, t, u, lo, hi, v, m, m');
    LeftDone(cmp, u, lo, hi, v, m, m');
    if hi - m' <= 1 { SortedJoin(cmp, u, lo, m', hi); }
  }

  /** The range [lo, hi): recursion on the left part, iteration on the right part. */
  method Sort<T(!new)>(a: array<T>, lo0: int, hi: int, cmp: (T, T) -> int)
    requires Preorder(cmp) && 0 <= lo0 <= hi <= a.Length
    modifies a
    ensures Sorted(cmp, a[..], lo0, hi) && Permuted(old(a[..]), a[..], lo0, hi)
    decreases hi - lo0, 2
  {
    var lo, more := lo0, true;
    while more
      invariant lo0 <= lo <= hi && Permuted(old(a[..]), a[..], lo0, hi)
      invariant more ==> Sorted(cmp, a[..], lo0, lo) && Before(cmp, a[..], lo0, lo, hi)
      invariant !more ==> Sorted(cmp, a[..], lo0, hi)
      decreases more, hi - lo
    {
      ghost var s := a[..];
      var next;
      more, next := Pass(a, lo, hi, cmp);
      PassDone(cmp, old(a[..]), s, a[..], lo0, lo, next, hi, more);
      lo := if more then next else lo;
    }
  }

  lemma PassDone<T(!new)>(cmp: (T, T) -> int, s: seq<T>, t: seq<T>, u: seq<T>, lo0: int, lo: int, next: int, hi: int, more: bool)
    requires 0 <= lo0 <= lo <= hi <= |s| && |t| == |s| && Permuted(s, t, lo0, hi) && Permuted(t, u, lo, hi)
    requires Sorted(cmp, t, lo0, lo) && Before(cmp, t, lo0, lo, hi)
    requires !more ==> Sorted(cmp, u, lo, hi)
    requires more ==> lo < next <= hi && Sorted(cmp, u, lo, next) && Before(cmp, u, lo, next, hi)
    ensures Permuted(s, u, lo0, hi)
    ensures !more ==> Sorted(cmp, u, lo0, hi)
    ensures more ==> Sorted(cmp, u, lo0, next) && Before(cmp, u, lo0, next, hi)
  {
    PermutedWider(t, u, lo, hi, lo0, hi);
    PermutedTrans(s, t, u, lo0, hi);
    BeforePermuted(cmp, t, u, lo0, lo, hi);
    assert Sorted(cmp, u, lo0, lo);
    SortedJoin(cmp, u, lo0, lo, if more then next else hi);
  }

  /** qsort(a + lo, n, es, cmp): sorted, a rearrangement, and nothing else in memory touched. */
  method QSort<T(!new)>(a: array<T>, lo: int, n: int, cmp: (T, T) -> int)
    requires Preorder(cmp) && 0 <= lo && 0 <= n && lo + n <= a.Length
    modifies a
    ensures Sorted(cmp, a[..], lo, lo + n)
    ensures multiset(a[lo..lo + n]) == multiset(old(a[lo..lo + n]))
    ensures forall i :: 0 <= i < a.Length && !(lo <= i < lo + n) ==> a[i] == old(a[i])
  {
    ghost var s := a[..];
    Sort(a, lo, lo + n, cmp);
    SameMultiset(s, a[..], lo, lo + n);
    assert a[..][lo..lo + n] == a[lo..lo + n];
    assert s[lo..lo + n] == old(a[lo..lo + n]);
    assert forall i :: 0 <= i < a.Length && !(lo <= i < lo + n) ==> a[..][i] == s[i];
  }
}
