/** Pool-wide effects of allocation and freeing, and the search for the lowest free address. */
module LmmRanges {
  import opened Bits
  import opened Align
  import opened FreeList
  import opened Pool

  // ----- effects on the set of free bytes

  lemma RegionByte(p: seq<Region>, i: nat, a: int)
    requires PoolOk(p) && i < |p| && IsFree(p[i].nodes, a)
    ensures p[i].min <= a < p[i].max && p[i].max < 0x1_0000_0000 && a > 0
  {
    var k :| 0 <= k < |p[i].nodes| && Holds(p[i].nodes[k], a);
    assert NodeOk(p[i].nodes[k], p[i].min, p[i].max);
  }

  /** A byte is free in at most one region. */
  lemma FreeOnce(p: seq<Region>, i: nat, j: nat, a: int)
    requires PoolOk(p) && i < |p| && j < |p| && IsFree(p[i].nodes, a) && IsFree(p[j].nodes, a)
    ensures i == j
  {
    RegionByte(p, i, a);
    RegionByte(p, j, a);
    OneRegion(p, i, j, a);
  }

  /** Taking [lo, hi) from region `i`, which holds it, takes exactly it from the pool. */
  lemma TakenFree(p: seq<Region>, p': seq<Region>, i: nat, lo: int, hi: int, a: int)
    requires PoolOk(p) && i < |p| == |p'| && p' == p[i := p'[i]] && Taken(p[i], p'[i], lo, hi)
    requires AllFree(p[i].nodes, lo, hi - lo)
    ensures PoolFree(p', a) <==> PoolFree(p, a) && !(lo <= a < hi)
  {
    if PoolFree(p, a) && !(lo <= a < hi) {
      var j :| 0 <= j < |p| && IsFree(p[j].nodes, a);
      assert IsFree(p'[j].nodes, a);
    }
    if PoolFree(p', a) {
      var j :| 0 <= j < |p'| && IsFree(p'[j].nodes, a);
      assert IsFree(p[j].nodes, a);
      if lo <= a < hi { FreeOnce(p, i, j, a); }
    }
  }

  lemma {:induction false} PoolTotalNonnegative(p: seq<Region>)
    requires forall i :: 0 <= i < |p| ==> RegionOk(p[i])
    ensures PoolTotal(p) >= 0
  {
    if |p| > 0 {
      FreeBound(p[0]);
      PoolTotalNonnegative(p[1..]);
    }
  }

  // ----- the lowest free address

  /** `a` is a free byte of region `r` from `start` on, with `size` bytes of its block left. */
  ghost predicate BlockFrom(r: Region, start: int, a: int, size: int)
  {
    exists k :: 0 <= k < |r.nodes| && RestOf(r.nodes[k], start, a, size)
  }

  predicate RestOf(n: Node, start: int, a: int, size: int)
  {
    Holds(n, a) && start <= a && a % 8 == 0 && a + size == n.addr + n.size
  }

  /** No free byte of the region from `start` on lies below `a`. */
  ghost predicate NothingBelow(r: Region, start: int, a: int)
  {
    forall x :: start <= x && IsFree(r.nodes, x) ==> a <= x
  }

  /** The answer after looking at the first `n` regions; size 0 says that nothing was found. */
  ghost predicate Lowest(p: seq<Region>, n: nat, start: int, a: int, size: int, flags: Flags)
    requires n <= |p|
  {
    && (forall j :: 0 <= j < n ==> NothingBelow(p[j], start, a))
    && (size == 0 ==> a == 0xffff_ffff)
    && (size != 0 ==> exists j :: 0 <= j < n && flags == p[j].flags && BlockFrom(p[j], start, a, size))
  }

  lemma LowerAnswer(p: seq<Region>, i: nat, start: int, a: int, size: int, flags: Flags, a': int, size': int)
    requires i < |p| && Lowest(p, i, start, a, size, flags) && a' <= a
    requires BlockFrom(p[i], start, a', size') && NothingBelow(p[i], start, a') && size' != 0
    ensures Lowest(p, i + 1, start, a', size', p[i].flags)
  {
  }

  lemma SameAnswer(p: seq<Region>, i: nat, start: int, a: int, size: int, flags: Flags)
    requires i < |p| && Lowest(p, i, start, a, size, flags) && NothingBelow(p[i], start, a)
    ensures Lowest(p, i + 1, start, a, size, flags)
  {
    if size != 0 {
      var j :| 0 <= j < i && flags == p[j].flags && BlockFrom(p[j], start, a, size);
      assert 0 <= j < i + 1 && flags == p[j].flags && BlockFrom(p[j], start, a, size);
    }
  }

  /** What the search of the whole pool finds. */
  lemma LowestFound(p: seq<Region>, start: int, a: int, size: int, flags: Flags)
    requires PoolOk(p) && Lowest(p, |p|, start, a, size, flags)
    ensures forall x :: start <= x < a ==> !PoolFree(p, x)
    ensures size == 0 ==> forall x :: start <= x ==> !PoolFree(p, x)
  {
    forall j, x | 0 <= j < |p| && IsFree(p[j].nodes, x) ensures x < 0xffff_ffff {
      RegionByte(p, j, x);
    }
  }

  // ----- withdrawing a range from the pool

  /** Part way through withdrawing [lo, hi): nothing below `mid` is left, nothing outside is touched. */
  ghost predicate Withdrawn(p0: seq<Region>, p: seq<Region>, lo: int, mid: int, hi: int)
  {
    && (forall a :: PoolFree(p, a) ==> PoolFree(p0, a))
    && (forall a :: lo <= a < mid ==> !PoolFree(p, a))
    && (forall a :: !(lo <= a < hi) && PoolFree(p0, a) ==> PoolFree(p, a))
  }

  /** Exactly the bytes [lo, hi) have left the pool. */
  ghost predicate Gone(p0: seq<Region>, p: seq<Region>, lo: int, hi: int)
  {
    forall a :: PoolFree(p, a) <==> PoolFree(p0, a) && !(lo <= a < hi)
  }

  /** The search found nothing more below the end: the range is withdrawn. */
  lemma WithdrawnAll(p0: seq<Region>, p: seq<Region>, lo: int, mid: int, rend: int, hi: int, found: int, left: int, flags: Flags)
    requires PoolOk(p) && Withdrawn(p0, p, lo, mid, hi) && Lowest(p, |p|, mid, found, left, flags)
    requires (left == 0 || found >= rend) && IsUp8(rend, hi)
    ensures Gone(p0, p, lo, hi)
  {
    LowestFound(p, mid, found, left, flags);
    if left != 0 {
      var j, k := FoundBlock(p, mid, found, left, flags);
      Multiples(hi, found);
    }
  }

  /** Where the search's answer sits. */
  lemma FoundBlock(p: seq<Region>, start: int, a: int, size: int, flags: Flags) returns (j: nat, k: nat)
    requires PoolOk(p) && Lowest(p, |p|, start, a, size, flags) && size != 0
    ensures j < |p| && k < |p[j].nodes| && flags == p[j].flags && RestOf(p[j].nodes[k], start, a, size)
    ensures 0 < size && a + size < 0x1_0000_0000
  {
    j :| 0 <= j < |p| && flags == p[j].flags && BlockFrom(p[j], start, a, size);
    k :| 0 <= k < |p[j].nodes| && RestOf(p[j].nodes[k], start, a, size);
    assert NodeOk(p[j].nodes[k], p[j].min, p[j].max);
  }

  /** A window exactly as large as the request leaves one place for it, and that place is free. */
  lemma ExactWindow(p: seq<Region>, j: nat, k: nat, a: int, want: int)
    requires PoolOk(p) && j < |p| && k < |p[j].nodes| && want > 0 && FitsIn(p[j].nodes[k], a, want)
    ensures Placement(p[j], Request(want, p[j].flags, 1, 0, a, a + want), a)
  {
    FitsAllFree(p[j].nodes, k, a, want);
  }

  /** An allocation from such a window can only return its start. */
  lemma ExactAddress(p: seq<Region>, p': seq<Region>, q: Request, addr: int, j: nat, a: int) returns (i: nat)
    requires PoolOk(p) && j < |p| && q.size > 0 && q.lo == a && q.hi == a + q.size
    requires Placement(p[j], q, a) && AllocOutcome(p, p', q, addr)
    ensures addr == a && ServedBy(p, p', q, a, i)
  {
    if addr == 0 {
      assert false;
    }
    i :| ServedBy(p, p', q, addr, i);
    assert Candidate(q, addr);
  }

  /** It takes the granules of the window. */
  lemma ExactServed(p: seq<Region>, p': seq<Region>, q: Request, i: nat, a: int, to: int)
    requires PoolOk(p) && q.size > 0 && a % 8 == 0 && ServedBy(p, p', q, a, i) && to == Up8(a + q.size)
    ensures PoolTotal(p') < PoolTotal(p) && Gone(p, p', a, to)
  {
    PlacementRegion(p[i], q, a);
    RoundDown(a);
    forall x ensures PoolFree(p', x) <==> PoolFree(p, x) && !(a <= x < to) {
      TakenFree(p, p', i, a, to, x);
    }
    PoolTotalUpdate(p, i, p'[i]);
  }

  lemma WithdrawnStep(p0: seq<Region>, p: seq<Region>, p': seq<Region>, lo: int, mid: int, hi: int, found: int, to: int)
    requires Withdrawn(p0, p, lo, mid, hi) && lo <= mid <= found <= to <= hi
    requires forall x :: mid <= x < found ==> !PoolFree(p, x)
    requires Gone(p, p', found, to)
    ensures Withdrawn(p0, p', lo, found, hi)
  {
  }

  // ----- adding memory to the pool

  function Max(a: int, b: int): int { if a < b then b else a }

  function Min(a: int, b: int): int { if a < b then a else b }

  /** `s` is `r` with the part of [lo, hi) inside the region added to its free list. */
  ghost predicate Added(r: Region, s: Region, lo: int, hi: int)
  {
    if hi > r.min && lo < r.max then Given(r, s, Max(lo, r.min), Min(hi, r.max)) else s == r
  }

  /** The bytes of [lo, hi) that lie in some region become free, the others are dropped. */
  lemma AddedFree(p: seq<Region>, p': seq<Region>, lo: int, hi: int, a: int)
    requires |p'| == |p| && forall j :: 0 <= j < |p| ==> Added(p[j], p'[j], lo, hi)
    ensures PoolFree(p', a) <==> PoolFree(p, a) || (lo <= a < hi && exists j :: 0 <= j < |p| && p[j].min <= a < p[j].max)
  {
    if PoolFree(p, a) {
      var j :| 0 <= j < |p| && IsFree(p[j].nodes, a);
      assert IsFree(p'[j].nodes, a);
    }
    if j :| lo <= a < hi && 0 <= j < |p| && p[j].min <= a < p[j].max {
      assert IsFree(p'[j].nodes, a);
    }
    if PoolFree(p', a) {
      var j :| 0 <= j < |p'| && IsFree(p'[j].nodes, a);
      assert Added(p[j], p'[j], lo, hi);
      assert IsFree(p[j].nodes, a) || (lo <= a < hi && p[j].min <= a < p[j].max);
    }
  }

  // ----- adding a region

  /** Every region from position `k` on belongs after the new one, every earlier one before it. */
  ghost predicate SlotFor(p: seq<Region>, r: Region, k: nat)
  {
    && k <= |p|
    && (forall i :: 0 <= i < k ==> Before(p[i], r))
    && (forall i :: k <= i < |p| ==> Before(r, p[i]))
  }

  lemma InsertRegion(p: seq<Region>, r: Region, k: nat)
    requires PoolOk(p) && RegionOk(r) && SlotFor(p, r, k) && forall i :: 0 <= i < |p| ==> Disjoint(p[i], r)
    ensures PoolOk(p[..k] + [r] + p[k..])
  {
    var q := p[..k] + [r] + p[k..];
    forall x | 0 <= x < |q| ensures RegionOk(q[x]) {
      assert q[x] == if x < k then p[x] else if x == k then r else p[x - 1];
    }
    forall x, y | 0 <= x < y < |q| ensures Disjoint(q[x], q[y]) && Before(q[x], q[y]) {
      InsertedPair(p, r, k, x, y);
    }
  }

  lemma InsertedPair(p: seq<Region>, r: Region, k: nat, x: nat, y: nat)
    requires PoolOk(p) && SlotFor(p, r, k) && (forall i :: 0 <= i < |p| ==> Disjoint(p[i], r)) && x < y <= |p|
    ensures var q := p[..k] + [r] + p[k..]; Disjoint(q[x], q[y]) && Before(q[x], q[y])
  {
    var q := p[..k] + [r] + p[k..];
    assert q[x] == (if x < k then p[x] else if x == k then r else p[x - 1]);
    assert q[y] == (if y < k then p[y] else if y == k then r else p[y - 1]);
  }
}
