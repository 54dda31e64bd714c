/**
 * A memory pool: regions in priority order, each with its canonical free list and free-byte counter,
 * and what allocation and freeing may do to it. The outcomes are stated in terms of free bytes only;
 * as free lists are canonical, this fixes the resulting lists completely.
 */
module Pool {
  import opened Bits
  import opened Align
  import opened FreeList

  /** A word of attribute bits, as the set of its one bits. */
  type Flags = set<nat>

  datatype Region = Region(min: int, max: int, flags: Flags, pri: int, free: int, nodes: seq<Node>)

  ghost predicate RegionOk(r: Region)
  {
    && 0 <= r.min < r.max < 0x1_0000_0000 && r.min % 8 == 0 && r.max % 8 == 0
    && Canonical(r.nodes, r.min, r.max)
    && r.free == Total(r.nodes)
  }

  predicate Disjoint(r: Region, s: Region) { r.max <= s.min || s.max <= r.min }

  /** Descending priority; equal priorities from the largest region down. */
  predicate Before(r: Region, s: Region)
  {
    r.pri > s.pri || (r.pri == s.pri && r.max - r.min >= s.max - s.min)
  }

  ghost predicate PoolOk(p: seq<Region>)
  {
    && (forall i :: 0 <= i < |p| ==> RegionOk(p[i]))
    && (forall i, j :: 0 <= i < j < |p| ==> Disjoint(p[i], p[j]) && Before(p[i], p[j]))
  }

  ghost predicate PoolFree(p: seq<Region>, a: int)
  {
    exists i :: 0 <= i < |p| && IsFree(p[i].nodes, a)
  }

  ghost function PoolTotal(p: seq<Region>): int
  {
    if |p| == 0 then 0 else p[0].free + PoolTotal(p[1..])
  }

  // ----- requests

  /** A request: bytes wanted, region attributes wanted, alignment and offset, address window. */
  datatype Request = Request(size: int, flags: Flags, align: int, ofs: int, lo: int, hi: int)

  /** `x` meets the alignment and the window of the request. */
  predicate Candidate(q: Request, x: int)
  {
    q.align > 0 && q.lo <= x && x + q.size <= q.hi && Congruent(x, q.ofs, q.align)
  }

  predicate FitsIn(n: Node, x: int, size: int) { n.addr <= x && x + size <= n.addr + n.size }

  ghost predicate AllFree(ns: seq<Node>, x: int, size: int)
  {
    forall a :: x <= a < x + size ==> IsFree(ns, a)
  }

  /** The request can be served at `x` in this region. */
  ghost predicate Placement(r: Region, q: Request, x: int)
  {
    q.flags <= r.flags && Candidate(q, x) && AllFree(r.nodes, x, q.size)
  }

  lemma FitsAllFree(ns: seq<Node>, k: nat, x: int, size: int)
    requires k < |ns| && FitsIn(ns[k], x, size)
    ensures AllFree(ns, x, size)
  {
    forall a | x <= a < x + size ensures IsFree(ns, a) { assert Holds(ns[k], a); }
  }

  // ----- effects

  /** `s` is `r` with the bytes [lo, hi) no longer free. */
  ghost predicate Taken(r: Region, s: Region, lo: int, hi: int)
  {
    && RegionOk(s) && s == r.(free := r.free - (hi - lo), nodes := s.nodes)
    && forall a :: IsFree(s.nodes, a) <==> IsFree(r.nodes, a) && !(lo <= a < hi)
  }

  /** `s` is `r` with the bytes [lo, hi) free again. */
  ghost predicate Given(r: Region, s: Region, lo: int, hi: int)
  {
    && RegionOk(s) && s == r.(free := r.free + (hi - lo), nodes := s.nodes)
    && forall a :: IsFree(s.nodes, a) <==> IsFree(r.nodes, a) || lo <= a < hi
  }

  ghost predicate NoneIn(r: Region, q: Request)
  {
    forall x :: !Placement(r, q, x)
  }

  /** The lowest address at which the region can serve the request. */
  ghost predicate BestPlace(r: Region, q: Request, addr: int)
  {
    Placement(r, q, addr) && forall x :: Placement(r, q, x) ==> addr <= x
  }

  /** The request is served at the lowest possible address and takes whole granules. */
  ghost predicate PlacedIn(r: Region, s: Region, q: Request, addr: int)
  {
    BestPlace(r, q, addr) && Taken(r, s, Down8(addr), Up8(addr + q.size))
  }

  /** The request is served by region `i`, the first that can. */
  ghost predicate ServedBy(p: seq<Region>, p': seq<Region>, q: Request, addr: int, i: nat)
  {
    && i < |p| == |p'| && p' == p[i := p'[i]]
    && PlacedIn(p[i], p'[i], q, addr)
    && (forall j :: 0 <= j < i ==> NoneIn(p[j], q))
  }

  ghost predicate Refused(p: seq<Region>, q: Request)
  {
    forall i :: 0 <= i < |p| ==> NoneIn(p[i], q)
  }

  /** What an allocation returning `addr` (null when it fails) does. */
  ghost predicate AllocOutcome(p: seq<Region>, p': seq<Region>, q: Request, addr: int)
  {
    if addr == 0 then p' == p && Refused(p, q)
    else exists i: nat :: ServedBy(p, p', q, addr, i)
  }

  /** The granules [lo, hi) lie in region `i` and none of their bytes is free. */
  ghost predicate RangeFreeable(p: seq<Region>, lo: int, hi: int, i: nat)
  {
    && i < |p| && 0 < lo < hi && lo % 8 == 0 && hi % 8 == 0
    && p[i].min <= lo && hi <= p[i].max
    && forall a :: lo <= a < hi ==> !IsFree(p[i].nodes, a)
  }

  ghost predicate RangeFreed(p: seq<Region>, p': seq<Region>, lo: int, hi: int, i: nat)
  {
    && i < |p| == |p'| && p' == p[i := p'[i]]
    && p[i].min <= lo < p[i].max
    && Given(p[i], p'[i], lo, hi)
  }

  /** A block that may be freed: its granules are in one region and not free already. */
  ghost predicate Freeable(p: seq<Region>, addr: int, size: int, i: nat)
  {
    0 <= addr && size > 0 && RangeFreeable(p, Down8(addr), Up8(addr + size), i)
  }

  ghost predicate FreedIn(p: seq<Region>, p': seq<Region>, addr: int, size: int, i: nat)
  {
    RangeFreed(p, p', Down8(addr), Up8(addr + size), i)
  }

  // ----- regions and effects

  lemma TakeRegion(r: Region, k: nat, lo: int, hi: int)
    requires RegionOk(r) && k < |r.nodes| && Inside(r.nodes[k], lo, hi)
    ensures Taken(r, r.(free := r.free - (hi - lo), nodes := Take(r.nodes, k, lo, hi)), lo, hi)
  {
    TakeCanonical(r.nodes, k, lo, hi, r.min, r.max);
    TakeTotal(r.nodes, k, lo, hi);
    forall a ensures IsFree(Take(r.nodes, k, lo, hi), a) <==> IsFree(r.nodes, a) && !(lo <= a < hi) {
      TakeFree(r.nodes, k, lo, hi, r.min, r.max, a);
    }
  }

  lemma GiveRegion(r: Region, k: nat, lo: int, hi: int)
    requires RegionOk(r) && FitsAt(r.nodes, k, lo, hi) && r.min <= lo && hi <= r.max
    ensures Given(r, r.(free := r.free + (hi - lo), nodes := Insert(r.nodes, k, lo, hi)), lo, hi)
  {
    InsertCanonical(r.nodes, k, lo, hi, r.min, r.max);
    InsertTotal(r.nodes, k, lo, hi);
    forall a ensures IsFree(Insert(r.nodes, k, lo, hi), a) <==> IsFree(r.nodes, a) || lo <= a < hi {
      InsertFree(r.nodes, k, lo, hi, r.min, r.max, a);
    }
  }

  /** The counter never exceeds the region. */
  lemma FreeBound(r: Region)
    requires RegionOk(r)
    ensures 0 <= r.free <= r.max - r.min
  {
    TotalBound(r.nodes, r.min, r.max);
  }

  /** Changing one region's list and counter keeps the pool in order. */
  lemma ReplaceRegion(p: seq<Region>, i: nat, s: Region)
    requires PoolOk(p) && i < |p| && RegionOk(s) && s == p[i].(free := s.free, nodes := s.nodes)
    ensures PoolOk(p[i := s])
  {
  }

  lemma {:induction false} PoolTotalUpdate(p: seq<Region>, i: nat, s: Region)
    requires i < |p|
    ensures PoolTotal(p[i := s]) == PoolTotal(p) - p[i].free + s.free
  {
    if i > 0 {
      assert p[i := s][1..] == p[1..][i - 1 := s];
      PoolTotalUpdate(p[1..], i - 1, s);
    } else {
      assert p[0 := s][1..] == p[1..];
    }
  }

  /** A region is determined by its fixed part and its free bytes. */
  lemma RegionUnique(r: Region, s: Region)
    requires RegionOk(r) && RegionOk(s) && s == r.(free := s.free, nodes := s.nodes)
    requires forall a :: IsFree(s.nodes, a) <==> IsFree(r.nodes, a)
    ensures s == r
  {
    CanonicalUnique(s.nodes, r.nodes, r.min, r.max);
  }

  /** Freeing a block just allocated puts every list and counter back exactly. */
  lemma FreeUndoesAlloc(p: seq<Region>, p1: seq<Region>, p2: seq<Region>, q: Request, addr: int, j: nat)
    requires PoolOk(p) && q.size > 0 && addr != 0 && AllocOutcome(p, p1, q, addr) && FreedIn(p1, p2, addr, q.size, j)
    ensures p2 == p
  {
    var i: nat :| ServedBy(p, p1, q, addr, i);
    PlacementRegion(p[i], q, addr);
    OneRegion(p, i, j, Down8(addr));
    TakenThenGiven(p[i], p1[i], p2[i], Down8(addr), Up8(addr + q.size));
    assert p2 == p1[i := p[i]];
  }

  lemma TakenThenGiven(r: Region, s: Region, t: Region, lo: int, hi: int)
    requires RegionOk(r) && Taken(r, s, lo, hi) && Given(s, t, lo, hi) && AllFree(r.nodes, lo, hi - lo)
    ensures t == r
  {
    RegionUnique(r, t);
  }

  // ----- what an outcome says, in so many words

  /** The bytes from `x` on are free in the region and meet the request's alignment and window. */
  ghost predicate HasRoom(r: Region, q: Request, x: int)
  {
    && (forall a :: x <= a < x + q.size ==> IsFree(r.nodes, a))
    && q.align > 0 && (x - q.ofs) % q.align == 0 && q.lo <= x && x + q.size <= q.hi
  }

  /**
   * A region that has every attribute asked for serves the request, at its lowest possible address,
   * and it is the first such region in order; null means that no such region has room.
   */
  lemma ServedWhere(p: seq<Region>, p': seq<Region>, q: Request, addr: int) returns (i: nat)
    requires AllocOutcome(p, p', q, addr)
    ensures addr != 0 ==> i < |p| && q.flags <= p[i].flags && HasRoom(p[i], q, addr)
    ensures addr != 0 ==> forall x :: HasRoom(p[i], q, x) ==> addr <= x
    ensures forall j, x :: 0 <= j < (if addr != 0 then i else |p|) && q.flags <= p[j].flags ==> !HasRoom(p[j], q, x)
  {
    i := 0;
    if addr != 0 { i :| ServedBy(p, p', q, addr, i); }
    assert forall j, x :: 0 <= j < |p| && q.flags <= p[j].flags ==> (Placement(p[j], q, x) <==> HasRoom(p[j], q, x));
  }

  lemma OneRegion(p: seq<Region>, i: nat, j: nat, a: int)
    requires PoolOk(p) && i < |p| && j < |p| && p[i].min <= a < p[i].max && p[j].min <= a < p[j].max
    ensures i == j
  {
  }

  /** The granules of a placement lie inside one free block, hence in the region. */
  lemma PlacementBlock(r: Region, q: Request, x: int) returns (k: nat)
    requires RegionOk(r) && q.size > 0 && AllFree(r.nodes, x, q.size)
    ensures k < |r.nodes| && FitsIn(r.nodes[k], x, q.size) && Inside(r.nodes[k], Down8(x), Up8(x + q.size))
  {
    k := RunInOneBlock(r.nodes, r.min, r.max, x, q.size);
    assert NodeOk(r.nodes[k], r.min, r.max);
    RoundInside(r.nodes[k], x, q.size);
  }

  lemma RoundInside(n: Node, x: int, size: int)
    requires size > 0 && FitsIn(n, x, size) && n.addr % 8 == 0 && n.size % 8 == 0
    ensures Inside(n, Down8(x), Up8(x + size))
  {
    Rounding(x);
    Rounding(x + size);
    Granules(n.addr, n.size);
    Multiples(n.addr, Down8(x));
    Multiples(Up8(x + size), n.addr + n.size);
  }

  lemma Multiples(a: int, b: int)
    requires a % 8 == 0 && b % 8 == 0 && a < b + 8
    ensures a <= b
  {
  }

  lemma PlacementRegion(r: Region, q: Request, x: int)
    requires RegionOk(r) && q.size > 0 && AllFree(r.nodes, x, q.size)
    ensures r.min <= Down8(x) < Up8(x + q.size) <= r.max && 0 < Down8(x)
    ensures AllFree(r.nodes, Down8(x), Up8(x + q.size) - Down8(x))
  {
    var k := PlacementBlock(r, q, x);
    assert NodeOk(r.nodes[k], r.min, r.max);
    FitsAllFree(r.nodes, k, Down8(x), Up8(x + q.size) - Down8(x));
  }
}
