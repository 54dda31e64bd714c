/**
 * The boot-time memory map: the scan that hands every stretch of physical memory outside a list of
 * holes to the allocator, and the three regions it builds.
 */
module BootMap {
  import opened Align
  import opened FreeList
  import opened Pool
  import opened LmmRanges
  import Lmm

  /** A half-open address range; a hole with min >= max is empty. */
  datatype Range = Range(min: int, max: int)

  predicate Within(r: Range, a: int) { r.min <= a < r.max }

  ghost predicate Covered(rs: seq<Range>, a: int)
  {
    exists i :: 0 <= i < |rs| && Within(rs[i], a)
  }

  predicate Word(a: int) { 0 <= a < 0x1_0000_0000 }

  ghost predicate WordRanges(rs: seq<Range>)
  {
    forall i :: 0 <= i < |rs| ==> Word(rs[i].min) && Word(rs[i].max)
  }

  /** The blocks found so far: ascending, apart, and exactly the uncovered addresses up to `min`. */
  ghost predicate FoundUpTo(blocks: seq<Range>, holes: seq<Range>, min: int)
  {
    && (forall i :: 0 <= i < |blocks| ==> 0x500 <= blocks[i].min < blocks[i].max <= min && blocks[i].max <= 0xffff_ffff)
    && (forall i, j :: 0 <= i < j < |blocks| ==> blocks[i].max <= blocks[j].min)
    && (forall a :: 0x500 <= a < min && a < 0xffff_ffff ==> (Covered(blocks, a) <==> !Covered(holes, a)))
  }

  /** One pass over the holes: clip the candidate block, or start again past a hole. */
  method SkipHoles(min: int, holes: seq<Range>) returns (retry: bool, next: int)
    requires WordRanges(holes) && 0x500 <= min < 0xffff_ffff
    ensures min < next && Word(next)
    ensures retry ==> forall a :: min <= a < next ==> Covered(holes, a)
    ensures !retry ==> next <= 0xffff_ffff && forall a :: min <= a < next ==> !Covered(holes, a)
  {
    var max := 0xffff_ffff;
    for i := 0 to |holes|
      invariant min < max <= 0xffff_ffff
      invariant forall j, a :: 0 <= j < i && min <= a < max ==> !Within(holes[j], a)
    {
      var h := holes[i];
      if max > h.min && min < h.max {
        if min < h.min {
          max := h.min;
        } else {
          forall a | min <= a < h.max ensures Covered(holes, a) { assert Within(holes[i], a); }
          return true, h.max;
        }
      }
    }
    return false, max;
  }

  /** The whole scan. */
  method ScanMemory(holes: seq<Range>) returns (blocks: seq<Range>)
    requires WordRanges(holes)
    ensures FoundUpTo(blocks, holes, 0xffff_ffff)
  {
    blocks := [];
    var min := 0x500;
    while min < 0xffff_ffff
      invariant 0x500 <= min && FoundUpTo(blocks, holes, min)
      decreases 0x1_0000_0000 - min
    {
      var retry, next := SkipHoles(min, holes);
      if retry {
        SkippedOn(blocks, holes, min, next);
      } else {
        FoundMore(blocks, holes, min, next);
        blocks := blocks + [Range(min, next)];
      }
      min := next;
    }
  }

  lemma SkippedOn(blocks: seq<Range>, holes: seq<Range>, min: int, next: int)
    requires FoundUpTo(blocks, holes, min) && min < next && forall a :: min <= a < next ==> Covered(holes, a)
    ensures FoundUpTo(blocks, holes, next)
  {
    forall a | min <= a < next ensures !Covered(blocks, a) {
    }
  }

  lemma FoundMore(blocks: seq<Range>, holes: seq<Range>, min: int, next: int)
    requires FoundUpTo(blocks, holes, min) && 0x500 <= min < next <= 0xffff_ffff
    requires forall a :: min <= a < next ==> !Covered(holes, a)
    ensures FoundUpTo(blocks + [Range(min, next)], holes, next)
  {
    var more := blocks + [Range(min, next)];
    forall a | 0x500 <= a < next ensures Covered(more, a) <==> !Covered(holes, a) {
      CoveredAppend(blocks, Range(min, next), a);
      if a >= min { assert !Covered(blocks, a); }
    }
  }

  lemma CoveredAppend(rs: seq<Range>, r: Range, a: int)
    ensures Covered(rs + [r], a) <==> Covered(rs, a) || Within(r, a)
  {
    if Covered(rs, a) {
      var i :| 0 <= i < |rs| && Within(rs[i], a);
      assert Within((rs + [r])[i], a);
    }
    if Within(r, a) { assert Within((rs + [r])[|rs|], a); }
  }

  // ----- handing the blocks to the allocator

  /** The allocator's own assertion on a block it is given: rounding inwards must not cross. */
  predicate Acceptable(r: Range) { Up8(r.min) <= Down8(r.max) }

  /** It fails exactly on a block strictly inside one granule. */
  lemma RejectedBlocks(r: Range)
    requires r.min < r.max
    ensures !Acceptable(r) <==> Down8(r.min) < r.min && r.max < Down8(r.min) + 8
  {
    Rounding(r.min);
    Rounding(r.max);
    if Down8(r.min) < r.min { Closest(Up8(r.min), Down8(r.min) + 8); }
    if r.max < Down8(r.min) + 8 { Closest(Down8(r.max), Down8(r.min)); }
    if !Acceptable(r) && !(r.max < Down8(r.min) + 8) { Multiples(Down8(r.min) + 8, Down8(r.max)); }
  }

  /** Two holes that end and begin within one granule: the scan always hands out such a block. */
  lemma TinyGap(blocks: seq<Range>)
    requires FoundUpTo(blocks, [Range(0x500, 0x501), Range(0x503, 0xffff_ffff)], 0xffff_ffff)
    ensures exists i :: 0 <= i < |blocks| && !Acceptable(blocks[i])
  {
    var holes := [Range(0x500, 0x501), Range(0x503, 0xffff_ffff)];
    forall a ensures Covered(holes, a) <==> 0x500 <= a < 0x501 || 0x503 <= a < 0xffff_ffff {
      assert Covered(holes, a) <==> Within(holes[0], a) || Within(holes[1], a);
    }
    assert Covered(blocks, 0x501);
    var i :| 0 <= i < |blocks| && Within(blocks[i], 0x501);
    assert !Covered(blocks, 0x500) && !Covered(blocks, 0x503);
    assert !Within(blocks[i], 0x500) && !Within(blocks[i], 0x503);
    assert blocks[i].min == 0x501;
    ClearsLowBits(0x501);
    RejectedBlocks(blocks[i]);
  }

  const ONE_MEG: Flags := {0, 1}
  const SIXTEEN_MEG: Flags := {1}

  /** The three regions, in the order insertion by unsigned priority puts them. */
  function BootRegions(): seq<Region>
  {
    [Region(0x10_0000, 0x100_0000, SIXTEEN_MEG, 0xffff_ffff, 0, []),
     Region(0, 0x10_0000, ONE_MEG, 0xffff_fffe, 0, []),
     Region(0x100_0000, 0xffff_fff8, {}, 0, 0, [])]
  }

  ghost predicate BootShape(p: seq<Region>)
  {
    && |p| == 3
    && p[0].min == 0x10_0000 && p[0].max == 0x100_0000 && p[0].flags == {1}
    && p[1].min == 0 && p[1].max == 0x10_0000 && p[1].flags == {0, 1}
    && p[2].min == 0x100_0000 && p[2].max == 0xffff_fff8 && p[2].flags == {}
  }

  lemma RoundedBounds()
    ensures Up8(0) == 0 && Down8(0x10_0000) == Up8(0x10_0000) == 0x10_0000
    ensures Down8(0x100_0000) == Up8(0x100_0000) == 0x100_0000 && Down8(0xffff_ffff) == 0xffff_fff8
  {
    Rounding(0);
    Rounding(0x10_0000);
    Rounding(0x100_0000);
    ClearsLowBits(0xffff_ffff);
  }

  /** The initial pool: three empty regions, highest unsigned priority first. */
  method AddBootRegions() returns (lmm: Lmm.Lmm)
    ensures fresh(lmm) && lmm.Valid() && lmm.pool == BootRegions()
  {
    lmm := new Lmm.Lmm();
    RoundedBounds();
    var k := lmm.AddRegion(0, 0x10_0000, ONE_MEG, 0xffff_fffe);
    assert lmm.pool == [BootRegions()[1]];
    k := lmm.AddRegion(0x10_0000, 0xf0_0000, SIXTEEN_MEG, 0xffff_ffff);
    FirstOfTwo(lmm.pool, BootRegions()[1], BootRegions()[0], k);
    AddHighRegion(lmm);
  }

  method AddHighRegion(lmm: Lmm.Lmm)
    requires lmm.Valid() && lmm.pool == BootRegions()[..2]
    modifies lmm
    ensures lmm.Valid() && lmm.pool == BootRegions()
  {
    RoundedBounds();
    var k := lmm.AddRegion(0x100_0000, 0xfeff_ffff, {}, 0);
    LastOfThree(lmm.pool, BootRegions(), k);
  }

  lemma FirstOfTwo(p: seq<Region>, old': Region, new': Region, k: nat)
    requires k <= 1 && p == [old'][..k] + [new'] + [old'][k..] && PoolOk(p) && !Before(old', new')
    ensures p == [new', old']
  {
    assert p[k] == new' && p[1 - k] == old';
  }

  lemma LastOfThree(p: seq<Region>, q: seq<Region>, k: nat)
    requires |q| == 3 && k <= 2 && p == q[..2][..k] + [q[2]] + q[..2][k..] && PoolOk(p)
    requires !Before(q[2], q[0]) && !Before(q[2], q[1])
    ensures p == q
  {
    assert p[k] == q[2] && p[if k < 2 then k + 1 else 0] == q[if k < 2 then k else 0];
  }

  /** Byte `a` is in the granules of one of the first `n` blocks. */
  ghost predicate Handed(blocks: seq<Range>, n: nat, a: int)
    requires n <= |blocks|
  {
    exists i :: 0 <= i < n && Up8(blocks[i].min) <= a < Down8(blocks[i].max)
  }

  /**
   * Start-up of the allocator. The outcome is the allocator's assertion failing on a block inside a
   * single granule, or a pool whose free bytes are exactly the granules inside the scanned blocks.
   */
  method Start(holes: seq<Range>) returns (lmm: Lmm.Lmm, ok: bool, blocks: seq<Range>)
    requires WordRanges(holes)
    ensures FoundUpTo(blocks, holes, 0xffff_ffff)
    ensures ok <==> forall i :: 0 <= i < |blocks| ==> Acceptable(blocks[i])
    ensures ok ==> lmm.Valid() && BootShape(lmm.pool) && forall a :: PoolFree(lmm.pool, a) <==> Handed(blocks, |blocks|, a)
  {
    blocks := ScanMemory(holes);
    lmm := AddBootRegions();
    ok := true;
    for n := 0 to |blocks|
      invariant fresh(lmm) && lmm.Valid() && BootShape(lmm.pool)
      invariant forall i :: 0 <= i < n ==> Acceptable(blocks[i])
      invariant forall a :: PoolFree(lmm.pool, a) <==> Handed(blocks, n, a)
    {
      if !Acceptable(blocks[n]) {
        return lmm, false, blocks;
      }
      HandBlock(lmm, blocks, holes, n);
    }
  }

  method HandBlock(lmm: Lmm.Lmm, blocks: seq<Range>, ghost holes: seq<Range>, n: nat)
    requires lmm.Valid() && BootShape(lmm.pool) && FoundUpTo(blocks, holes, 0xffff_ffff)
    requires n < |blocks| && Acceptable(blocks[n])
    requires forall a :: PoolFree(lmm.pool, a) <==> Handed(blocks, n, a)
    modifies lmm
    ensures lmm.Valid() && BootShape(lmm.pool)
    ensures forall a :: PoolFree(lmm.pool, a) <==> Handed(blocks, n + 1, a)
  {
    var b := blocks[n];
    NotYetFree(lmm.pool, blocks, holes, n);
    ghost var p := lmm.pool;
    Rounding(b.min);
    Rounding(b.max);
    lmm.AddFree(b.min, b.max - b.min);
    forall a ensures PoolFree(lmm.pool, a) <==> Handed(blocks, n + 1, a) {
      AddedFree(p, lmm.pool, Up8(b.min), Down8(b.max), a);
      if Up8(b.min) <= a < Down8(b.max) { InBootRegion(p, b, a); }
      HandedMore(blocks, n, a);
    }
    assert forall j :: 0 <= j < 3 ==> Added(p[j], lmm.pool[j], Up8(b.min), Down8(b.max));
  }

  lemma NotYetFree(p: seq<Region>, blocks: seq<Range>, holes: seq<Range>, n: nat)
    requires FoundUpTo(blocks, holes, 0xffff_ffff) && n < |blocks|
    requires forall a :: PoolFree(p, a) <==> Handed(blocks, n, a)
    ensures forall a :: Up8(blocks[n].min) <= a < Down8(blocks[n].max) ==> !PoolFree(p, a)
  {
    Rounding(blocks[n].min);
    forall i | 0 <= i < n ensures Down8(blocks[i].max) <= Up8(blocks[n].min) {
      Rounding(blocks[i].max);
    }
  }

  lemma InBootRegion(p: seq<Region>, b: Range, a: int)
    requires BootShape(p) && 0x500 <= b.min && b.max <= 0xffff_ffff && Up8(b.min) <= a < Down8(b.max)
    ensures exists j :: 0 <= j < |p| && p[j].min <= a < p[j].max
  {
    Rounding(b.min);
    Rounding(b.max);
    RoundedBounds();
    Multiples(Down8(b.max), 0xffff_fff8);
    var j := if a < 0x10_0000 then 1 else if a < 0x100_0000 then 0 else 2;
    assert p[j].min <= a < p[j].max;
  }

  /** `size` bytes from `x` on are free in the region. */
  ghost predicate Run(r: Region, x: int, size: int)
  {
    forall a :: x <= a < x + size ==> IsFree(r.nodes, a)
  }

  lemma RunInRegion(r: Region, q: Request, x: int)
    requires RegionOk(r) && q.size > 0 && q == Lmm.AnyPlace(q.size, q.flags) && Run(r, x, q.size)
    ensures r.min <= x && x + q.size <= r.max && HasRoom(r, q, x)
  {
    PlacementRegion(r, q, x);
    Rounding(x);
    Rounding(x + q.size);
  }

  /**
   * Which memory serves which request: attribute 0 (below 1 MB) and attribute 1 (below 16 MB) are
   * honoured, and of what is allowed memory from 1 to 16 MB comes first, then below 1 MB, then the rest.
   */
  lemma BootOrder(p: seq<Region>, p': seq<Region>, size: int, flags: Flags, addr: int)
    requires PoolOk(p) && BootShape(p) && size > 0 && AllocOutcome(p, p', Lmm.AnyPlace(size, flags), addr)
    ensures addr != 0 ==> flags <= {0, 1} && 0 < addr && exists i :: 0 <= i < 3 && Run(p[i], addr, size)
    ensures addr != 0 && 0 in flags ==> addr + size <= 0x10_0000
    ensures addr != 0 && 1 in flags ==> addr + size <= 0x100_0000
    ensures flags <= {1} && (exists x :: Run(p[0], x, size)) ==> 0x10_0000 <= addr && addr + size <= 0x100_0000
    ensures flags <= {0, 1} && (exists x :: Run(p[1], x, size)) ==> addr != 0 && addr + size <= 0x100_0000
    ensures flags == {} && (exists x :: Run(p[2], x, size)) ==> addr != 0
  {
    var q := Lmm.AnyPlace(size, flags);
    var i := ServedWhere(p, p', q, addr);
    forall j, x | 0 <= j < 3 && Run(p[j], x, size) ensures p[j].min <= x && x + size <= p[j].max && HasRoom(p[j], q, x) {
      RunInRegion(p[j], q, x);
    }
    if addr != 0 {
      assert Run(p[i], addr, size);
      PlacementRegion(p[i], q, addr);
      Rounding(addr);
    }
  }

  lemma HandedMore(blocks: seq<Range>, n: nat, a: int)
    requires n < |blocks|
    ensures Handed(blocks, n + 1, a) <==> Handed(blocks, n, a) || Up8(blocks[n].min) <= a < Down8(blocks[n].max)
  {
  }
}
