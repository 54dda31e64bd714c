/** The kernel malloc layer: a size word in front of every block, and aligned blocks. */
module Malloc {
  import opened Bits
  import opened Align
  import opened Pool
  import opened LmmRuns
  import opened LmmFit
  import Lmm

  class Heap {
    const lmm: Lmm.Lmm
    /** The size words in front of live blocks, by chunk address. */
    var header: map<int, int>

    constructor (pool: Lmm.Lmm)
      ensures lmm == pool && header == map[]
    {
      lmm, header := pool, map[];
    }

    /**
     * The sum of size and header wraps for the largest sizes; the block is then shorter than asked
     * for. For the seven sums that round to 0 the block found stays free, and the header is written
     * over the first record of a free list, which no longer holds together.
     */
    method Malloc(n: int) returns (ptr: int, ghost chunk: int)
      requires lmm.Valid() && 0 <= n < 0x1_0000_0000 && 0 < W32(n + 4)
      modifies this, lmm
      ensures lmm.Valid() <==> chunk == 0 || W32(n + 4) < 0xffff_fff9
      ensures ptr == (if chunk == 0 then 0 else chunk + 4)
      ensures header == if chunk == 0 then old(header) else old(header)[chunk := W32(n + 4)]
      ensures W32(n + 4) < 0xffff_fff9 ==> Obtained(old(lmm.pool), lmm.pool, Lmm.AnyPlace(W32(n + 4), {}), chunk)
      ensures W32(n + 4) >= 0xffff_fff9 ==> lmm.pool == old(lmm.pool) && Refused(lmm.pool, Lmm.AnyPlace(W32(n + 4), {}))
      ensures W32(n + 4) >= 0xffff_fff9 ==> if chunk == 0 then Lmm.NoBlocks(lmm.pool, {}) else Lmm.Heads(lmm.pool, chunk)
      ensures W32(n + 4) == n + 4 <==> n + 4 < 0x1_0000_0000
    {
      var size := W32(n + 4);
      ghost var p := lmm.pool;
      var at := lmm.Alloc(size, {});
      chunk := at;
      if at == 0 {
        return 0, 0;
      }
      if size < 0xffff_fff9 { WasObtained(p, lmm.pool, Lmm.AnyPlace(size, {}), 0, at); }
      PutHeader(at, size);
      return at + 4, at;
    }

    /** The size word in front of a block. */
    method PutHeader(chunk: int, size: int)
      requires lmm.Valid() && size > 0 && (Held(lmm.pool, Block(chunk, size)) || (Lmm.Heads(lmm.pool, chunk) && size % 8 != 0))
      modifies this, lmm`mem
      ensures header == old(header)[chunk := size]
      ensures Held(lmm.pool, Block(chunk, size)) ==> lmm.Valid()
      ensures Lmm.Heads(lmm.pool, chunk) && size % 8 != 0 ==> !lmm.Valid()
    {
      if Held(lmm.pool, Block(chunk, size)) {
        ChunkByte(chunk, size);
        HeldByte(lmm.pool, Block(chunk, size), chunk);
      }
      header := header[chunk := size];
      lmm.Store(chunk, size);
    }

    /** A block whose address is a multiple of the least power of two that is at least `alignment`. */
    method Memalign(alignment: int, n: int) returns (ptr: int, ghost chunk: int, ghost shift: nat)
      requires lmm.Valid() && 0 <= alignment <= 0x8000_0000 && 0 <= n < 0x1_0000_0000 && W32(n + 4) > 0
      requires forall s: nat :: Shift(alignment, s) ==> Serves(lmm.pool, AlignedRequest(W32(n + 4), s))
      modifies this, lmm
      ensures lmm.Valid() && Shift(alignment, shift)
      ensures ptr == (if chunk == 0 then 0 else chunk + 4) && ptr % Pow2(shift) == 0
      ensures header == if chunk == 0 then old(header) else old(header)[chunk := W32(n + 4)]
      ensures Obtained(old(lmm.pool), lmm.pool, AlignedRequest(W32(n + 4), shift), chunk)
    {
      var bits := AlignmentShift(alignment);
      var size := W32(n + 4);
      var at := AllocAligned(size, bits);
      chunk, shift := at, bits;
      if at != 0 { PutHeader(at, size); }
      ptr := After(at, bits);
    }

    /** The address after the header. */
    method After(at: int, ghost bits: nat) returns (ptr: int)
      requires at == 0 || (at + 4) % Pow2(bits) == 0
      ensures ptr == (if at == 0 then 0 else at + 4) && ptr % Pow2(bits) == 0
    {
      if at == 0 {
        ZeroMultiple(Pow2(bits));
        return 0;
      }
      return at + 4;
    }

    method AllocAligned(size: int, bits: nat) returns (chunk: int)
      requires lmm.Valid() && 0 < size < 0x1_0000_0000 && Pow2(bits) <= 0x8000_0000
      requires Serves(lmm.pool, AlignedRequest(size, bits))
      modifies lmm
      ensures lmm.Valid() && Obtained(old(lmm.pool), lmm.pool, AlignedRequest(size, bits), chunk)
      ensures chunk != 0 ==> (chunk + 4) % Pow2(bits) == 0
    {
      AlignedWords(size, bits);
      chunk := lmm.AllocGen(size, {}, bits, W32(Pow2(bits) - 4), 0, 0xffff_ffff);
      if chunk != 0 {
        AlignedBlock(old(lmm.pool), lmm.pool, size, bits, chunk);
        WasObtained(old(lmm.pool), lmm.pool, AlignedRequest(size, bits), bits, chunk);
      }
    }

    /** Give back a block, its size taken from the word in front of it. */
    method Free(ptr: int, ghost g: nat)
      requires lmm.Valid() && ptr - 4 in header && Freeable(lmm.pool, ptr - 4, header[ptr - 4], g)
      modifies lmm
      ensures lmm.Valid() && FreedIn(old(lmm.pool), lmm.pool, ptr - 4, header[ptr - 4], g)
    {
      var chunk := ptr - 4;
      lmm.Free(chunk, header[chunk], g);
    }
  }

  lemma ChunkByte(chunk: int, size: int)
    requires size > 0
    ensures Down8(chunk) <= chunk < Up8(chunk + size)
  {
    Rounding(chunk);
    Rounding(chunk + size);
  }

  /** The least shift whose power of two is at least the alignment. */
  ghost predicate Shift(alignment: int, s: nat)
  {
    alignment <= Pow2(s) <= 0x8000_0000 && (s == 0 || Pow2(s - 1) < alignment)
  }

  /** What memalign asks of the allocator: four bytes short of the alignment, anywhere. */
  function AlignedRequest(size: int, bits: nat): Request
  {
    Request(size, {}, Pow2(bits), W32(Pow2(bits) - 4), 0, 0xffff_ffff)
  }

  method AlignmentShift(alignment: int) returns (s: nat)
    requires 0 <= alignment <= 0x8000_0000
    ensures Shift(alignment, s)
  {
    s := 0;
    while Pow2(s) < alignment
      invariant Pow2(s) <= 0x8000_0000 && (s == 0 || Pow2(s - 1) < alignment)
      decreases 0x8000_0000 - Pow2(s)
    {
      Below31(s);
      s := s + 1;
    }
  }

  lemma Pow2_31()
    ensures Pow2(31) == 0x8000_0000
  {
    Pow2Sixteen();
    Pow2Add(15, 16);
    assert Pow2(16) == 2 * Pow2(15);
  }

  lemma Below31(s: nat)
    requires Pow2(s) < 0x8000_0000
    ensures Pow2(s + 1) <= 0x8000_0000
  {
    Pow2_31();
    if s >= 31 { Pow2Monotone(31, s); }
    Pow2Monotone(s + 1, if s < 31 then 31 else s + 1);
  }

  lemma AlignedWords(size: int, bits: nat)
    requires 0 < size < 0x1_0000_0000 && Pow2(bits) <= 0x8000_0000
    ensures Words(AlignedRequest(size, bits), bits) && W32(0xffff_ffff) == 0xffff_ffff
  {
    if bits > 32 {
      Pow2Word();
      Pow2Monotone(32, bits);
    }
  }

  /** Every size that leaves room for the alignment is served correctly, whatever the pool. */
  lemma MemalignServes(p: seq<Region>, size: int, bits: nat)
    requires PoolOk(p) && 0 < size && Pow2(bits) <= 0x8000_0000 && size + Pow2(bits) <= 0x1_0000_0000
    ensures Serves(p, AlignedRequest(size, bits))
  {
    AlignedWords(size, bits);
    ServesAligned(p, AlignedRequest(size, bits), bits);
  }

  lemma ServedHeld(p: seq<Region>, p': seq<Region>, q: Request, addr: int)
    requires PoolOk(p) && q.size > 0 && q.lo >= 0 && addr != 0 && AllocOutcome(p, p', q, addr)
    ensures Held(p', Block(addr, q.size))
    ensures q.align > 0 && Congruent(addr, q.ofs, q.align)
  {
    var i: nat :| ServedBy(p, p', q, addr, i);
    NewlyHeld(p, p', q, addr, i);
  }

  lemma AlignedBlock(p: seq<Region>, p': seq<Region>, size: int, bits: nat, chunk: int)
    requires PoolOk(p) && size > 0 && Pow2(bits) <= 0x8000_0000 && chunk != 0
    requires AllocOutcome(p, p', AlignedRequest(size, bits), chunk)
    ensures (chunk + 4) % Pow2(bits) == 0
  {
    ServedHeld(p, p', AlignedRequest(size, bits), chunk);
    AlignedAfterHeader(chunk, bits);
  }

  /** The allocation's outcome; a block that was found is held, its size word inside one granule. */
  ghost predicate Obtained(p: seq<Region>, p': seq<Region>, q: Request, chunk: int)
  {
    AllocOutcome(p, p', q, chunk) && (chunk != 0 ==> Held(p', Block(chunk, q.size)) && chunk % 4 == 0)
  }

  lemma WasObtained(p: seq<Region>, p': seq<Region>, q: Request, bits: nat, chunk: int)
    requires PoolOk(p) && Asked(q, bits) && q.size > 0 && chunk != 0 && AllocOutcome(p, p', q, chunk)
    ensures Obtained(p, p', q, chunk)
  {
    ServedHeld(p, p', q, chunk);
    WordAligned(p, p', q, bits, chunk);
  }

  lemma ZeroMultiple(m: int)
    requires m > 0
    ensures 0 % m == 0
  {
    DivModUnique(0, m, 0, 0);
  }

  /** What malloc and memalign ask for. */
  ghost predicate Asked(q: Request, bits: nat)
  {
    q == Lmm.AnyPlace(q.size, {}) || (Pow2(bits) <= 0x8000_0000 && q == AlignedRequest(q.size, bits))
  }

  /** The size word never crosses a granule boundary. */
  lemma WordAligned(p: seq<Region>, p': seq<Region>, q: Request, bits: nat, addr: int)
    requires PoolOk(p) && Asked(q, bits) && q.size > 0 && addr != 0 && AllocOutcome(p, p', q, addr)
    ensures addr % 4 == 0
  {
    if q == Lmm.AnyPlace(q.size, {}) {
      LowestServed(p, p', q, addr);
    } else if bits >= 2 {
      WordAfter(p, p', q.size, bits, addr);
    } else {
      SmallServed(p, p', q.size, bits, addr);
    }
  }

  lemma SmallServed(p: seq<Region>, p': seq<Region>, size: int, bits: nat, addr: int)
    requires PoolOk(p) && size > 0 && bits < 2 && addr != 0 && AllocOutcome(p, p', AlignedRequest(size, bits), addr)
    ensures addr % 4 == 0
  {
    SmallOffsets(bits);
    LowestServed(p, p', AlignedRequest(size, bits), addr);
  }

  lemma LowestServed(p: seq<Region>, p': seq<Region>, q: Request, addr: int)
    requires PoolOk(p) && q.size > 0 && addr != 0 && AllocOutcome(p, p', q, addr)
    requires Coarse(q)
    ensures addr % 4 == 0
  {
    var i: nat :| ServedBy(p, p', q, addr, i);
    LowestIsGranule(p[i], q, addr);
    EightIsFour(addr);
  }

  lemma WordAfter(p: seq<Region>, p': seq<Region>, size: int, bits: nat, addr: int)
    requires PoolOk(p) && size > 0 && bits >= 2 && Pow2(bits) <= 0x8000_0000 && addr != 0
    requires AllocOutcome(p, p', AlignedRequest(size, bits), addr)
    ensures addr % 4 == 0
  {
    AlignedBlock(p, p', size, bits, addr);
    FourBefore(addr, bits);
  }

  /** No demand beyond granules. */
  ghost predicate Coarse(q: Request) { q.lo == 0 && (q.align == 1 || (q.align == 2 && q.ofs % 2 == 0)) }

  lemma SmallOffsets(bits: nat)
    requires bits < 2
    ensures Pow2(bits) == bits + 1 && (bits == 1 ==> W32(Pow2(bits) - 4) % 2 == 0)
  {
    assert Pow2(0) == 1 && Pow2(1) == 2;
  }

  /** Without a demand beyond granules, the lowest placement starts a granule. */
  lemma LowestIsGranule(r: Region, q: Request, addr: int)
    requires RegionOk(r) && q.size > 0 && BestPlace(r, q, addr) && Coarse(q)
    ensures addr % 8 == 0
  {
    Rounding(addr);
    Rounding(addr + q.size);
    PlacementRegion(r, q, addr);
    EvenOffset(addr, q.ofs, q.align);
    assert AllFree(r.nodes, Down8(addr), q.size);
    assert Placement(r, q, Down8(addr));
  }

  lemma EvenOffset(addr: int, ofs: int, align: int)
    requires align == 1 || (align == 2 && ofs % 2 == 0)
    ensures Congruent(Down8(addr), ofs, align)
  {
    RoundDown(addr);
    if align == 1 { DivModUnique(Down8(addr) - ofs, 1, Down8(addr) - ofs, 0); } else { EvenDifference(Down8(addr), ofs); }
  }

  lemma EvenDifference(a: int, b: int)
    requires a % 8 == 0 && b % 2 == 0
    ensures (a - b) % 2 == 0
  {
    DivModUnique(a - b, 2, 4 * (a / 8) - b / 2, 0);
  }

  lemma EightIsFour(x: int)
    requires x % 8 == 0
    ensures x % 4 == 0
  {
    DivModUnique(x, 4, 2 * (x / 8), 0);
  }

  lemma FourBefore(x: int, bits: nat)
    requires bits >= 2 && (x + 4) % Pow2(bits) == 0
    ensures x % 4 == 0
  {
    Quarter(x, (x + 4) / Pow2(bits), Pow2(bits), Pow2(bits - 2));
  }

  lemma Quarter(x: int, k: int, m: int, q: int)
    requires m == 4 * q && x + 4 == k * m
    ensures x % 4 == 0
  {
    assert x == 4 * (k * q - 1);
    DivModUnique(x, 4, k * q - 1, 0);
  }

  /** An address four short of a multiple of the alignment: the word after it is aligned. */
  lemma AlignedAfterHeader(chunk: int, bits: nat)
    requires Pow2(bits) <= 0x8000_0000 && Congruent(chunk, W32(Pow2(bits) - 4), Pow2(bits))
    ensures (chunk + 4) % Pow2(bits) == 0
  {
    var m: int := Pow2(bits);
    var ofs: int := W32(m - 4);
    if m >= 4 {
      WordSame(m - 4);
      StepsOver(chunk, ofs, m, 1);
    } else {
      SmallPower(bits);
      StepsOver(chunk, ofs, m, if m == 1 then 0x1_0000_0001 else 0x8000_0001);
    }
  }

  lemma StepsOver(chunk: int, ofs: int, m: int, c: int)
    requires m > 0 && Congruent(chunk, ofs, m) && ofs + 4 == c * m
    ensures (chunk + 4) % m == 0
  {
    var k := (chunk - ofs) / m;
    assert chunk - ofs == k * m;
    Distribute(k, c, m);
    DivModUnique(chunk + 4, m, k + c, 0);
  }

  lemma SmallPower(bits: nat)
    requires Pow2(bits) < 4
    ensures Pow2(bits) == 1 || Pow2(bits) == 2
  {
  }

  /** malloc then free, or memalign then free, leaves the pool as it was. */
  lemma MallocFreeRestores(p: seq<Region>, p1: seq<Region>, p2: seq<Region>, size: int, shift: nat, ptr: int, g: nat)
    requires PoolOk(p) && size > 0 && ptr - 4 != 0
    requires AllocOutcome(p, p1, Lmm.AnyPlace(size, {}), ptr - 4) || AllocOutcome(p, p1, AlignedRequest(size, shift), ptr - 4)
    requires FreedIn(p1, p2, ptr - 4, size, g)
    ensures p2 == p
  {
    if AllocOutcome(p, p1, Lmm.AnyPlace(size, {}), ptr - 4) {
      FreeUndoesAlloc(p, p1, p2, Lmm.AnyPlace(size, {}), ptr - 4, g);
    } else {
      FreeUndoesAlloc(p, p1, p2, AlignedRequest(size, shift), ptr - 4, g);
    }
  }
}
