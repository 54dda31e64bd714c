/**
 * The list memory manager. Regions are records in a priority-ordered sequence; free-list nodes
 * live in `mem`, the memory being managed, and are relinked in place.
 */
module Lmm {
  import opened Bits
  import opened Align
  import opened FreeList
  import opened LinkedNodes
  import opened Pool
  import opened LmmRanges
  import opened LmmFit

  datatype RegionRec = RegionRec(nodes: int, min: int, max: int, flags: Flags, pri: int, free: int)

  /** A region record and the memory represent an abstract region. */
  ghost predicate Rep(rr: RegionRec, r: Region, mem: Memory)
  {
    && rr == RegionRec(rr.nodes, r.min, r.max, r.flags, r.pri, r.free)
    && Linked(mem, rr.nodes, r.nodes)
  }

  /** The address of the block before position `k`; null stands for the region's own list head. */
  function PrevAt(ns: seq<Node>, k: nat): int { if 0 < k <= |ns| then ns[k - 1].addr else 0 }

  lemma CursorFacts(mem: Memory, head: int, r: Region, k: nat)
    requires RegionOk(r) && Linked(mem, head, r.nodes) && k < |r.nodes|
    ensures AddrAt(r.nodes, k) != 0 && AddrAt(r.nodes, k) in mem
    ensures mem[AddrAt(r.nodes, k)] == NodeRec(AddrAt(r.nodes, k + 1), r.nodes[k].size)
    ensures NodeOk(r.nodes[k], r.min, r.max)
  {
    assert At(mem, r.nodes[k], NextAt(r.nodes, k, 0));
  }

  /** The checks made on one free block, in 32-bit arithmetic. */
  method Examine(q: Request, bits: nat, n: Node) returns (v: Verdict)
    requires Words(q, bits) && WordBlock(n)
    ensures v == VerdictOn(q, n)
  {
    if n.size < q.size {
      return Skip;
    }
    var addr := AlignUp(if n.addr < q.lo then q.lo else n.addr, bits, q.ofs);
    var fits := FitTest(q, n, addr);
    if !fits {
      return Skip;
    }
    var past := WindowTest(q, n, addr);
    if past {
      return Stop;
    }
    return Fit(addr);
  }

  method FitTest(q: Request, n: Node, addr: int) returns (fits: bool)
    requires q.align > 0 && q.size > 0 && n.size < 0x1_0000_0000 && addr == W32(Least(q, n))
    ensures fits <==> Span(q, n) <= n.size || WrongPass(q, n)
  {
    PassesIff(q, n);
    fits := !(W32(W32(addr - n.addr) + q.size) > n.size);
  }

  method WindowTest(q: Request, n: Node, addr: int) returns (past: bool)
    requires q.align > 0 && addr == W32(Least(q, n))
    ensures past <==> W32(Least(q, n) + q.size) > q.hi
  {
    WrapAdd(Least(q, n), q.size);
    past := W32(addr + q.size) > q.hi;
  }

  /** The inner loop over one region's free list. */
  method SearchRegion(mem: Memory, rr: RegionRec, q: Request, bits: nat, ghost r: Region)
    returns (found: bool, prev: int, node: int, addr: int, ghost k: nat)
    requires RegionOk(r) && Rep(rr, r, mem) && Words(q, bits)
    ensures Choose(r.nodes, q, 0) == if found then Chosen(k, addr) else Nothing
    ensures found ==> k < |r.nodes| && node == r.nodes[k].addr && prev == PrevAt(r.nodes, k)
  {
    found, prev, node, addr, k := false, 0, rr.nodes, 0, 0;
    while node != 0
      invariant k <= |r.nodes| && node == AddrAt(r.nodes, k) && prev == PrevAt(r.nodes, k)
      invariant Choose(r.nodes, q, k) == Choose(r.nodes, q, 0)
      decreases |r.nodes| - k
    {
      CursorFacts(mem, rr.nodes, r, k);
      BlockWords(r, k);
      var v := Examine(q, bits, Node(node, mem[node].size));
      if v.Stop? {
        return;
      }
      if v.Fit? {
        found, addr := true, v.addr;
        return;
      }
      prev, node, k := node, mem[node].next, k + 1;
    }
    NoNode(r, k);
  }

  lemma NoNode(r: Region, k: nat)
    requires RegionOk(r) && k <= |r.nodes| && AddrAt(r.nodes, k) == 0
    ensures k == |r.nodes|
  {
    assert k < |r.nodes| ==> NodeOk(r.nodes[k], r.min, r.max);
  }

  // ----- relinking one region's list

  /** Memory outside the region's addresses is the same. */
  ghost predicate OnlyWithin(mem: Memory, mem': Memory, lo: int, hi: int)
  {
    forall a :: a in mem && !(lo <= a < hi) ==> a in mem' && mem'[a] == mem[a]
  }

  lemma OtherRegion(mem: Memory, mem': Memory, p: seq<Region>, rr: RegionRec, i: nat, j: nat)
    requires PoolOk(p) && i < |p| && j < |p| && i != j
    requires Rep(rr, p[j], mem) && OnlyWithin(mem, mem', p[i].min, p[i].max)
    ensures Rep(rr, p[j], mem')
  {
    var ns := p[j].nodes;
    assert Disjoint(p[i], p[j]);
    forall x | 0 <= x < |ns| ensures ns[x].addr in mem && ns[x].addr in mem' && mem'[ns[x].addr] == mem[ns[x].addr] {
      assert At(mem, ns[x], NextAt(ns, x, 0));
      assert NodeOk(ns[x], p[j].min, p[j].max);
    }
    SegmentFrame(mem, mem', ns, 0);
  }

  /** What the carving writes must achieve: blocks around the taken range, and the link to them. */
  lemma CarveLinked(mem: Memory, mem': Memory, head: int, head': int, ns: seq<Node>, k: nat, lo: int, hi: int)
    requires k < |ns| && Linked(mem, head, ns) && Inside(ns[k], lo, hi)
    requires Untouched(mem, mem', ns, if k > 0 && lo == ns[k].addr then k - 1 else k, k + 1)
    requires var n, next := ns[k], AddrAt(ns, k + 1);
             var rest := if hi < n.addr + n.size then hi else next;
             && (hi < n.addr + n.size ==> At(mem', Node(hi, n.addr + n.size - hi), next))
             && (if lo > n.addr then At(mem', Node(n.addr, lo - n.addr), rest) && head' == head
                 else if k > 0 then At(mem', ns[k - 1], rest) && head' == head
                 else head' == rest)
    ensures Linked(mem', head', Take(ns, k, lo, hi))
  {
    var ps := Pieces(ns[k], lo, hi);
    forall x | 0 <= x < |ps| ensures At(mem', ps[x], NextAt(ps, x, AddrAt(ns, k + 1))) {
    }
    assert lo > ns[k].addr && k > 0 ==> At(mem, ns[k - 1], NextAt(ns, k - 1, 0));
    Replace(mem, mem', head, head', ns, k, k + 1, ps);
  }

  /** Other blocks start neither inside block `k` nor at its bounds. */
  lemma ElsewhereStarts(ns: seq<Node>, lo: int, hi: int, k: nat, x: nat)
    requires Canonical(ns, lo, hi) && k < |ns| && x < |ns| && x != k
    ensures ns[x].addr < ns[k].addr || ns[x].addr > ns[k].addr + ns[k].size
  {
    assert NodeOk(ns[x], lo, hi);
  }

  /** How many bytes a block of `size` bytes at `addr` occupies once rounded to granules. */
  method RoundedSize(addr: int, size: int) returns (w: int)
    requires 0 <= addr && 0 < size && addr % 8 + size + 7 < 0x1_0000_0000
    ensures w == Up8(addr + size) - Down8(addr)
  {
    var t := Wrapped(addr % 8 + size + 7);
    RoundedSum(addr, size);
    w := Down8(t);
  }

  lemma RoundedSum(addr: int, size: int)
    ensures Down8(addr % 8 + size + 7) == Up8(addr + size) - Down8(addr)
  {
    ClearsLowBits(addr);
    ClearsLowBits(addr + size + 7);
    ClearsLowBits(addr % 8 + size + 7);
    ModShift(addr / 8, addr % 8 + size + 7);
  }

  lemma ModShift(k: int, x: int)
    ensures (8 * k + x) % 8 == x % 8
  {
    DivModUnique(8 * k + x, 8, k + x / 8, x % 8);
  }

  // ----- which memory is written

  /** The record at `a` has been written. */
  ghost predicate Wrote(mem: Memory, mem': Memory, a: int)
  {
    if a in mem then a !in mem' || mem'[a] != mem[a] else a in mem'
  }

  /** The eight bytes of a record at `a` are free in the region. */
  ghost predicate Room(r: Region, a: int) { AllFree(r.nodes, a, 8) }

  ghost predicate PoolRoom(p: seq<Region>, a: int)
  {
    exists i :: 0 <= i < |p| && Room(p[i], a)
  }

  /** Records are written only where all their bytes are free, before or after. */
  ghost predicate Spares(p: seq<Region>, p': seq<Region>, mem: Memory, mem': Memory)
  {
    forall a :: Wrote(mem, mem', a) ==> PoolRoom(p, a) || PoolRoom(p', a)
  }

  ghost predicate SparesIn(r: Region, s: Region, mem: Memory, mem': Memory)
  {
    forall a :: Wrote(mem, mem', a) ==> Room(r, a) || Room(s, a)
  }

  lemma GranuleEnd(addr: int, size: int, a: int)
    requires addr % 8 == 0 && size % 8 == 0 && a % 8 == 0 && a < addr + size
    ensures a + 8 <= addr + size
  {
    Granules(addr, size);
    Granules(a, 8);
    Multiples(a + 8, addr + size);
  }

  lemma GranuleRoom(r: Region, k: nat, a: int)
    requires RegionOk(r) && k < |r.nodes| && a % 8 == 0 && r.nodes[k].addr <= a < r.nodes[k].addr + r.nodes[k].size
    ensures Room(r, a)
  {
    var n := r.nodes[k];
    assert NodeOk(n, r.min, r.max);
    GranuleEnd(n.addr, n.size, a);
    FitsAllFree(r.nodes, k, a, 8);
  }

  /** Carving writes inside free blocks only. */
  lemma CarvedRoom(mem: Memory, head: int, r: Region, k: nat, lo: int, hi: int, a: int)
    requires RegionOk(r) && k < |r.nodes| && Linked(mem, head, r.nodes) && Inside(r.nodes[k], lo, hi)
    requires Wrote(mem, CarvedMemory(mem, r.nodes, k, lo, hi), a)
    ensures Room(r, a)
  {
    var n := r.nodes[k];
    assert NodeOk(n, r.min, r.max);
    assert a == lo || a == n.addr || (a == hi && hi < n.addr + n.size) || (k > 0 && a == r.nodes[k - 1].addr);
    if k > 0 && a == r.nodes[k - 1].addr {
      assert NodeOk(r.nodes[k - 1], r.min, r.max);
      GranuleRoom(r, k - 1, a);
    } else {
      GranuleRoom(r, k, a);
    }
  }

  /** Freeing writes at the freed range and in the free block before it only. */
  lemma FreedRoom(mem: Memory, head: int, r: Region, s: Region, k: nat, lo: int, hi: int, a: int)
    requires RegionOk(r) && Linked(mem, head, r.nodes) && FitsAt(r.nodes, k, lo, hi) && Given(r, s, lo, hi)
    requires var prev, next := PrevAt(r.nodes, k), AddrAt(r.nodes, k);
             && (prev != 0 ==> prev in mem) && (next != 0 ==> next in mem)
             && Wrote(mem, FreedMemory(mem, lo, hi - lo, prev, next), a)
    ensures Room(s, a)
  {
    if k > 0 && a == r.nodes[k - 1].addr {
      assert NodeOk(r.nodes[k - 1], r.min, r.max);
      GranuleRoom(r, k - 1, a);
    } else {
      assert a == lo;
      Multiples(lo + 8, hi);
    }
  }

  lemma SparesRegion(p: seq<Region>, p': seq<Region>, mem: Memory, mem': Memory, i: nat)
    requires i < |p| == |p'| && SparesIn(p[i], p'[i], mem, mem')
    ensures Spares(p, p', mem, mem')
  {
    forall a | Wrote(mem, mem', a) ensures PoolRoom(p, a) || PoolRoom(p', a) {
      assert Room(p[i], a) || Room(p'[i], a);
    }
  }

  lemma CarvedSpares(r: Region, s: Region, mem: Memory, mem': Memory, head: int, k: nat, lo: int, hi: int)
    requires RegionOk(r) && k < |r.nodes| && Linked(mem, head, r.nodes) && Inside(r.nodes[k], lo, hi)
    requires mem' == CarvedMemory(mem, r.nodes, k, lo, hi)
    ensures SparesIn(r, s, mem, mem')
  {
    forall a | Wrote(mem, mem', a) ensures Room(r, a) { CarvedRoom(mem, head, r, k, lo, hi, a); }
  }

  lemma FreedSpares(r: Region, s: Region, mem: Memory, mem': Memory, head: int, k: nat, lo: int, hi: int)
    requires Freeing(mem, mem', head, r, k, lo, hi) && Given(r, s, lo, hi)
    ensures SparesIn(r, s, mem, mem')
  {
    forall a | Wrote(mem, mem', a) ensures Room(s, a) { FreedRoom(mem, head, r, s, k, lo, hi, a); }
  }

  class Lmm {
    var regions: seq<RegionRec>
    var mem: Memory
    ghost var pool: seq<Region>

    ghost predicate Valid()
      reads this
    {
      |regions| == |pool| && PoolOk(pool) && AllReps(regions, pool, mem)
    }

    /** lmm_init: an empty pool. */
    constructor ()
      ensures Valid() && pool == []
    {
      regions, mem, pool := [], map[], [];
    }

    /** Store through a pointer to a next field; null stands for the head of region `i`'s list. */
    method SetLink(i: nat, prev: int, x: int)
      requires i < |regions| && (prev != 0 ==> prev in mem)
      modifies this`regions, this`mem
      ensures regions == if prev == 0 then old(regions)[i := old(regions)[i].(nodes := x)] else old(regions)
      ensures mem == if prev == 0 then old(mem) else old(mem)[prev := NodeRec(x, old(mem)[prev].size)]
    {
      if prev == 0 {
        regions := regions[i := regions[i].(nodes := x)];
      } else {
        mem := mem[prev := mem[prev].(next := x)];
      }
    }

    /** After region `i`'s part of memory was relinked, the whole pool is represented again. */
    ghost method Relinked(i: nat, s: Region, mem0: Memory, regions0: seq<RegionRec>)
      requires |regions0| == |pool| == |regions| && PoolOk(pool) && i < |pool|
      requires forall j :: 0 <= j < |pool| ==> Rep(regions0[j], pool[j], mem0)
      requires forall j :: 0 <= j < |pool| && j != i ==> regions[j] == regions0[j]
      requires OnlyWithin(mem0, mem, pool[i].min, pool[i].max)
      requires RegionOk(s) && s == pool[i].(free := s.free, nodes := s.nodes) && Rep(regions[i], s, mem)
      requires SparesIn(pool[i], s, mem0, mem)
      modifies this`pool
      ensures Valid() && pool == old(pool)[i := s] && Spares(old(pool), pool, mem0, mem)
    {
      forall j | 0 <= j < |pool| && j != i ensures Rep(regions[j], pool[j], mem) {
        OtherRegion(mem0, mem, pool, regions0[j], i, j);
      }
      ReplaceRegion(pool, i, s);
      SparesRegion(pool, pool[i := s], mem0, mem, i);
      pool := pool[i := s];
    }
  
    /** Split off the part of the block before `anode`, giving it a block of its own. */
    method SplitHead(prev: int, node: int, anode: int, ghost n: Node, ghost next: int) returns (link: int)
      requires At(mem, n, next) && node == n.addr && node <= anode
      modifies this`mem
      ensures link == if anode > node then node else prev
      ensures mem == if anode > node then old(mem)[anode := NodeRec(next, n.addr + n.size - anode)]
                                                  [node := NodeRec(next, anode - node)]
                     else old(mem)
    {
      link := prev;
      if anode > node {
        var split := anode - node;
        mem := mem[anode := NodeRec(mem[node].next, mem[node].size - split)];
        mem := mem[node := mem[node].(size := split)];
        link := node;
      }
    }

    /** Split off what is left after `size` bytes of the block at `anode`. */
    method CutTail(anode: int, size: int) returns (rest: int)
      requires anode in mem && size > 0
      modifies this`mem
      ensures rest == if old(mem)[anode].size > size then anode + size else old(mem)[anode].next
      ensures mem == if old(mem)[anode].size > size
                     then old(mem)[anode + size := NodeRec(old(mem)[anode].next, old(mem)[anode].size - size)]
                     else old(mem)
    {
      if mem[anode].size > size {
        var newnode := anode + size;
        mem := mem[newnode := NodeRec(mem[anode].next, mem[anode].size - size)];
        rest := newnode;
      } else {
        rest := mem[anode].next;
      }
    }

    /** The writes that take [anode, anode + size) out of block `k`. */
    method CarveWrites(i: nat, prev: int, node: int, anode: int, size: int, ghost ns: seq<Node>, ghost k: nat)
      requires i < |regions| && k < |ns| && node == ns[k].addr && 0 < node && prev == PrevAt(ns, k)
      requires Inside(ns[k], anode, anode + size) && At(mem, ns[k], AddrAt(ns, k + 1))
      requires k > 0 ==> prev < node && prev != 0 && prev in mem && mem[prev].size == ns[k - 1].size
      modifies this`regions, this`mem
      ensures mem == CarvedMemory(old(mem), ns, k, anode, anode + size)
      ensures regions == if anode > node || k > 0 then old(regions)
                         else old(regions)[i := old(regions)[i].(nodes := if anode + size < node + ns[k].size
                                                                          then anode + size else AddrAt(ns, k + 1))]
    {
      var link := SplitHead(prev, node, anode, ns[k], AddrAt(ns, k + 1));
      var rest := CutTail(anode, size);
      SetLink(i, link, rest);
    }

    /** Take the granules [anode, anode + size) out of block `k` of region `i`. */
    method CarveRange(i: nat, prev: int, node: int, anode: int, size: int, ghost k: nat)
      requires Valid() && i < |pool| && k < |pool[i].nodes|
      requires node == pool[i].nodes[k].addr && prev == PrevAt(pool[i].nodes, k)
      requires Inside(pool[i].nodes[k], anode, anode + size)
      modifies this
      ensures Valid() && |pool| == |old(pool)| && pool == old(pool)[i := pool[i]]
      ensures Taken(old(pool)[i], pool[i], anode, anode + size)
      ensures Spares(old(pool), pool, old(mem), mem)
    {
      ghost var r, mem0, regions0, head, hi := pool[i], mem, regions, regions[i].nodes, anode + size;
      CursorFacts(mem, head, r, k);
      if k > 0 { CursorFacts(mem, head, r, k - 1); ElsewhereStarts(r.nodes, r.min, r.max, k, k - 1); }
      CarveWrites(i, prev, node, anode, size, r.nodes, k);
      regions := regions[i := regions[i].(free := regions[i].free - size)];
      ghost var s := CarvedRegion(mem0, mem, head, regions[i].nodes, r, k, anode, hi);
      Relinked(i, s, mem0, regions0);
    }

    /** Take the block [addr, addr + size), rounded to granules, out of block `k` of region `i`. */
    method Carve(i: nat, prev: int, node: int, addr: int, size: int, ghost k: nat)
      requires Valid() && i < |pool| && k < |pool[i].nodes| && size > 0
      requires node == pool[i].nodes[k].addr && prev == PrevAt(pool[i].nodes, k)
      requires FitsIn(pool[i].nodes[k], addr, size)
      modifies this
      ensures Valid() && |pool| == |old(pool)| && pool == old(pool)[i := pool[i]]
      ensures Taken(old(pool)[i], pool[i], Down8(addr), Up8(addr + size))
      ensures Spares(old(pool), pool, old(mem), mem)
    {
      assert NodeOk(pool[i].nodes[k], pool[i].min, pool[i].max);
      RoundInside(pool[i].nodes[k], addr, size);
      var rsize := RoundedSize(addr, size);
      CarveRange(i, prev, node, Down8(addr), rsize, k);
    }

    /** A word stored by the holder of a block, or over a list when the address is still free. */
    method Store(addr: int, word: int)
      requires Valid()
      modifies this`mem
      ensures mem == Stored(old(mem), addr, word)
      ensures !PoolFree(pool, addr) ==> Valid()
      ensures Heads(pool, addr) && word % 8 != 0 ==> !Valid()
    {
      ghost var mem0 := mem;
      if addr - 4 in mem {
        mem := mem[addr - 4 := mem[addr - 4].(size := word)];
      }
      if addr in mem {
        mem := mem[addr := mem[addr].(next := word)];
      }
      StoredOutcome(mem0, regions, pool, addr, word);
    }

    /** Aligned first fit within an address window. */
    method AllocGen(size: int, flags: Flags, bits: nat, ofs: int, inMin: int, inSize: int) returns (addr: int)
      requires Valid() && Words(Request(size, flags, Pow2(bits), ofs, inMin, W32(inMin + inSize)), bits)
      requires Serves(pool, Request(size, flags, Pow2(bits), ofs, inMin, W32(inMin + inSize)))
      modifies this
      ensures Valid()
      ensures AllocOutcome(old(pool), pool, Request(size, flags, Pow2(bits), ofs, inMin, W32(inMin + inSize)), addr)
      ensures Spares(old(pool), pool, old(mem), mem)
    {
      var inMax := W32(inMin + inSize);
      addr := SearchPool(Request(size, flags, Pow2(bits), ofs, inMin, inMax), bits);
    }

    /** The outer loop: regions in priority order. */
    method SearchPool(q: Request, bits: nat) returns (addr: int)
      requires Valid() && Words(q, bits) && Serves(pool, q)
      modifies this
      ensures Valid() && AllocOutcome(old(pool), pool, q, addr) && Spares(old(pool), pool, old(mem), mem)
    {
      var i := 0;
      while i < |regions|
        invariant 0 <= i <= |regions| && Valid() && pool == old(pool) && mem == old(mem)
        invariant Search(pool, q, i) == Search(pool, q, 0)
        invariant forall j :: 0 <= j < i ==> NoneIn(pool[j], q)
      {
        addr := TryRegion(i, q, bits);
        if addr != 0 {
          ServedHere(old(pool), pool, q, addr, i);
          return;
        }
        i := i + 1;
      }
      return 0;
    }

    /** Carve out what a search of region `i` found, if anything. */
    method Serve(i: nat, q: Request, found: bool, prev: int, node: int, at: int, ghost k: nat) returns (addr: int)
      requires Valid() && i < |pool| && q.size > 0
      requires !found ==> NoneIn(pool[i], q)
      requires found ==> k < |pool[i].nodes| && node == pool[i].nodes[k].addr && prev == PrevAt(pool[i].nodes, k)
      requires found ==> BestPlace(pool[i], q, at) && at > 0 && FitsIn(pool[i].nodes[k], at, q.size)
      modifies this
      ensures Valid() && addr == (if found then at else 0)
      ensures Spares(old(pool), pool, old(mem), mem)
      ensures !found ==> pool == old(pool) && mem == old(mem)
      ensures found ==> |pool| == |old(pool)| && pool == old(pool)[i := pool[i]] && PlacedIn(old(pool)[i], pool[i], q, addr)
    {
      addr := 0;
      if found {
        Carve(i, prev, node, at, q.size, k);
        addr := at;
      }
    }

    /** flags & ~reg->flags: some attribute is asked for that the region lacks. */
    method Lacks(have: Flags, want: Flags) returns (lacks: bool)
      ensures !lacks <==> want <= have
    {
      lacks := want - have != {};
      assert forall b :: b in want && b !in have ==> b in want - have;
    }

    /** One region's turn; null leaves everything as it was. */
    method TryRegion(i: nat, q: Request, bits: nat) returns (addr: int)
      requires Valid() && i < |pool| && Words(q, bits)
      requires var f := Search(pool, q, i); f.Found? && f.i == i ==> f.k < |pool[i].nodes| && !Misfit(q, pool[i].nodes[f.k])
      modifies this
      ensures Valid()
      ensures Spares(old(pool), pool, old(mem), mem) && (addr == 0 ==> mem == old(mem))
      ensures addr == 0 ==> pool == old(pool) && NoneIn(pool[i], q) && Search(pool, q, i) == Search(pool, q, i + 1)
      ensures addr != 0 ==> |pool| == |old(pool)| && pool == old(pool)[i := pool[i]] && PlacedIn(old(pool)[i], pool[i], q, addr)
    {
      var rr := regions[i];
      var lacks := Lacks(rr.flags, q.flags);
      if lacks || rr.min >= q.hi || rr.max <= q.lo {
        Rejected(pool[i], q);
        return 0;
      }
      var found, prev, node, at, k := SearchRegion(mem, rr, q, bits, pool[i]);
      ChoiceRight(pool[i], q, bits, 0);
      if found { ChosenFits(pool[i], q, bits, k, at); }
      addr := Serve(i, q, found, prev, node, at, k);
    }

    /** First fit without alignment or window. */
    method Alloc(size: int, flags: Flags) returns (addr: int)
      requires Valid() && 0 < size < 0x1_0000_0000
      modifies this
      ensures Valid() && addr % 8 == 0 && Spares(old(pool), pool, old(mem), mem)
      ensures size + 7 < 0x1_0000_0000 ==> AllocOutcome(old(pool), pool, AnyPlace(size, flags), addr)
      ensures size + 7 >= 0x1_0000_0000 ==> pool == old(pool) && Refused(pool, AnyPlace(size, flags))
      ensures size + 7 >= 0x1_0000_0000 ==> if addr == 0 then NoBlocks(pool, flags) else Heads(pool, addr)
    {
      var rsize := RoundUp(size);
      if rsize == 0 {
        // Any block is large enough for nothing, and taking nothing from it leaves it as it is.
        TooLarge(pool, AnyPlace(size, flags));
        addr := FirstBlock(flags);
        return;
      }
      var q := AnyPlace(size, flags);
      var i := 0;
      addr := 0;
      while i < |regions|
        invariant 0 <= i <= |regions| && Valid() && pool == old(pool) && mem == old(mem) && addr == 0
        invariant forall j :: 0 <= j < i ==> NoneIn(pool[j], q)
      {
        addr := TryFirst(i, q, rsize);
        if addr != 0 {
          ServedHere(old(pool), pool, q, addr, i);
          return;
        }
        i := i + 1;
      }
    }

    /** The first block of the first region with the attributes. */
    method FirstBlock(flags: Flags) returns (addr: int)
      requires Valid()
      ensures addr % 8 == 0 && if addr == 0 then NoBlocks(pool, flags) else Heads(pool, addr)
    {
      var i := 0;
      while i < |regions|
        invariant 0 <= i <= |regions| && forall j :: 0 <= j < i ==> flags <= pool[j].flags ==> pool[j].nodes == []
      {
        var lacks := Lacks(regions[i].flags, flags);
        if !lacks && regions[i].nodes != 0 {
          HeadFree(mem, regions[i].nodes, pool[i]);
          assert HeadAt(pool[i], regions[i].nodes);
          return regions[i].nodes;
        }
        if pool[i].nodes != [] { CursorFacts(mem, regions[i].nodes, pool[i], 0); }
        i := i + 1;
      }
      addr := 0;
    }

    method TryFirst(i: nat, q: Request, rsize: int) returns (addr: int)
      requires Valid() && i < |pool| && q.size > 0 && rsize == Up8(q.size) && q == AnyPlace(q.size, q.flags)
      modifies this
      ensures Valid()
      ensures Spares(old(pool), pool, old(mem), mem) && (addr == 0 ==> mem == old(mem))
      ensures addr == 0 ==> pool == old(pool) && NoneIn(pool[i], q)
      ensures addr != 0 ==> |pool| == |old(pool)| && pool == old(pool)[i := pool[i]] && PlacedIn(old(pool)[i], pool[i], q, addr)
      ensures addr % 8 == 0
    {
      var rr := regions[i];
      var lacks := Lacks(rr.flags, q.flags);
      if lacks {
        Rejected(pool[i], q);
        return 0;
      }
      var found, prev, node, k := SearchFirst(mem, rr, rsize, pool[i], q);
      addr := Serve(i, q, found, prev, node, node, k);
    }

    /** Write the freed range into the list between `prev` and `next`, merging where it touches. */
    method LinkFreed(i: nat, node: int, size: int, prev: int, next: int)
      requires i < |regions| && (prev != 0 ==> prev in mem) && (next != 0 ==> next in mem && next != prev)
      requires node != prev && node != next
      modifies this`regions, this`mem
      ensures mem == FreedMemory(old(mem), node, size, prev, next)
      ensures regions == if prev == 0 then old(regions)[i := old(regions)[i].(nodes := node)] else old(regions)
    {
      if prev != 0 && prev + mem[prev].size >= node {
        if next != 0 && node + size >= next {
          mem := mem[prev := NodeRec(mem[next].next, mem[prev].size + (size + mem[next].size))];
        } else {
          mem := mem[prev := mem[prev].(size := mem[prev].size + size)];
        }
      } else {
        SetLink(i, prev, node);
        if next != 0 && node + size >= next {
          mem := mem[node := NodeRec(mem[next].next, size + mem[next].size)];
        } else {
          mem := mem[node := NodeRec(next, size)];
        }
      }
    }

    /** The loop that finds the region an address belongs to. */
    method FindRegion(node: int, ghost g: nat) returns (i: nat)
      requires Valid() && g < |pool| && pool[g].min <= node < pool[g].max
      ensures i == g
    {
      i := 0;
      while !(regions[i].min <= node < regions[i].max)
        invariant 0 <= i <= g
        decreases g - i
      {
        i := i + 1;
      }
      OneRegion(pool, i, g, node);
    }

    /** Put the granules [node, node + size) back into the list of the region they lie in. */
    method FreeRange(node: int, size: int, ghost g: nat)
      requires Valid() && RangeFreeable(pool, node, node + size, g)
      modifies this
      ensures Valid() && RangeFreed(old(pool), pool, node, node + size, g) && Spares(old(pool), pool, old(mem), mem)
    {
      ghost var r := pool[g];
      var i := FindRegion(node, g);
      var prev, next, k := FindSlot(mem, regions[i].nodes, node, r);
      PlaceFor(r.nodes, node, node + size, r.min, r.max, k);
      LinkAt(i, node, size, prev, next, k);
    }

    /** The counter raised and the range linked in before block `k`. */
    method LinkAt(i: nat, node: int, size: int, prev: int, next: int, ghost k: nat)
      requires Valid() && i < |pool| && FitsAt(pool[i].nodes, k, node, node + size)
      requires pool[i].min <= node && node + size <= pool[i].max
      requires prev == PrevAt(pool[i].nodes, k) && next == AddrAt(pool[i].nodes, k)
      modifies this
      ensures Valid() && |pool| == |old(pool)| && pool == old(pool)[i := pool[i]]
      ensures Given(old(pool)[i], pool[i], node, node + size)
      ensures Spares(old(pool), pool, old(mem), mem)
    {
      ghost var r, mem0, regions0, head := pool[i], mem, regions, regions[i].nodes;
      SlotFacts(mem, head, r, k, node, node + size);
      regions := regions[i := regions[i].(free := regions[i].free + size)];
      LinkFreed(i, node, size, prev, next);
      ghost var s := RegionLinked(mem0, mem, head, regions[i].nodes, r, k, node, node + size);
      Relinked(i, s, mem0, regions0);
    }

    /** Give a block back to the region it came from. */
    method Free(block: int, size: int, ghost g: nat)
      requires Valid() && Freeable(pool, block, size, g)
      modifies this
      ensures Valid() && FreedIn(old(pool), pool, block, size, g) && Spares(old(pool), pool, old(mem), mem)
    {
      Rounding(block + size);
      var rsize := RoundedSize(block, size);
      FreeRange(Down8(block), rsize, g);
    }

    /** The lowest free address from `addr` on, how much of its block is left, and its region's attributes. */
    method FindFree(addr: int, ghost start: int) returns (found: int, size: int, flags: Flags)
      requires Valid() && 0 <= addr < 0x1_0000_0000 && GranuleFrom(addr, start)
      ensures Lowest(pool, |pool|, start, found, size, flags)
    {
      var from := FirstGranule(addr, start);
      found, size, flags := LowestFrom(from);
    }

    method LowestFrom(start: int) returns (found: int, size: int, flags: Flags)
      requires Valid() && start % 8 == 0 && start <= 0xffff_ffff
      ensures Lowest(pool, |pool|, start, found, size, flags)
    {
      found, size, flags := 0xffff_ffff, 0, {};
      var i := 0;
      while i < |regions|
        invariant 0 <= i <= |regions| == |pool| && start <= found && Lowest(pool, i, start, found, size, flags)
      {
        var hit, a, sz := ScanRegion(mem, regions[i], start, found, pool[i]);
        if hit {
          LowerAnswer(pool, i, start, found, size, flags, a, sz);
          found, size, flags := a, sz, regions[i].flags;
        } else {
          SameAnswer(pool, i, start, found, size, flags);
        }
        i := i + 1;
      }
    }

    /** Withdraw every free granule from the first granule boundary in the block up to its end. */
    method RemoveFree(block: int, size: int)
      requires Valid() && 0 <= block && 0 < size && block + size < 0x1_0000_0000
      requires block + 7 < 0x1_0000_0000 || forall a :: !PoolFree(pool, a)
      modifies this
      ensures Valid() && Gone(old(pool), pool, Up8(block), Up8(block + size))
    {
      var rend := W32(block + size);
      if block + 7 >= 0x1_0000_0000 {
        // The search wraps to the start of the address space; finding nothing ends the loop at once.
        var found, left, flags := FindFree(block, 0);
        FoundAfter(pool, block, found, left, flags);
        assert block <= found;              // the program's own assertion
        return;
      }
      IsUp8Up8(block);
      IsUp8Up8(block + size);
      RemoveLoop(block, rend, Up8(block), Up8(block + size));
    }

    method RemoveLoop(block: int, rend: int, ghost lo: int, ghost hi: int)
      requires Valid() && 0 <= block < rend < 0x1_0000_0000 && block + 7 < 0x1_0000_0000
      requires IsUp8(block, lo) && IsUp8(rend, hi)
      modifies this
      ensures Valid() && Gone(old(pool), pool, lo, hi)
    {
      var rstart, done := block, false;
      ghost var mid := lo;
      while rstart < rend && !done
        invariant Valid() && block <= rstart < rend && rstart + 7 < 0x1_0000_0000
        invariant !done ==> Withdrawn(old(pool), pool, lo, mid, hi) && lo <= mid && IsUp8(rstart, mid)
        invariant done ==> Gone(old(pool), pool, lo, hi)
        decreases !done, PoolTotal(pool)
      {
        done, rstart := RemoveRound(rstart, rend, old(pool), lo, mid, hi);
        mid := rstart;
      }
    }

    /** The body of the withdrawal loop. */
    method RemoveRound(rstart: int, rend: int, ghost p0: seq<Region>, ghost lo: int, ghost mid: int, ghost hi: int)
      returns (done: bool, next: int)
      requires Valid() && 0 <= rstart < rend < 0x1_0000_0000 && rstart + 7 < 0x1_0000_0000
      requires IsUp8(rstart, mid) && IsUp8(rend, hi) && lo <= mid && Withdrawn(p0, pool, lo, mid, hi)
      modifies this
      ensures Valid() && rstart <= next < rend && next + 7 < 0x1_0000_0000
      ensures done ==> Gone(p0, pool, lo, hi)
      ensures !done ==> 0 <= PoolTotal(pool) < PoolTotal(old(pool))
      ensures !done ==> Withdrawn(p0, pool, lo, next, hi) && lo <= next && IsUp8(next, next)
    {
      var found, left, flags := FindFree(rstart, mid);
      if left == 0 || found >= rend {
        WithdrawnAll(p0, pool, lo, mid, rend, hi, found, left, flags);
        return true, rstart;
      }
      FoundBelow(pool, mid, found, left, flags);
      assert rstart <= found;               // the program's own assertion
      var want := if W32(found + left) > rend then rend - found else left;
      TakeFound(found, want, flags, mid, left, p0, lo, rend, hi);
      PoolTotalNonnegative(pool);
      return false, found;
    }

    /** One round of the withdrawal: take what the search found, as far as the end. */
    method TakeFound(found: int, want: int, flags: Flags, ghost start: int, ghost left: int, ghost p0: seq<Region>,
                     ghost lo: int, ghost rend: int, ghost hi: int)
      requires Valid() && Lowest(pool, |pool|, start, found, left, flags) && left != 0
      requires 0 < want <= left && found + want <= rend && found % 8 == 0 && IsUp8(rend, hi)
      requires Withdrawn(p0, pool, lo, start, hi) && lo <= start <= found
      modifies this
      ensures Valid() && PoolTotal(pool) < PoolTotal(old(pool))
      ensures Withdrawn(p0, pool, lo, found, hi)
    {
      LowestFound(pool, start, found, left, flags);
      ghost var p := pool;
      ghost var to := TakeExactly(found, want, flags, start, left);
      UpWithin(found + want, rend, to, hi);
      WithdrawnStep(p0, p, pool, lo, start, hi, found, to);
    }

    method TakeExactly(found: int, want: int, flags: Flags, ghost start: int, ghost left: int) returns (ghost to: int)
      requires Valid() && Lowest(pool, |pool|, start, found, left, flags) && left != 0
      requires 0 < want <= left && found % 8 == 0
      modifies this
      ensures Valid() && PoolTotal(pool) < PoolTotal(old(pool))
      ensures IsUp8(found + want, to) && Gone(old(pool), pool, found, to)
    {
      ghost var q := Request(want, flags, 1, 0, found, found + want);
      ghost var j := ExactRequest(pool, q, start, left);
      assert Request(want, flags, Pow2(0), 0, found, W32(found + want)) == q;
      var ptr := AllocGen(want, flags, 0, 0, found, want);
      to := ExactlyTaken(old(pool), pool, q, ptr, j);
      assert ptr == found;                  // the program's own assertion
    }

    /** Give granule-aligned memory to region `i`. */
    method FreeAligned(node: int, size: int, i: nat)
      requires Valid() && size > 0 && RangeFreeable(pool, node, node + size, i)
      modifies this
      ensures Valid() && RangeFreed(old(pool), pool, node, node + size, i)
    {
      Rounding(node);
      Rounding(node + size);
      Free(node, size, i);
    }

    /** Add the granules inside a block to whatever regions they fall into. */
    method AddFree(block: int, size: int)
      requires Valid() && 0 <= block && 0 <= size && block + size < 0x1_0000_0000
      requires Up8(block) <= Down8(block + size) && 0 < Up8(block)
      requires forall a :: Up8(block) <= a < Down8(block + size) ==> !PoolFree(pool, a)
      modifies this
      ensures Valid() && |pool| == |old(pool)|
      ensures forall j :: 0 <= j < |pool| ==> Added(old(pool)[j], pool[j], Up8(block), Down8(block + size))
    {
      Rounding(block);
      RoundDown(block + size);
      var min := RaiseToGranule(block);
      var max := Wrapped(block + size);
      RoundDown(max);
      max := Down8(max);
      if max == min {
        return;
      }
      AddRange(min, max);
    }

    method AddRange(min: int, max: int)
      requires Valid() && 0 < min < max < 0x1_0000_0000 && min % 8 == 0 && max % 8 == 0
      requires forall a :: min <= a < max ==> !PoolFree(pool, a)
      modifies this
      ensures Valid() && |pool| == |old(pool)|
      ensures forall j :: 0 <= j < |pool| ==> Added(old(pool)[j], pool[j], min, max)
    {
      var i := 0;
      while i < |regions|
        invariant 0 <= i <= |regions| == |old(pool)| && Valid()
        invariant forall j :: 0 <= j < i ==> Added(old(pool)[j], pool[j], min, max)
        invariant forall j :: i <= j < |pool| ==> pool[j] == old(pool)[j]
      {
        forall a | min <= a < max ensures !IsFree(old(pool)[i].nodes, a) { assert !PoolFree(old(pool), a); }
        AddToRegion(i, min, max);
        i := i + 1;
      }
    }

    method AddToRegion(i: nat, min: int, max: int)
      requires Valid() && i < |pool| && 0 < min < max && min % 8 == 0 && max % 8 == 0
      requires forall a :: min <= a < max ==> !IsFree(pool[i].nodes, a)
      modifies this
      ensures Valid() && |pool| == |old(pool)| && pool == old(pool)[i := pool[i]] && Added(old(pool)[i], pool[i], min, max)
    {
      var rr := regions[i];
      if max > rr.min && min < rr.max {
        var newMin, newMax := if min < rr.min then rr.min else min, if max > rr.max then rr.max else max;
        assert RegionOk(pool[i]);
        FreeAligned(newMin, newMax - newMin, i);
      }
    }

    /** Insert an empty region in priority order, or drop it. */
    method AddRegion(addr: int, size: int, flags: Flags, pri: int) returns (ghost k: nat)
      requires Valid() && 0 <= addr && 0 <= size < 0x1_0000_0000 && addr + 7 < 0x1_0000_0000
      requires !Drops(addr, size) ==> forall i :: 0 <= i < |pool| ==> Disjoint(pool[i], NewRegion(addr, size, flags, pri))
      modifies this
      ensures Valid() && k <= |old(pool)|
      ensures pool == if Drops(addr, size) then old(pool)
                      else old(pool)[..k] + [NewRegion(addr, size, flags, pri)] + old(pool)[k..]
    {
      k := 0;
      var min := RaiseToGranule(addr);
      var max := EndOf(addr, size);
      Rounding(addr);
      if max <= min {
        return;
      }
      k := InsertAt(RegionRec(0, min, max, flags, pri, 0), NewRegion(addr, size, flags, pri));
    }

    method InsertAt(rr: RegionRec, ghost r: Region) returns (k: nat)
      requires Valid() && RegionOk(r) && Rep(rr, r, mem) && forall i :: 0 <= i < |pool| ==> Disjoint(pool[i], r)
      modifies this
      ensures Valid() && k <= |old(pool)| && pool == old(pool)[..k] + [r] + old(pool)[k..]
    {
      k := 0;
      while k < |regions| && (regions[k].pri > rr.pri
            || (regions[k].pri == rr.pri && regions[k].max - regions[k].min > rr.max - rr.min))
        invariant k <= |regions| && forall i :: 0 <= i < k ==> Before(pool[i], r)
      {
        k := k + 1;
      }
      SlotFound(pool, r, k);
      InsertRegion(pool, r, k);
      RepsInsert(regions, pool, mem, rr, r, k);
      pool := pool[..k] + [r] + pool[k..];
      regions := regions[..k] + [rr] + regions[k..];
    }
  }

  /** The region has no whole granule, or ends beyond the address space. */
  predicate Drops(addr: int, size: int) { addr + size >= 0x1_0000_0000 || Down8(addr + size) <= Up8(addr) }

  function NewRegion(addr: int, size: int, flags: Flags, pri: int): Region
  {
    Region(Up8(addr), Down8(addr + size), flags, pri, 0, [])
  }

  lemma SlotFound(p: seq<Region>, r: Region, k: nat)
    requires PoolOk(p) && k <= |p| && (forall i :: 0 <= i < k ==> Before(p[i], r))
    requires k < |p| ==> Before(r, p[k])
    ensures SlotFor(p, r, k)
  {
  }

  lemma RepsInsert(rs: seq<RegionRec>, p: seq<Region>, mem: Memory, rr: RegionRec, r: Region, k: nat)
    requires k <= |rs| == |p| && AllReps(rs, p, mem) && Rep(rr, r, mem)
    ensures AllReps(rs[..k] + [rr] + rs[k..], p[..k] + [r] + p[k..], mem)
  {
  }

  /** The memory after a freed range was written between `prev` and `next`. */
  function FreedMemory(mem: Memory, node: int, size: int, prev: int, next: int): Memory
    requires (prev != 0 ==> prev in mem) && (next != 0 ==> next in mem)
  {
    var right := next != 0 && node + size >= next;
    if prev != 0 && prev + mem[prev].size >= node then
      mem[prev := NodeRec(if right then mem[next].next else mem[prev].next,
                          mem[prev].size + size + (if right then mem[next].size else 0))]
    else
      var m := if prev == 0 then mem else mem[prev := NodeRec(node, mem[prev].size)];
      m[node := if right then NodeRec(mem[next].next, size + mem[next].size) else NodeRec(next, size)]
  }

  /** The loop that finds the neighbours of a freed block. */
  method FindSlot(mem: Memory, head: int, node: int, ghost r: Region) returns (prev: int, next: int, ghost k: nat)
    requires RegionOk(r) && Linked(mem, head, r.nodes)
    ensures k <= |r.nodes| && prev == PrevAt(r.nodes, k) && next == AddrAt(r.nodes, k)
    ensures (forall j :: 0 <= j < k ==> r.nodes[j].addr < node) && (k < |r.nodes| ==> r.nodes[k].addr >= node)
  {
    prev, next, k := 0, head, 0;
    while next != 0 && next < node
      invariant k <= |r.nodes| && prev == PrevAt(r.nodes, k) && next == AddrAt(r.nodes, k)
      invariant forall j :: 0 <= j < k ==> r.nodes[j].addr < node
      decreases |r.nodes| - k
    {
      CursorFacts(mem, head, r, k);
      prev, next, k := next, mem[next].next, k + 1;
    }
    if k < |r.nodes| { CursorFacts(mem, head, r, k); }
  }

  lemma SlotFacts(mem: Memory, head: int, r: Region, k: nat, lo: int, hi: int)
    requires RegionOk(r) && Linked(mem, head, r.nodes) && FitsAt(r.nodes, k, lo, hi)
    ensures var prev, next := PrevAt(r.nodes, k), AddrAt(r.nodes, k);
            && (prev != 0 ==> prev in mem) && (next != 0 ==> next in mem && next != prev) && lo != prev && lo != next
            && (k > 0 ==> prev != 0 && mem[prev] == NodeRec(next, r.nodes[k - 1].size))
            && (k < |r.nodes| ==> next != 0 && mem[next] == NodeRec(AddrAt(r.nodes, k + 1), r.nodes[k].size))
  {
    if k > 0 { CursorFacts(mem, head, r, k - 1); }
    if k < |r.nodes| { CursorFacts(mem, head, r, k); }
    if 0 < k < |r.nodes| { ElsewhereStarts(r.nodes, r.min, r.max, k, k - 1); }
  }

  /** The memory after a range has been linked in before block `k`. */
  ghost predicate Freeing(mem: Memory, mem': Memory, head: int, r: Region, k: nat, lo: int, hi: int)
  {
    && RegionOk(r) && Linked(mem, head, r.nodes) && FitsAt(r.nodes, k, lo, hi) && r.min <= lo && hi <= r.max
    && var prev, next := PrevAt(r.nodes, k), AddrAt(r.nodes, k);
       && (prev != 0 ==> prev in mem) && (next != 0 ==> next in mem)
       && mem' == FreedMemory(mem, lo, hi - lo, prev, next)
  }

  lemma FreedLinked(mem: Memory, mem': Memory, head: int, head': int, r: Region, k: nat, lo: int, hi: int)
    requires Freeing(mem, mem', head, r, k, lo, hi)
    requires head' == if PrevAt(r.nodes, k) == 0 then lo else head
    ensures Linked(mem', head', Insert(r.nodes, k, lo, hi))
    ensures OnlyWithin(mem, mem', r.min, r.max)
  {
    var i, j := InsertParts(r, k, lo, hi);
    FreedWithin(mem, mem', head, r, k, lo, hi);
    FreedUntouched(mem, mem', head, r, k, lo, hi, i, j);
    FreedNode(mem, mem', head, r, k, lo, hi, j);
    FreedPlaced(mem, mem', head, head', r, k, lo, hi, i);
    ReplaceOne(mem, mem', head, head', r.nodes, i, j, MergedNode(r.nodes, k, lo, hi));
  }

  /** The freed range together with the neighbours it touches. */
  function MergedNode(ns: seq<Node>, k: nat, lo: int, hi: int): Node
    requires k <= |ns|
  {
    Node(MergedFrom(ns, k, lo), MergedTo(ns, k, hi) - MergedFrom(ns, k, lo))
  }

  /** Whatever pointed to block `i` points to `to`. */
  ghost predicate PointsTo(mem: Memory, head: int, head': int, ns: seq<Node>, i: nat, to: int)
  {
    i <= |ns| && if i > 0 then head' == head && At(mem, ns[i - 1], to) else head' == to
  }

  lemma FreedPlaced(mem: Memory, mem': Memory, head: int, head': int, r: Region, k: nat, lo: int, hi: int, i: nat)
    requires Freeing(mem, mem', head, r, k, lo, hi)
    requires head' == if PrevAt(r.nodes, k) == 0 then lo else head
    requires i == if MergedFrom(r.nodes, k, lo) < lo then k - 1 else k
    ensures PointsTo(mem', head, head', r.nodes, i, MergedFrom(r.nodes, k, lo))
  {
    FreedLink(mem, mem', head, r, k, lo, hi, i);
    FreedHead(head, mem, r, k, lo, hi, i);
  }

  lemma ReplaceOne(mem: Memory, mem': Memory, head: int, head': int, ns: seq<Node>, i: nat, j: nat, n: Node)
    requires i <= j <= |ns| && Linked(mem, head, ns) && Untouched(mem, mem', ns, if i > 0 then i - 1 else 0, j)
    requires Segment(mem', [n], AddrAt(ns, j)) && PointsTo(mem', head, head', ns, i, n.addr)
    ensures Linked(mem', head', ns[..i] + [n] + ns[j..])
  {
    Replace(mem, mem', head, head', ns, i, j, [n]);
  }

  lemma FreedHead(head: int, mem: Memory, r: Region, k: nat, lo: int, hi: int, i: nat)
    requires RegionOk(r) && Linked(mem, head, r.nodes) && FitsAt(r.nodes, k, lo, hi) && r.min <= lo
    requires i == if MergedFrom(r.nodes, k, lo) < lo then k - 1 else k
    ensures var head' := if PrevAt(r.nodes, k) == 0 then lo else head;
            if i > 0 then head' == head else head' == MergedFrom(r.nodes, k, lo)
  {
    MergedFromFacts(r.nodes, k, lo, hi, r.min, r.max);
    if k > 0 { assert NodeOk(r.nodes[k - 1], r.min, r.max); }
  }

  /** Which blocks the inserted range replaces. */
  lemma InsertParts(r: Region, k: nat, lo: int, hi: int) returns (i: nat, j: nat)
    requires RegionOk(r) && FitsAt(r.nodes, k, lo, hi) && r.min <= lo && hi <= r.max
    ensures i == if MergedFrom(r.nodes, k, lo) < lo then k - 1 else k
    ensures j == if MergedTo(r.nodes, k, hi) > hi then k + 1 else k
    ensures k - 1 <= i <= k <= j <= |r.nodes|
    ensures Insert(r.nodes, k, lo, hi) == r.nodes[..i] + [MergedNode(r.nodes, k, lo, hi)] + r.nodes[j..]
  {
    MergedFromFacts(r.nodes, k, lo, hi, r.min, r.max);
    MergedToFacts(r.nodes, k, lo, hi, r.min, r.max);
    i := if MergedFrom(r.nodes, k, lo) < lo then k - 1 else k;
    j := if MergedTo(r.nodes, k, hi) > hi then k + 1 else k;
  }

  lemma FreedWithin(mem: Memory, mem': Memory, head: int, r: Region, k: nat, lo: int, hi: int)
    requires Freeing(mem, mem', head, r, k, lo, hi)
    ensures OnlyWithin(mem, mem', r.min, r.max)
  {
    if k > 0 { assert NodeOk(r.nodes[k - 1], r.min, r.max); }
  }

  /** A request with no alignment and no window. */
  function AnyPlace(size: int, flags: Flags): Request { Request(size, flags, 1, 0, 0, 0x1_0000_0000) }

  lemma TooSmall(n: Node, size: int, x: int)
    requires n.size % 8 == 0 && n.size < Up8(size)
    ensures !FitsIn(n, x, size)
  {
    Rounding(size);
    if n.size >= size { Multiples(Up8(size), n.size); }
  }

  /** No region with the attributes has a free block. */
  ghost predicate NoBlocks(p: seq<Region>, flags: Flags)
  {
    forall j :: 0 <= j < |p| && flags <= p[j].flags ==> p[j].nodes == []
  }

  ghost predicate HeadAt(r: Region, addr: int) { r.nodes != [] && r.nodes[0].addr == addr }

  /** Some region's list starts at `addr`. */
  ghost predicate Heads(p: seq<Region>, addr: int)
  {
    exists i :: 0 <= i < |p| && HeadAt(p[i], addr)
  }

  lemma HeadFree(mem: Memory, head: int, r: Region)
    requires RegionOk(r) && Linked(mem, head, r.nodes) && head != 0
    ensures head % 8 == 0 && HeadAt(r, head)
  {
    CursorFacts(mem, head, r, 0);
  }

  /** The first block of a list is still free. */
  lemma HeadsFree(p: seq<Region>, addr: int)
    requires PoolOk(p) && Heads(p, addr)
    ensures PoolFree(p, addr)
  {
    var i :| 0 <= i < |p| && HeadAt(p[i], addr);
    assert NodeOk(p[i].nodes[0], p[i].min, p[i].max);
    assert Holds(p[i].nodes[0], addr);
    assert IsFree(p[i].nodes, addr);
  }

  /** Memory after a word is stored: it may be a record's next field or another one's size field. */
  function Stored(mem: Memory, addr: int, word: int): Memory
  {
    var m := if addr - 4 in mem then mem[addr - 4 := mem[addr - 4].(size := word)] else mem;
    if addr in m then m[addr := m[addr].(next := word)] else m
  }

  /** A word that is not free is no part of a list. */
  lemma StoredApart(mem: Memory, head: int, p: seq<Region>, i: nat, addr: int, word: int)
    requires PoolOk(p) && i < |p| && Linked(mem, head, p[i].nodes) && !PoolFree(p, addr)
    ensures Linked(Stored(mem, addr, word), head, p[i].nodes)
  {
    var ns := p[i].nodes;
    assert !IsFree(ns, addr);
    forall x | 0 <= x < |ns|
      ensures ns[x].addr in mem && ns[x].addr in Stored(mem, addr, word) && Stored(mem, addr, word)[ns[x].addr] == mem[ns[x].addr]
    {
      CursorFacts(mem, head, p[i], x);
      assert !Holds(ns[x], addr);
    }
    SegmentFrame(mem, Stored(mem, addr, word), ns, 0);
  }

  /** A word stored over the start of a list breaks it, unless it could be an address. */
  lemma StoredBreaks(mem: Memory, head: int, r: Region, addr: int, word: int)
    requires RegionOk(r) && HeadAt(r, addr) && word % 8 != 0 && addr in mem
    ensures !Linked(Stored(mem, addr, word), head, r.nodes)
  {
    if |r.nodes| > 1 { assert NodeOk(r.nodes[1], r.min, r.max); }
    if Linked(Stored(mem, addr, word), head, r.nodes) {
      CursorFacts(Stored(mem, addr, word), head, r, 0);
      assert false;
    }
  }

  ghost predicate AllReps(rs: seq<RegionRec>, p: seq<Region>, mem: Memory)
    requires |rs| == |p|
  {
    forall i :: 0 <= i < |p| ==> Rep(rs[i], p[i], mem)
  }

  lemma StoredOutcome(mem: Memory, rs: seq<RegionRec>, p: seq<Region>, addr: int, word: int)
    requires PoolOk(p) && |rs| == |p| && AllReps(rs, p, mem)
    ensures !PoolFree(p, addr) ==> AllReps(rs, p, Stored(mem, addr, word))
    ensures Heads(p, addr) && word % 8 != 0 ==> !AllReps(rs, p, Stored(mem, addr, word))
  {
    if !PoolFree(p, addr) {
      forall i: nat | i < |p| ensures Rep(rs[i], p[i], Stored(mem, addr, word)) {
        StoredApart(mem, rs[i].nodes, p, i, addr, word);
      }
    }
    if Heads(p, addr) && word % 8 != 0 {
      var i: nat :| i < |p| && HeadAt(p[i], addr);
      CursorFacts(mem, rs[i].nodes, p[i], 0);
      StoredBreaks(mem, rs[i].nodes, p[i], addr, word);
      assert !Rep(rs[i], p[i], Stored(mem, addr, word));
    }
  }

  /** Rounding wraps to 0 exactly for the last seven sizes. */
  method RoundUp(size: int) returns (rsize: int)
    requires 0 < size < 0x1_0000_0000
    ensures rsize == if size + 7 < 0x1_0000_0000 then Up8(size) else 0
    ensures size + 7 < 0x1_0000_0000 ==> rsize != 0
  {
    var t := W32(size + 7);
    rsize := Down8(t);
    if size + 7 < 0x1_0000_0000 { RoundsUp(size); } else { SmallRoundsToNothing(t); }
  }

  lemma RoundsUp(size: int)
    requires 0 < size && size + 7 < 0x1_0000_0000
    ensures W32(size + 7) == size + 7 && Up8(size) != 0
  {
    WordSame(size + 7);
    Rounding(size);
  }

  lemma SmallRoundsToNothing(t: int)
    requires 0 <= t < 8
    ensures Down8(t) == 0
  {
  }

  lemma TooLarge(p: seq<Region>, q: Request)
    requires PoolOk(p) && q.size + 7 >= 0x1_0000_0000
    ensures Refused(p, q)
  {
    forall i, x | 0 <= i < |p| ensures !Placement(p[i], q, x) {
      forall k | 0 <= k < |p[i].nodes| ensures !FitsIn(p[i].nodes[k], x, q.size) {
        assert NodeOk(p[i].nodes[k], p[i].min, p[i].max);
      }
      if AllFree(p[i].nodes, x, q.size) {
        var k := RunInOneBlock(p[i].nodes, p[i].min, p[i].max, x, q.size);
      }
    }
  }

  /** The inner loop of plain first fit. */
  method SearchFirst(mem: Memory, rr: RegionRec, rsize: int, ghost r: Region, ghost q: Request)
    returns (found: bool, prev: int, node: int, ghost k: nat)
    requires RegionOk(r) && Rep(rr, r, mem) && q == AnyPlace(q.size, q.flags) && q.size > 0 && rsize == Up8(q.size)
    requires q.flags <= r.flags
    ensures !found ==> NoneIn(r, q)
    ensures found ==> k < |r.nodes| && node == r.nodes[k].addr && prev == PrevAt(r.nodes, k) && node % 8 == 0
    ensures found ==> BestPlace(r, q, node) && node > 0 && FitsIn(r.nodes[k], node, q.size)
  {
    found, prev, node, k := false, 0, rr.nodes, 0;
    while node != 0
      invariant k <= |r.nodes| && node == AddrAt(r.nodes, k) && prev == PrevAt(r.nodes, k)
      invariant NoneBefore(r.nodes, q, k)
      decreases |r.nodes| - k
    {
      CursorFacts(mem, rr.nodes, r, k);
      if mem[node].size >= rsize {
        Rounding(q.size);
        FirstFits(r, k, q, node);
        FitIsLowest(r, q, k, node);
        found := true;
        return;
      }
      forall x ensures !FitsIn(r.nodes[k], x, q.size) { TooSmall(r.nodes[k], q.size, x); }
      prev, node, k := node, mem[node].next, k + 1;
    }
    NoPlacement(r, q);
  }

  lemma FirstFits(r: Region, k: nat, q: Request, node: int)
    requires RegionOk(r) && k < |r.nodes| && node == r.nodes[k].addr && q == AnyPlace(q.size, q.flags)
    requires 0 < q.size <= r.nodes[k].size
    ensures Suits(q, r.nodes[k], node) && node % 8 == 0
  {
    assert NodeOk(r.nodes[k], r.min, r.max);
  }

  /** The memory after carving, write by write, in terms of the memory before. */
  ghost function CarvedMemory(mem: Memory, ns: seq<Node>, k: nat, lo: int, hi: int): Memory
    requires k < |ns|
  {
    var n, next := ns[k], AddrAt(ns, k + 1);
    var rest := if hi < n.addr + n.size then hi else next;
    var m1 := if lo > n.addr then mem[lo := NodeRec(next, n.addr + n.size - lo)][n.addr := NodeRec(next, lo - n.addr)] else mem;
    var m2 := if hi < n.addr + n.size then m1[hi := NodeRec(next, n.addr + n.size - hi)] else m1;
    var link := if lo > n.addr then n.addr else PrevAt(ns, k);
    if link == 0 then m2 else m2[link := NodeRec(rest, if lo > n.addr then lo - n.addr else ns[k - 1].size)]
  }

  lemma CarveDone(mem: Memory, mem': Memory, head: int, head': int, r: Region, k: nat, lo: int, hi: int)
    requires RegionOk(r) && k < |r.nodes| && Linked(mem, head, r.nodes) && Inside(r.nodes[k], lo, hi)
    requires mem' == CarvedMemory(mem, r.nodes, k, lo, hi)
    requires head' == if lo > r.nodes[k].addr || k > 0 then head
                      else if hi < r.nodes[k].addr + r.nodes[k].size then hi else AddrAt(r.nodes, k + 1)
    ensures Linked(mem', head', Take(r.nodes, k, lo, hi))
    ensures OnlyWithin(mem, mem', r.min, r.max)
  {
    CarvedUntouched(mem, head, r, k, lo, hi);
    assert NodeOk(r.nodes[k], r.min, r.max);
    if k > 0 { assert NodeOk(r.nodes[k - 1], r.min, r.max); ElsewhereStarts(r.nodes, r.min, r.max, k, k - 1); }
    CarveLinked(mem, mem', head, head', r.nodes, k, lo, hi);
  }

  /** The region after the range has been carved out. */
  lemma CarvedRegion(mem: Memory, mem': Memory, head: int, head': int, r: Region, k: nat, lo: int, hi: int) returns (s: Region)
    requires RegionOk(r) && k < |r.nodes| && Linked(mem, head, r.nodes) && Inside(r.nodes[k], lo, hi)
    requires mem' == CarvedMemory(mem, r.nodes, k, lo, hi)
    requires head' == if lo > r.nodes[k].addr || k > 0 then head
                      else if hi < r.nodes[k].addr + r.nodes[k].size then hi else AddrAt(r.nodes, k + 1)
    ensures RegionOk(s) && s == r.(free := r.free - (hi - lo), nodes := s.nodes) && Taken(r, s, lo, hi)
    ensures Linked(mem', head', s.nodes) && OnlyWithin(mem, mem', r.min, r.max) && SparesIn(r, s, mem, mem')
  {
    s := r.(free := r.free - (hi - lo), nodes := Take(r.nodes, k, lo, hi));
    TakeRegion(r, k, lo, hi);
    CarveDone(mem, mem', head, head', r, k, lo, hi);
    CarvedSpares(r, s, mem, mem', head, k, lo, hi);
  }

  lemma CarvedUntouched(mem: Memory, head: int, r: Region, k: nat, lo: int, hi: int)
    requires RegionOk(r) && k < |r.nodes| && Linked(mem, head, r.nodes) && Inside(r.nodes[k], lo, hi)
    ensures Untouched(mem, CarvedMemory(mem, r.nodes, k, lo, hi), r.nodes,
                      if k > 0 && lo == r.nodes[k].addr then k - 1 else k, k + 1)
  {
    var ns := r.nodes;
    var from := if k > 0 && lo == ns[k].addr then k - 1 else k;
    var mem' := CarvedMemory(mem, ns, k, lo, hi);
    forall x | 0 <= x < |ns| && (x < from || k + 1 <= x)
      ensures ns[x].addr in mem && ns[x].addr in mem' && mem'[ns[x].addr] == mem[ns[x].addr]
    {
      assert At(mem, ns[x], NextAt(ns, x, 0));
      ElsewhereStarts(ns, r.min, r.max, k, x);
      if k > 0 && x != k - 1 { ElsewhereStarts(ns, r.min, r.max, k - 1, x); }
    }
  }

  lemma FreedUntouched(mem: Memory, mem': Memory, head: int, r: Region, k: nat, lo: int, hi: int, i: nat, j: nat)
    requires Freeing(mem, mem', head, r, k, lo, hi) && k - 1 <= i <= k <= j <= |r.nodes|
    ensures Untouched(mem, mem', r.nodes, if i > 0 then i - 1 else 0, j)
  {
    var ns := r.nodes;
    forall x | 0 <= x < |ns| && (x < (if i > 0 then i - 1 else 0) || j <= x)
      ensures ns[x].addr in mem && ns[x].addr in mem' && mem'[ns[x].addr] == mem[ns[x].addr]
    {
      assert At(mem, ns[x], NextAt(ns, x, 0));
      assert NodeOk(ns[x], r.min, r.max);
      if k > 0 && x != k - 1 { ElsewhereStarts(ns, r.min, r.max, k - 1, x); }
    }
  }

  /** The region after the range has been linked in. */
  lemma RegionLinked(mem: Memory, mem': Memory, head: int, head': int, r: Region, k: nat, lo: int, hi: int) returns (s: Region)
    requires RegionOk(r) && Linked(mem, head, r.nodes) && FitsAt(r.nodes, k, lo, hi) && r.min <= lo && hi <= r.max
    requires var prev, next := PrevAt(r.nodes, k), AddrAt(r.nodes, k);
             (prev != 0 ==> prev in mem) && (next != 0 ==> next in mem)
    requires mem' == FreedMemory(mem, lo, hi - lo, PrevAt(r.nodes, k), AddrAt(r.nodes, k))
    requires head' == if PrevAt(r.nodes, k) == 0 then lo else head
    ensures RegionOk(s) && s == r.(free := r.free + (hi - lo), nodes := s.nodes) && Given(r, s, lo, hi)
    ensures Linked(mem', head', s.nodes) && OnlyWithin(mem, mem', r.min, r.max) && SparesIn(r, s, mem, mem')
  {
    s := r.(free := r.free + (hi - lo), nodes := Insert(r.nodes, k, lo, hi));
    GiveRegion(r, k, lo, hi);
    FreedLinked(mem, mem', head, head', r, k, lo, hi);
    FreedSpares(r, s, mem, mem', head, k, lo, hi);
  }

  /** The merged block is in place. */
  lemma FreedNode(mem: Memory, mem': Memory, head: int, r: Region, k: nat, lo: int, hi: int, j: nat)
    requires Freeing(mem, mem', head, r, k, lo, hi)
    requires j == if MergedTo(r.nodes, k, hi) > hi then k + 1 else k
    requires j <= |r.nodes|
    ensures Segment(mem', [MergedNode(r.nodes, k, lo, hi)], AddrAt(r.nodes, j))
  {
    var ns := r.nodes;
    var f, t := MergedFrom(ns, k, lo), MergedTo(ns, k, hi);
    SlotFacts(mem, head, r, k, lo, hi);
    MergedFromFacts(ns, k, lo, hi, r.min, r.max);
    MergedToFacts(ns, k, lo, hi, r.min, r.max);
    assert At(mem', Node(f, t - f), AddrAt(ns, j));
  }

  /** What pointed to the blocks it replaces points to it. */
  lemma FreedLink(mem: Memory, mem': Memory, head: int, r: Region, k: nat, lo: int, hi: int, i: nat)
    requires Freeing(mem, mem', head, r, k, lo, hi)
    requires i == if MergedFrom(r.nodes, k, lo) < lo then k - 1 else k
    ensures i > 0 ==> At(mem', r.nodes[i - 1], MergedFrom(r.nodes, k, lo))
  {
    var ns := r.nodes;
    SlotFacts(mem, head, r, k, lo, hi);
    MergedFromFacts(ns, k, lo, hi, r.min, r.max);
    if i > 0 && i == k - 1 {
      assert At(mem, ns[i - 1], NextAt(ns, i - 1, 0));
      ElsewhereStarts(ns, r.min, r.max, i, i - 1);
    }
  }

  /** The loop over one region's free list in the search for the lowest free address. */
  method ScanRegion(mem: Memory, rr: RegionRec, start: int, lowest: int, ghost r: Region)
    returns (hit: bool, a: int, size: int)
    requires RegionOk(r) && Rep(rr, r, mem) && start % 8 == 0 && start <= lowest
    ensures hit ==> a <= lowest && size != 0 && BlockFrom(r, start, a, size) && NothingBelow(r, start, a)
    ensures !hit ==> NothingBelow(r, start, lowest)
  {
    hit, a, size := false, 0, 0;
    if rr.nodes == 0 || rr.max <= start || rr.min > lowest {
      SkippedRegion(mem, rr, r, start, lowest);
      return;
    }
    var node := rr.nodes;
    ghost var k := 0;
    while node != 0
      invariant k <= |r.nodes| && node == AddrAt(r.nodes, k)
      invariant forall j :: 0 <= j < k ==> r.nodes[j].addr + r.nodes[j].size <= start
      decreases |r.nodes| - k
    {
      CursorFacts(mem, rr.nodes, r, k);
      if node >= lowest {
        PassedBy(r, start, k, lowest);
        return;
      }
      if W32(node + mem[node].size) > start {
        a := if node > start then node else start;
        size := if node > start then mem[node].size else mem[node].size - (start - node);
        HitBlock(r, start, k, a, size);
        hit := true;
        return;
      }
      node, k := mem[node].next, k + 1;
    }
    PassedBy(r, start, k, lowest);
  }

  lemma SkippedRegion(mem: Memory, rr: RegionRec, r: Region, start: int, lowest: int)
    requires RegionOk(r) && Rep(rr, r, mem) && (rr.nodes == 0 || rr.max <= start || rr.min > lowest)
    ensures NothingBelow(r, start, lowest)
  {
    forall k | 0 <= k < |r.nodes| ensures rr.nodes != 0 && NodeOk(r.nodes[k], r.min, r.max) {
      CursorFacts(mem, rr.nodes, r, 0);
    }
  }

  lemma PassedBy(r: Region, start: int, k: nat, lowest: int)
    requires RegionOk(r) && k <= |r.nodes| && (k < |r.nodes| ==> r.nodes[k].addr >= lowest)
    requires forall j :: 0 <= j < k ==> r.nodes[j].addr + r.nodes[j].size <= start
    ensures NothingBelow(r, start, lowest)
  {
    forall x, j | start <= x && 0 <= j < |r.nodes| && Holds(r.nodes[j], x) ensures lowest <= x {
      assert NodeOk(r.nodes[k], r.min, r.max);
    }
  }

  lemma HitBlock(r: Region, start: int, k: nat, a: int, size: int)
    requires RegionOk(r) && start % 8 == 0 && k < |r.nodes| && r.nodes[k].addr + r.nodes[k].size > start
    requires a == (if r.nodes[k].addr > start then r.nodes[k].addr else start) && a + size == r.nodes[k].addr + r.nodes[k].size
    requires forall j :: 0 <= j < k ==> r.nodes[j].addr + r.nodes[j].size <= start
    ensures size > 0 && BlockFrom(r, start, a, size) && NothingBelow(r, start, a)
  {
    assert NodeOk(r.nodes[k], r.min, r.max);
    assert RestOf(r.nodes[k], start, a, size);
    PassedBy(r, start, k, if r.nodes[k].addr > start then r.nodes[k].addr else r.nodes[k].addr);
  }

  /** The window just found is a placement for itself and is served correctly. */
  lemma ExactRequest(p: seq<Region>, q: Request, start: int, left: int) returns (j: nat)
    requires PoolOk(p) && Lowest(p, |p|, start, q.lo, left, q.flags) && left != 0
    requires q == Request(q.size, q.flags, 1, 0, q.lo, q.lo + q.size) && 0 < q.size <= left
    ensures j < |p| && Placement(p[j], q, q.lo)
    ensures Pow2(0) == 1 && Words(q, 0) && W32(q.hi) == q.hi && Serves(p, q)
  {
    var k;
    j, k := FoundBlock(p, start, q.lo, left, q.flags);
    ExactWindow(p, j, k, q.lo, q.size);
    WindowRequest(p, q, j, k);
  }

  lemma ExactlyTaken(p: seq<Region>, p': seq<Region>, q: Request, ptr: int, j: nat) returns (to: int)
    requires PoolOk(p) && PoolOk(p') && j < |p| && Placement(p[j], q, q.lo) && AllocOutcome(p, p', q, ptr)
    requires q == Request(q.size, q.flags, 1, 0, q.lo, q.lo + q.size) && 0 < q.size && q.lo % 8 == 0
    ensures ptr == q.lo && PoolTotal(p') < PoolTotal(p) && IsUp8(q.hi, to) && Gone(p, p', q.lo, to)
  {
    var i := ExactAddress(p, p', q, ptr, j, q.lo);
    to := Up8(q.hi);
    IsUp8Up8(q.hi);
    ExactServed(p, p', q, i, q.lo, to);
  }

  lemma ServedHere(p: seq<Region>, p': seq<Region>, q: Request, addr: int, i: nat)
    requires i < |p| == |p'| && p' == p[i := p'[i]] && addr != 0 && PlacedIn(p[i], p'[i], q, addr)
    requires forall j :: 0 <= j < i ==> NoneIn(p[j], q)
    ensures AllocOutcome(p, p', q, addr)
  {
    assert ServedBy(p, p', q, addr, i);
  }

  /** A request for part of a free block, without alignment, is served correctly. */
  lemma WindowRequest(p: seq<Region>, q: Request, j: nat, k: nat)
    requires PoolOk(p) && j < |p| && k < |p[j].nodes| && q.align == 1 && q.hi == q.lo + q.size && q.size > 0
    requires FitsIn(p[j].nodes[k], q.lo, q.size)
    ensures Pow2(0) == 1 && Words(q, 0) && W32(q.hi) == q.hi && Serves(p, q)
  {
    assert RegionOk(p[j]);
    assert NodeOk(p[j].nodes[k], p[j].min, p[j].max);
    assert Pow2(0) == 1;
    ServesWindow(p, q);
  }

  /** For the last seven starts the assertion that the search stays behind holds exactly on an empty pool. */
  lemma FoundAfter(p: seq<Region>, block: int, found: int, left: int, flags: Flags)
    requires PoolOk(p) && Lowest(p, |p|, 0, found, left, flags) && 0xffff_fff9 <= block < 0x1_0000_0000
    ensures block <= found <==> forall a :: !PoolFree(p, a)
  {
    if left != 0 {
      FoundBelow(p, 0, found, left, flags);
      var j, k := FoundBlock(p, 0, found, left, flags);
      assert Holds(p[j].nodes[k], found) && PoolFree(p, found);
    } else {
      forall i | 0 <= i < |p| ensures forall a :: !IsFree(p[i].nodes, a) { NoneFree(p[i]); }
    }
  }

  lemma NoneFree(r: Region)
    requires RegionOk(r) && NothingBelow(r, 0, 0xffff_ffff)
    ensures forall a :: !IsFree(r.nodes, a)
  {
    forall a, k | 0 <= k < |r.nodes| ensures !Holds(r.nodes[k], a) {
      assert NodeOk(r.nodes[k], r.min, r.max);
      assert Holds(r.nodes[k], a) ==> IsFree(r.nodes, a);
    }
  }

  lemma FoundBelow(p: seq<Region>, start: int, a: int, size: int, flags: Flags)
    requires PoolOk(p) && Lowest(p, |p|, start, a, size, flags) && size != 0
    ensures 0 < size && a + size < 0x1_0000_0000 && a + 7 < 0x1_0000_0000 && start <= a && a % 8 == 0
  {
    var j, k := FoundBlock(p, start, a, size, flags);
    var n := p[j].nodes[k];
    assert NodeOk(n, p[j].min, p[j].max);
    Granules(n.addr, n.size);
    Granules(a, 8);
    if a + 8 > n.addr + n.size { Multiples(n.addr + n.size, a); }
  }

  lemma UpWithin(x: int, y: int, a: int, b: int)
    requires x <= y && IsUp8(x, a) && IsUp8(y, b)
    ensures x <= a <= b
  {
    Multiples(a, b);
  }

  /** The first granule boundary from `addr` on; the last seven addresses wrap to 0. */
  predicate GranuleFrom(addr: int, start: int)
  {
    if addr + 7 < 0x1_0000_0000 then IsUp8(addr, start) else start == 0
  }

  method FirstGranule(addr: int, ghost start: int) returns (from: int)
    requires 0 <= addr < 0x1_0000_0000 && GranuleFrom(addr, start)
    ensures from == start && from % 8 == 0 && from <= 0xffff_ffff
  {
    var t := W32(addr + 7);
    from := Down8(t);
    if addr + 7 < 0x1_0000_0000 { StartIs(addr, start); } else { SmallRoundsToNothing(t); }
  }

  lemma StartIs(addr: int, start: int)
    requires 0 <= addr && addr + 7 < 0x1_0000_0000 && IsUp8(addr, start)
    ensures Down8(W32(addr + 7)) == start && start % 8 == 0 && start <= 0xffff_ffff
  {
    WordSame(addr + 7);
    OnlyUp8(addr, start);
  }

  method RaiseToGranule(addr: int) returns (start: int)
    requires 0 <= addr && addr + 7 < 0x1_0000_0000
    ensures start == Up8(addr) && start % 8 == 0 && start <= 0xffff_ffff
  {
    var t := Wrapped(addr + 7);
    RoundDown(t);
    start := Down8(t);
  }

  /** The end of a range, rounded down to a granule; one that wraps comes out below the start. */
  method EndOf(addr: int, size: int) returns (max: int)
    requires 0 <= addr < 0x1_0000_0000 && 0 <= size < 0x1_0000_0000
    ensures max % 8 == 0 && if addr + size < 0x1_0000_0000 then max == Down8(addr + size) <= addr + size else max < addr
  {
    var end := W32(addr + size);
    WrapsOnce(addr + size);
    RoundDown(end);
    max := Down8(end);
  }

  lemma WrapsOnce(x: int)
    requires 0 <= x < 0x2_0000_0000
    ensures W32(x) == if x < 0x1_0000_0000 then x else x - 0x1_0000_0000
  {
  }

  /** A sum that fits is stored as it is. */
  method Wrapped(x: int) returns (w: int)
    requires 0 <= x < 0x1_0000_0000
    ensures w == x
  {
    w := W32(x);
  }
}
