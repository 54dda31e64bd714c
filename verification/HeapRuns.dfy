/**
 * Every run of malloc, memalign and free over one memory of 32-bit words, in which the allocator
 * keeps its free-list records and malloc its size words: no live block's size word is ever
 * overwritten, so free gives back exactly what was handed out.
 */
module HeapRuns {
  import opened Align
  import opened FreeList
  import opened LinkedNodes
  import opened Pool
  import opened LmmRuns
  import Lmm
  import Malloc

  /** The pool and the live blocks, and the memory as words by byte address. */
  datatype Heap = Heap(base: State, word: map<int, int>)

  // ----- what may be overwritten

  /** None of the word's four bytes is free. */
  ghost predicate WordHeld(p: seq<Region>, a: int)
  {
    forall b :: a <= b < a + 4 ==> !PoolFree(p, b)
  }

  /** Only words with a byte that is free, before or after, may have changed. */
  ghost predicate Spared(p: seq<Region>, p': seq<Region>, w: map<int, int>, w': map<int, int>)
  {
    forall a :: a in w && WordHeld(p, a) && WordHeld(p', a) ==> a in w' && w'[a] == w[a]
  }

  /** Records the allocator may write do not overlap words that stay held. */
  lemma RecordsElsewhere(p: seq<Region>, p': seq<Region>, mem: Memory, mem': Memory, x: int, a: int)
    requires Lmm.Spares(p, p', mem, mem') && Lmm.Wrote(mem, mem', x) && WordHeld(p, a) && WordHeld(p', a)
    ensures x + 8 <= a || a + 4 <= x
  {
    RoomElsewhere(if Lmm.PoolRoom(p, x) then p else p', x, a);
  }

  lemma RoomElsewhere(p: seq<Region>, x: int, a: int)
    requires Lmm.PoolRoom(p, x) && WordHeld(p, a)
    ensures x + 8 <= a || a + 4 <= x
  {
    var i :| 0 <= i < |p| && Lmm.Room(p[i], x);
    var b := if a < x then x else a;
    if x < a + 4 && a < x + 8 {
      assert IsFree(p[i].nodes, b);
      assert PoolFree(p, b);
    }
  }

  /** Byte `b` belongs to the holder of block `c`: it lies after the size word. */
  predicate Payload(c: Block, b: int) { c.addr + 4 <= b < c.addr + c.size }

  ghost predicate Owned(live: seq<Block>, b: int)
  {
    exists i :: 0 <= i < |live| && Payload(live[i], b)
  }

  // ----- steps

  /** malloc and memalign: the allocator's writes, then the size word. */
  ghost predicate ObtainStep(h: Heap, h': Heap, q: Request, bits: nat, chunk: int, w: map<int, int>)
  {
    && Malloc.Asked(q, bits) && AllocStep(h.base, h'.base, q, chunk) && Spared(h.base.pool, h'.base.pool, h.word, w)
    && h'.word == if chunk == 0 then w else w[chunk := q.size]
  }

  /** free: the size comes from memory, whatever was asked for when the block was handed out. */
  ghost predicate ReleaseStep(h: Heap, h': Heap, i: nat, g: nat)
  {
    && i < |h.base.live| && h.base.live[i].addr in h.word
    && FreedIn(h.base.pool, h'.base.pool, h.base.live[i].addr, h.word[h.base.live[i].addr], g)
    && h'.base.live == Without(h.base.live, i) && Spared(h.base.pool, h'.base.pool, h.word, h'.word)
  }

  /** Holders write the bytes of their blocks. */
  ghost predicate WriteStep(h: Heap, h': Heap)
  {
    h'.base == h.base &&
    forall a :: a in h.word && (forall b :: a <= b < a + 4 ==> !Owned(h.base.live, b)) ==> a in h'.word && h'.word[a] == h.word[a]
  }

  ghost predicate Step(h: Heap, h': Heap)
  {
    || (exists q, bits: nat, chunk, w :: ObtainStep(h, h', q, bits, chunk, w))
    || (exists i: nat, g: nat :: ReleaseStep(h, h', i, g))
    || WriteStep(h, h')
  }

  /** The step from state `i` to the next. */
  ghost predicate StepAt(tr: seq<Heap>, i: int)
    requires 0 <= i < |tr| - 1
  {
    Step(tr[i], tr[i + 1])
  }

  ghost predicate Run(tr: seq<Heap>)
  {
    && |tr| > 0 && PoolOk(tr[0].base.pool) && tr[0].base.live == []
    && forall i :: 0 <= i < |tr| - 1 ==> StepAt(tr, i)
  }

  // ----- the invariant

  /** The block's size is in the word at its start. */
  ghost predicate HeaderOk(w: map<int, int>, b: Block)
  {
    b.addr % 4 == 0 && b.addr in w && w[b.addr] == b.size && b.size > 0
  }

  ghost predicate HeadersOk(w: map<int, int>, live: seq<Block>)
  {
    forall i :: 0 <= i < |live| ==> HeaderOk(w, live[i])
  }

  ghost predicate Inv(h: Heap) { LmmRuns.Inv(h.base) && HeadersOk(h.word, h.base.live) }

  /** The size word lies in the block's own granules. */
  lemma HeaderInside(b: Block)
    requires b.addr % 4 == 0 && b.size > 0
    ensures Lo(b) <= b.addr && b.addr + 4 <= Hi(b)
  {
    Rounding(b.addr);
    Rounding(b.addr + b.size);
    WordFits(b.addr, Hi(b));
  }

  lemma WordFits(x: int, hi: int)
    requires x % 4 == 0 && hi % 8 == 0 && x < hi
    ensures x + 4 <= hi
  {
  }

  lemma HeaderHeld(p: seq<Region>, b: Block)
    requires PoolOk(p) && Held(p, b) && b.addr % 4 == 0 && b.size > 0
    ensures WordHeld(p, b.addr)
  {
    HeaderInside(b);
    forall a | b.addr <= a < b.addr + 4 ensures !PoolFree(p, a) { HeldByte(p, b, a); }
  }

  /** No free-list record overlaps the size word of a live block. */
  lemma NodesElsewhere(h: Heap, i: nat, r: nat, k: nat)
    requires Inv(h) && i < |h.base.live| && r < |h.base.pool| && k < |h.base.pool[r].nodes|
    ensures var a, n := h.base.live[i].addr, h.base.pool[r].nodes[k]; n.addr + 8 <= a || a + 4 <= n.addr
  {
    var p, b := h.base.pool, h.base.live[i];
    assert HeaderOk(h.word, b);
    HeaderHeld(p, b);
    assert NodeOk(p[r].nodes[k], p[r].min, p[r].max);
    Lmm.GranuleRoom(p[r], k, p[r].nodes[k].addr);
    assert Lmm.Room(p[r], p[r].nodes[k].addr);
    RoomElsewhere(p, p[r].nodes[k].addr, b.addr);
  }

  // ----- every step keeps it

  lemma HeaderSpared(p: seq<Region>, p': seq<Region>, w: map<int, int>, w': map<int, int>, b: Block)
    requires PoolOk(p) && PoolOk(p') && Held(p, b) && Held(p', b) && HeaderOk(w, b) && Spared(p, p', w, w')
    ensures HeaderOk(w', b)
  {
    HeaderHeld(p, b);
    HeaderHeld(p', b);
  }

  lemma ObtainKeeps(h: Heap, h': Heap, q: Request, bits: nat, chunk: int, w: map<int, int>)
    requires Inv(h) && ObtainStep(h, h', q, bits, chunk, w) && LmmRuns.Inv(h'.base)
    ensures HeadersOk(h'.word, h'.base.live)
  {
    var live, live' := h.base.live, h'.base.live;
    if chunk != 0 { Malloc.WordAligned(h.base.pool, h'.base.pool, q, bits, chunk); }
    forall i: nat | i < |live'| ensures HeaderOk(h'.word, live'[i]) {
      if i < |live| {
        OldHeader(h, h', w, i, i);
        if chunk != 0 { OtherChunk(h', i); }
      }
    }
  }

  lemma OldHeader(h: Heap, h': Heap, w: map<int, int>, i: nat, j: nat)
    requires Inv(h) && LmmRuns.Inv(h'.base) && Spared(h.base.pool, h'.base.pool, h.word, w)
    requires i < |h.base.live| && j < |h'.base.live| && h'.base.live[j] == h.base.live[i]
    ensures HeaderOk(w, h'.base.live[j])
  {
    assert HeaderOk(h.word, h.base.live[i]);
    HeaderSpared(h.base.pool, h'.base.pool, h.word, w, h.base.live[i]);
  }

  /** Earlier blocks do not start where the last one does. */
  lemma OtherChunk(h: Heap, i: nat)
    requires LmmRuns.Inv(h.base) && i + 1 < |h.base.live|
    ensures h.base.live[i].addr != h.base.live[|h.base.live| - 1].addr
  {
    DifferentStarts(h.base, i, |h.base.live| - 1);
  }

  lemma DifferentStarts(s: State, i: nat, j: nat)
    requires LmmRuns.Inv(s) && i < j < |s.live|
    ensures s.live[i].addr != s.live[j].addr
  {
    var b, c := s.live[i], s.live[j];
    assert Apart(b, c) && Held(s.pool, b) && Held(s.pool, c);
    Malloc.ChunkByte(b.addr, b.size);
    Malloc.ChunkByte(c.addr, c.size);
  }

  /** Freeing by the size in memory is freeing the block that was handed out. */
  lemma ReleaseIsFree(h: Heap, h': Heap, i: nat, g: nat)
    requires Inv(h) && ReleaseStep(h, h', i, g)
    ensures h.word[h.base.live[i].addr] == h.base.live[i].size && FreeStep(h.base, h'.base, i, g)
  {
    assert HeaderOk(h.word, h.base.live[i]);
  }

  lemma ReleaseKeeps(h: Heap, h': Heap, i: nat, g: nat)
    requires Inv(h) && ReleaseStep(h, h', i, g) && LmmRuns.Inv(h'.base)
    ensures HeadersOk(h'.word, h'.base.live)
  {
    var live' := h'.base.live;
    forall j: nat | j < |live'| ensures HeaderOk(h'.word, live'[j]) {
      WithoutAt(h.base.live, i, j);
      OldHeader(h, h', h'.word, From(i, j), j);
    }
  }

  lemma WithoutAt(live: seq<Block>, i: nat, j: nat)
    requires i < |live| && j < |Without(live, i)|
    ensures From(i, j) < |live| && Without(live, i)[j] == live[From(i, j)]
  {
  }

  lemma WriteKeeps(h: Heap, h': Heap)
    requires Inv(h) && WriteStep(h, h')
    ensures HeadersOk(h'.word, h'.base.live)
  {
    forall i: nat | i < |h.base.live| ensures HeaderOk(h'.word, h.base.live[i]) {
      assert HeaderOk(h.word, h.base.live[i]);
      forall b | h.base.live[i].addr <= b < h.base.live[i].addr + 4 ensures !Owned(h.base.live, b) {
        NotOwned(h, i, b);
      }
    }
  }

  lemma PayloadInside(c: Block, b: int)
    requires Payload(c, b)
    ensures Lo(c) <= b < Hi(c)
  {
    Rounding(c.addr);
    Rounding(c.addr + c.size);
  }

  /** No holder may write a size word. */
  lemma NotOwned(h: Heap, i: nat, b: int)
    requires Inv(h) && i < |h.base.live| && h.base.live[i].addr <= b < h.base.live[i].addr + 4
    ensures !Owned(h.base.live, b)
  {
    var live := h.base.live;
    assert HeaderOk(h.word, live[i]);
    HeaderInside(live[i]);
    if j: nat :| j < |live| && Payload(live[j], b) && j != i {
      OthersApart(h.base, i, j);
      PayloadInside(live[j], b);
    }
  }

  lemma StepKeeps(h: Heap, h': Heap)
    requires Inv(h) && Step(h, h')
    ensures Inv(h') && Bytes(h'.base) == Bytes(h.base)
  {
    if q, bits: nat, chunk, w :| ObtainStep(h, h', q, bits, chunk, w) {
      LmmRuns.StepKeeps(h.base, h'.base);
      ObtainKeeps(h, h', q, bits, chunk, w);
    } else if i: nat, g: nat :| ReleaseStep(h, h', i, g) {
      ReleaseIsFree(h, h', i, g);
      LmmRuns.StepKeeps(h.base, h'.base);
      ReleaseKeeps(h, h', i, g);
    } else {
      WriteKeeps(h, h');
    }
  }

  lemma Advance(tr: seq<Heap>, i: nat)
    requires i + 1 < |tr| && Run(tr) && Inv(tr[i])
    ensures Inv(tr[i + 1]) && Bytes(tr[i + 1].base) == Bytes(tr[i].base)
  {
    assert StepAt(tr, i);
    StepKeeps(tr[i], tr[i + 1]);
  }

  /** In every state of every run each live block's size is still in front of it, and no byte is lost. */
  lemma {:induction false} EveryRun(tr: seq<Heap>, n: nat)
    requires Run(tr) && n < |tr|
    ensures Inv(tr[n]) && Bytes(tr[n].base) == PoolTotal(tr[0].base.pool)
  {
    if n > 0 {
      EveryRun(tr, n - 1);
      Advance(tr, n - 1);
    }
  }
}
