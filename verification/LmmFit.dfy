/**
 * Which free block lmm_alloc_gen settles on. Its arithmetic is modulo 2^32, so the test whether a
 * block is large enough can come out wrong; here is exactly when, and what that means for the answer.
 */
module LmmFit {
  import opened Bits
  import opened Align
  import opened FreeList
  import opened Pool

  predicate Suits(q: Request, n: Node, x: int) { Candidate(q, x) && FitsIn(n, x, q.size) }

  /** A request of 32-bit words; shifting by 32 or more is not defined. */
  predicate Words(q: Request, bits: nat)
  {
    && q.align == Pow2(bits) && bits <= 32 && 0 < q.size < 0x1_0000_0000
    && 0 <= q.lo < 0x1_0000_0000 && 0 <= q.hi < 0x1_0000_0000
  }

  /** Where in the block, or after it, a chunk for the request would have to start. */
  ghost function Least(q: Request, n: Node): int
    requires q.align > 0
  {
    LeastFrom(if n.addr < q.lo then q.lo else n.addr, q.ofs, q.align)
  }

  /** From the start of the block to the end of that chunk. */
  ghost function Span(q: Request, n: Node): int
    requires q.align > 0
  {
    Least(q, n) - n.addr + q.size
  }

  // ----- the fit test

  /** The test as the code makes it. */
  predicate Passes(addr: int, node: int, size: int, nsize: int) { W32(W32(addr - node) + size) <= nsize }

  /** For an address that did not wrap, the test is right if and only if the sum does not wrap. */
  lemma FitTestExact(addr: int, node: int, size: int, nsize: int)
    requires 0 <= node <= addr < 0x1_0000_0000 && 0 < size <= nsize < 0x1_0000_0000
    ensures (Passes(addr, node, size, nsize) <==> addr - node + size <= nsize) <==> addr - node + size < 0x1_0000_0000
  {
    WrapAdd(addr - node, size);
  }

  /** The test passes although the block does not fit: the sum wrapped to something small. */
  ghost predicate WrongPass(q: Request, n: Node)
    requires q.align > 0
  {
    Span(q, n) >= 0x1_0000_0000 && W32(Span(q, n)) <= n.size
  }

  lemma PassesIff(q: Request, n: Node)
    requires q.align > 0 && q.size > 0 && n.size < 0x1_0000_0000
    ensures Passes(W32(Least(q, n)), n.addr, q.size, n.size) <==> Span(q, n) <= n.size || WrongPass(q, n)
  {
    WrapTwice(Least(q, n), n.addr, q.size);
    SpanPositive(q, n);
    if Span(q, n) < 0x1_0000_0000 { WordSame(Span(q, n)); }
  }

  lemma WrapTwice(a: int, node: int, size: int)
    ensures W32(W32(W32(a) - node) + size) == W32(a - node + size)
  {
    WrapAdd(a, -node);
    WrapAdd(a - node, size);
  }

  lemma SpanPositive(q: Request, n: Node)
    requires q.align > 0
    ensures Span(q, n) >= q.size && Least(q, n) >= n.addr && Least(q, n) >= q.lo
  {
  }

  // ----- one block

  /** Verdicts on one free block: not this one, nor any later one, or this one at `addr`. */
  datatype Verdict = Skip | Stop | Fit(addr: int)

  ghost function VerdictOn(q: Request, n: Node): Verdict
    requires q.align > 0
  {
    if n.size < q.size || (Span(q, n) > n.size && !WrongPass(q, n)) then Skip
    else if W32(Least(q, n) + q.size) > q.hi then Stop
    else Fit(W32(Least(q, n)))
  }

  /** What a verdict claims. */
  ghost predicate Right(q: Request, n: Node, v: Verdict)
  {
    match v
    case Skip => forall x :: !Suits(q, n, x)
    case Stop => forall x :: n.addr <= x ==> !Candidate(q, x)
    case Fit(addr) => Suits(q, n, addr) && forall x :: n.addr <= x && Candidate(q, x) ==> addr <= x
  }

  /** The code settles on a block that is too small: the sum wrapped, and past the window test too. */
  ghost predicate Misfit(q: Request, n: Node)
    requires q.align > 0
  {
    q.size <= n.size && WrongPass(q, n) && W32(Least(q, n) + q.size) <= q.hi
  }

  predicate WordBlock(n: Node) { 0 <= n.addr && 0 <= n.size && n.addr + n.size < 0x1_0000_0000 }

  lemma LeastCandidate(q: Request, n: Node, x: int)
    requires q.align > 0 && n.addr <= x && Candidate(q, x)
    ensures Least(q, n) <= x
  {
    var start := if n.addr < q.lo then q.lo else n.addr;
    LeastAligned(start, Least(q, n), q.ofs, q.align);
  }

  /** A wrong pass that the window test catches does no harm: nothing fits from here on anyway. */
  lemma NoneWhenWrong(q: Request, n: Node)
    requires q.align > 0 && 0 <= n.addr && WrongPass(q, n) && q.hi < 0x1_0000_0000
    ensures forall x :: n.addr <= x ==> !Candidate(q, x)
  {
    forall x | n.addr <= x ensures !Candidate(q, x) {
      if Candidate(q, x) { LeastCandidate(q, n, x); }
    }
  }

  lemma SkipRight(q: Request, n: Node)
    requires q.align > 0 && (n.size < q.size || Span(q, n) > n.size)
    ensures forall x :: !Suits(q, n, x)
  {
    forall x ensures !Suits(q, n, x) {
      if Suits(q, n, x) { LeastCandidate(q, n, x); }
    }
  }

  /** A block that truly fits: no sum wraps, and the verdict is right. */
  lemma FitRight(q: Request, n: Node)
    requires q.align > 0 && q.size > 0 && 0 <= q.lo && WordBlock(n) && q.hi < 0x1_0000_0000
    requires q.size <= n.size && Span(q, n) <= n.size
    ensures VerdictOn(q, n) == if Least(q, n) + q.size > q.hi then Stop else Fit(Least(q, n))
    ensures Right(q, n, VerdictOn(q, n))
  {
    SpanPositive(q, n);
    NoWrapWhenFits(q, n);
    forall x | n.addr <= x && Candidate(q, x) ensures Least(q, n) <= x {
      LeastCandidate(q, n, x);
    }
  }

  lemma NoWrapWhenFits(q: Request, n: Node)
    requires q.align > 0 && q.size > 0 && WordBlock(n) && Span(q, n) <= n.size
    ensures W32(Least(q, n)) == Least(q, n) && W32(Least(q, n) + q.size) == Least(q, n) + q.size
    ensures !WrongPass(q, n)
  {
    SpanPositive(q, n);
    WordSame(Least(q, n));
    WordSame(Least(q, n) + q.size);
  }

  lemma WordSame(x: int)
    requires 0 <= x < 0x1_0000_0000
    ensures W32(x) == x
  {
  }

  lemma MisfitWrong(q: Request, n: Node)
    requires q.align > 0 && q.size > 0 && WordBlock(n) && Misfit(q, n)
    ensures VerdictOn(q, n) == Fit(W32(Least(q, n))) && !Suits(q, n, W32(Least(q, n)))
  {
    var x := W32(Least(q, n));
    SpanPositive(q, n);
    if Suits(q, n, x) { LeastCandidate(q, n, x); }
  }

  /** The exact condition: the verdict on a block is right if and only if it is no misfit. */
  lemma VerdictExact(q: Request, bits: nat, n: Node)
    requires Words(q, bits) && WordBlock(n)
    ensures Right(q, n, VerdictOn(q, n)) <==> !Misfit(q, n)
  {
    if Misfit(q, n) {
      MisfitWrong(q, n);
    } else if n.size < q.size || (Span(q, n) > n.size && !WrongPass(q, n)) {
      SkipRight(q, n);
    } else if WrongPass(q, n) {
      NoneWhenWrong(q, n);
    } else {
      FitRight(q, n);
    }
  }

  // ----- one region

  /** Nothing in the first `k` blocks of the region can serve the request. */
  ghost predicate NoneBefore(ns: seq<Node>, q: Request, k: nat)
    requires k <= |ns|
  {
    forall j, x :: 0 <= j < k ==> !Suits(q, ns[j], x)
  }

  lemma NoPlacement(r: Region, q: Request)
    requires RegionOk(r) && q.size > 0 && NoneBefore(r.nodes, q, |r.nodes|)
    ensures NoneIn(r, q)
  {
    forall x ensures !Placement(r, q, x) {
      if Placement(r, q, x) {
        var k := RunInOneBlock(r.nodes, r.min, r.max, x, q.size);
        assert Suits(q, r.nodes[k], x);
      }
    }
  }

  /** A block past the window puts every later block past it too: leaving the loop loses nothing. */
  lemma StopIsFinal(r: Region, q: Request, k: nat)
    requires RegionOk(r) && k < |r.nodes| && NoneBefore(r.nodes, q, k)
    requires forall x :: r.nodes[k].addr <= x ==> !Candidate(q, x)
    ensures NoneBefore(r.nodes, q, |r.nodes|)
  {
    forall j, x | 0 <= j < |r.nodes| ensures !Suits(q, r.nodes[j], x) {
      if j > k { assert NodeOk(r.nodes[k], r.min, r.max); }
    }
  }

  lemma FitIsLowest(r: Region, q: Request, k: nat, addr: int)
    requires RegionOk(r) && q.size > 0 && k < |r.nodes| && NoneBefore(r.nodes, q, k)
    requires Suits(q, r.nodes[k], addr) && forall x :: r.nodes[k].addr <= x && Candidate(q, x) ==> addr <= x
    requires q.flags <= r.flags
    ensures BestPlace(r, q, addr) && addr > 0
  {
    FitsAllFree(r.nodes, k, addr, q.size);
    assert NodeOk(r.nodes[k], r.min, r.max);
    forall x | Placement(r, q, x) ensures addr <= x {
      var j := RunInOneBlock(r.nodes, r.min, r.max, x, q.size);
      assert Suits(q, r.nodes[j], x);
      if j > k { assert NodeOk(r.nodes[k], r.min, r.max); }
    }
  }


  /** What the walk through a list of blocks settles on. */
  datatype Choice = Nothing | Chosen(k: nat, addr: int)

  ghost function Choose(ns: seq<Node>, q: Request, k: nat): Choice
    requires q.align > 0 && k <= |ns|
    decreases |ns| - k
  {
    if k == |ns| then Nothing
    else match VerdictOn(q, ns[k])
      case Skip => Choose(ns, q, k + 1)
      case Stop => Nothing
      case Fit(addr) => Chosen(k, addr)
  }

  lemma BlockWords(r: Region, k: nat)
    requires RegionOk(r) && k < |r.nodes|
    ensures WordBlock(r.nodes[k])
  {
    assert NodeOk(r.nodes[k], r.min, r.max);
  }

  /** A choice that is no misfit is the lowest placement; no choice means that there is none. */
  lemma {:induction false} ChoiceRight(r: Region, q: Request, bits: nat, k: nat)
    requires RegionOk(r) && Words(q, bits) && k <= |r.nodes| && NoneBefore(r.nodes, q, k) && q.flags <= r.flags
    ensures var c := Choose(r.nodes, q, k);
      && (c.Nothing? ==> NoneIn(r, q))
      && (c.Chosen? ==> c.k < |r.nodes| && NoneBefore(r.nodes, q, c.k) && VerdictOn(q, r.nodes[c.k]) == Fit(c.addr))
      && (c.Chosen? && !Misfit(q, r.nodes[c.k]) ==> BestPlace(r, q, c.addr) && c.addr > 0)
    decreases |r.nodes| - k
  {
    if k == |r.nodes| {
      NoPlacement(r, q);
    } else {
      BlockWords(r, k);
      VerdictExact(q, bits, r.nodes[k]);
      match VerdictOn(q, r.nodes[k])
      case Skip => ChoiceRight(r, q, bits, k + 1);
      case Stop => StopIsFinal(r, q, k); NoPlacement(r, q);
      case Fit(addr) => if !Misfit(q, r.nodes[k]) { FitIsLowest(r, q, k, addr); }
    }
  }

  lemma ChosenFits(r: Region, q: Request, bits: nat, k: nat, addr: int)
    requires RegionOk(r) && Words(q, bits) && k < |r.nodes| && VerdictOn(q, r.nodes[k]) == Fit(addr)
    requires !Misfit(q, r.nodes[k])
    ensures FitsIn(r.nodes[k], addr, q.size)
  {
    BlockWords(r, k);
    VerdictExact(q, bits, r.nodes[k]);
  }

  /** A misfit is never a placement, not even in another block of the region. */
  lemma MisfitMisplaced(r: Region, q: Request, k: nat)
    requires RegionOk(r) && q.align > 0 && q.size > 0 && k < |r.nodes| && NoneBefore(r.nodes, q, k)
    requires Misfit(q, r.nodes[k])
    ensures !Placement(r, q, W32(Least(q, r.nodes[k])))
  {
    var n := r.nodes[k];
    var x := W32(Least(q, n));
    SpanPositive(q, n);
    if Placement(r, q, x) {
      var j := RunInOneBlock(r.nodes, r.min, r.max, x, q.size);
      assert Suits(q, r.nodes[j], x);
      assert NodeOk(r.nodes[j], r.min, r.max) && NodeOk(n, r.min, r.max);
      LeastCandidate(q, n, x);
    }
  }

  // ----- the pool

  predicate Eligible(r: Region, q: Request) { q.flags <= r.flags && r.min < q.hi && r.max > q.lo }

  /** The trivial rejection of a whole region loses no placement. */
  lemma Rejected(r: Region, q: Request)
    requires RegionOk(r) && q.size > 0
    requires !(q.flags <= r.flags) || r.min >= q.hi || r.max <= q.lo
    ensures NoneIn(r, q)
  {
    forall x ensures !Placement(r, q, x) {
      if AllFree(r.nodes, x, q.size) {
        var k := RunInOneBlock(r.nodes, r.min, r.max, x, q.size);
        assert NodeOk(r.nodes[k], r.min, r.max);
      }
    }
  }

  /** What the search through the regions from `i` on settles on. */
  datatype Found = Nowhere | Found(i: nat, k: nat, addr: int)

  ghost function Search(p: seq<Region>, q: Request, i: nat): Found
    requires q.align > 0 && i <= |p|
    decreases |p| - i
  {
    if i == |p| then Nowhere
    else if !Eligible(p[i], q) || Choose(p[i].nodes, q, 0).Nothing? then Search(p, q, i + 1)
    else var c := Choose(p[i].nodes, q, 0); Found(i, c.k, c.addr)
  }

  /** The answer a search should give: the lowest placement in the first region that has one. */
  ghost predicate Correct(p: seq<Region>, q: Request, f: Found)
  {
    match f
    case Nowhere => Refused(p, q)
    case Found(i, _, addr) => i < |p| && BestPlace(p[i], q, addr) && forall j :: 0 <= j < i ==> NoneIn(p[j], q)
  }

  /** The block that the search settles on is no misfit. */
  ghost predicate Serves(p: seq<Region>, q: Request)
    requires q.align > 0
  {
    match Search(p, q, 0)
    case Nowhere => true
    case Found(i, k, _) => i < |p| && k < |p[i].nodes| && !Misfit(q, p[i].nodes[k])
  }

  /** The walk through one region: a choice is its lowest placement if and only if it is no misfit. */
  lemma ChoiceExact(r: Region, q: Request, bits: nat)
    requires RegionOk(r) && Words(q, bits) && q.flags <= r.flags
    ensures var c := Choose(r.nodes, q, 0);
      && (c.Nothing? ==> NoneIn(r, q))
      && (c.Chosen? ==> c.k < |r.nodes| && (BestPlace(r, q, c.addr) <==> !Misfit(q, r.nodes[c.k])))
  {
    ChoiceRight(r, q, bits, 0);
    var c := Choose(r.nodes, q, 0);
    if c.Chosen? && Misfit(q, r.nodes[c.k]) { MisfitMisplaced(r, q, c.k); }
  }

  lemma {:induction false} SearchFrom(p: seq<Region>, q: Request, bits: nat, i: nat)
    requires PoolOk(p) && Words(q, bits) && i <= |p| && forall j :: 0 <= j < i ==> NoneIn(p[j], q)
    ensures var f := Search(p, q, i);
      && (f.Nowhere? ==> Refused(p, q))
      && (f.Found? ==> f.i < |p| && f.k < |p[f.i].nodes| && forall j :: 0 <= j < f.i ==> NoneIn(p[j], q))
      && (f.Found? ==> (BestPlace(p[f.i], q, f.addr) <==> !Misfit(q, p[f.i].nodes[f.k])))
    decreases |p| - i
  {
    if i < |p| {
      var r := p[i];
      assert RegionOk(r);
      if !Eligible(r, q) {
        Rejected(r, q);
        SearchFrom(p, q, bits, i + 1);
      } else {
        ChoiceExact(r, q, bits);
        if Choose(r.nodes, q, 0).Nothing? { SearchFrom(p, q, bits, i + 1); }
      }
    }
  }

  /** The exact condition for the whole search: its answer is correct if and only if it meets no misfit. */
  lemma SearchExact(p: seq<Region>, q: Request, bits: nat)
    requires PoolOk(p) && Words(q, bits)
    ensures Correct(p, q, Search(p, q, 0)) <==> Serves(p, q)
  {
    SearchFrom(p, q, bits, 0);
  }

  // ----- when no block can be a misfit

  /** Neither the chunk's distance from the window's start nor from any block can wrap. */
  lemma NoMisfit(q: Request, bits: nat, n: Node)
    requires Words(q, bits) && WordBlock(n)
    requires q.size + q.align <= 0x1_0000_0000
    requires q.lo <= n.addr || q.lo - n.addr + q.size + q.align <= 0x1_0000_0000
    ensures !Misfit(q, n)
  {
  }

  lemma ServesAll(p: seq<Region>, q: Request, bits: nat)
    requires PoolOk(p) && Words(q, bits)
    requires forall i, k :: 0 <= i < |p| && 0 <= k < |p[i].nodes| && q.size <= p[i].nodes[k].size ==> !Misfit(q, p[i].nodes[k])
    ensures Serves(p, q)
  {
    SearchFrom(p, q, bits, 0);
  }

  /** Without a window, a size that leaves room for the alignment is always served correctly. */
  lemma ServesAligned(p: seq<Region>, q: Request, bits: nat)
    requires PoolOk(p) && Words(q, bits) && q.lo == 0 && q.size + q.align <= 0x1_0000_0000
    ensures Serves(p, q)
  {
    forall i, k | 0 <= i < |p| && 0 <= k < |p[i].nodes| && q.size <= p[i].nodes[k].size ensures !Misfit(q, p[i].nodes[k]) {
      assert RegionOk(p[i]);
      BlockWords(p[i], k);
      NoMisfit(q, bits, p[i].nodes[k]);
    }
    ServesAll(p, q, bits);
  }

  /** Neither is a request without alignment for a window inside the address space. */
  lemma ServesWindow(p: seq<Region>, q: Request)
    requires PoolOk(p) && Words(q, 0) && q.lo + q.size <= q.hi
    ensures Serves(p, q)
  {
    assert Pow2(0) == 1;
    forall i, k | 0 <= i < |p| && 0 <= k < |p[i].nodes| && q.size <= p[i].nodes[k].size ensures !Misfit(q, p[i].nodes[k]) {
      assert RegionOk(p[i]);
      BlockWords(p[i], k);
      NoMisfit(q, 0, p[i].nodes[k]);
    }
    ServesAll(p, q, 0);
  }

  /** The case arises: 32 bytes wanted from 0xfffffff0 on, and the search settles on a block at 8. */
  lemma WrappedFit()
    ensures var p := [Region(0, 0xffff_fff8, {}, 0, 0x1000, [Node(8, 0x1000)])];
      var q := Request(0x20, {}, 1, 0, 0xffff_fff0, 0xffff_ffff);
      PoolOk(p) && Words(q, 0) && Search(p, q, 0) == Found(0, 0, 0xffff_fff0) && !Serves(p, q) && Refused(p, q)
  {
    var n := Node(8, 0x1000);
    var p := [Region(0, 0xffff_fff8, {}, 0, 0x1000, [n])];
    var q := Request(0x20, {}, 1, 0, 0xffff_fff0, 0xffff_ffff);
    assert Pow2(0) == 1;
    LeastUnique(0xffff_fff0, 0xffff_fff0, 0, 1);
    assert Least(q, n) == 0xffff_fff0 && Span(q, n) == 0x1_0000_0008;
    assert VerdictOn(q, n) == Fit(0xffff_fff0);
    assert Choose(p[0].nodes, q, 0) == Chosen(0, 0xffff_fff0);
    TotalOne(n);
    assert forall x :: !Candidate(q, x);
  }
}
