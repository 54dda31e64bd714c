/**
 * The free list of one memory region, as a sequence of blocks in address order.
 * A list is canonical when its blocks are granule-aligned, lie in the region, and neither overlap
 * nor touch; such a list is determined by the bytes it holds.
 */
module FreeList {
  import opened Bits

  datatype Node = Node(addr: int, size: int)

  predicate Holds(n: Node, a: int) { n.addr <= a < n.addr + n.size }

  /** A block of whole 8-byte granules inside [lo, hi), away from the null address. */
  predicate NodeOk(n: Node, lo: int, hi: int)
  {
    && n.addr % 8 == 0 && n.size % 8 == 0 && 0 < n.size
    && 0 < n.addr && lo <= n.addr && n.addr + n.size <= hi
  }

  ghost predicate Canonical(ns: seq<Node>, lo: int, hi: int)
  {
    && (forall i :: 0 <= i < |ns| ==> NodeOk(ns[i], lo, hi))
    && (forall i, j :: 0 <= i < j < |ns| ==> ns[i].addr + ns[i].size < ns[j].addr)
  }

  /** Byte `a` is free: some block of the list holds it. */
  ghost predicate IsFree(ns: seq<Node>, a: int)
  {
    exists i :: 0 <= i < |ns| && Holds(ns[i], a)
  }

  ghost function Total(ns: seq<Node>): int
  {
    if |ns| == 0 then 0 else ns[0].size + Total(ns[1..])
  }

  // ----- canonical lists are determined by their bytes

  lemma CanonicalTail(ns: seq<Node>, lo: int, hi: int)
    requires Canonical(ns, lo, hi) && |ns| > 0
    ensures Canonical(ns[1..], lo, hi)
    ensures forall a :: IsFree(ns[1..], a) <==> IsFree(ns, a) && a > ns[0].addr + ns[0].size
  {
    var t := ns[1..];
    assert forall i :: 0 <= i < |t| ==> t[i] == ns[i + 1];
    forall a ensures IsFree(t, a) <==> IsFree(ns, a) && a > ns[0].addr + ns[0].size {
      if IsFree(t, a) {
        var i :| 0 <= i < |t| && Holds(t[i], a);
        assert Holds(ns[i + 1], a);
      }
      if IsFree(ns, a) && a > ns[0].addr + ns[0].size {
        var i :| 0 <= i < |ns| && Holds(ns[i], a);
        assert Holds(t[i - 1], a);
      }
    }
  }

  /** The first byte of the first block, and the byte just past that block. */
  lemma FirstBlock(ns: seq<Node>, lo: int, hi: int)
    requires Canonical(ns, lo, hi) && |ns| > 0
    ensures IsFree(ns, ns[0].addr) && !IsFree(ns, ns[0].addr + ns[0].size)
    ensures forall a :: IsFree(ns, a) ==> ns[0].addr <= a
    ensures forall a :: Holds(ns[0], a) ==> IsFree(ns, a)
  {
    assert Holds(ns[0], ns[0].addr);
  }

  lemma SameFirst(ns: seq<Node>, ms: seq<Node>, lo: int, hi: int)
    requires Canonical(ns, lo, hi) && Canonical(ms, lo, hi) && |ns| > 0 && |ms| > 0
    requires forall a :: IsFree(ns, a) <==> IsFree(ms, a)
    ensures ns[0] == ms[0]
  {
    FirstBlock(ns, lo, hi);
    FirstBlock(ms, lo, hi);
    assert NodeOk(ns[0], lo, hi) && NodeOk(ms[0], lo, hi);
    assert ns[0].addr == ms[0].addr;
    assert !Holds(ns[0], ms[0].addr + ms[0].size);
    assert !Holds(ms[0], ns[0].addr + ns[0].size);
  }

  lemma {:induction false} CanonicalUnique(ns: seq<Node>, ms: seq<Node>, lo: int, hi: int)
    requires Canonical(ns, lo, hi) && Canonical(ms, lo, hi)
    requires forall a :: IsFree(ns, a) <==> IsFree(ms, a)
    ensures ns == ms
  {
    if |ns| == 0 || |ms| == 0 {
      if |ns| > 0 { FirstBlock(ns, lo, hi); }
      if |ms| > 0 { FirstBlock(ms, lo, hi); }
    } else {
      SameFirst(ns, ms, lo, hi);
      CanonicalTail(ns, lo, hi);
      CanonicalTail(ms, lo, hi);
      CanonicalUnique(ns[1..], ms[1..], lo, hi);
      assert ns == [ns[0]] + ns[1..] && ms == [ms[0]] + ms[1..];
    }
  }

  lemma BlockEndNotFree(ns: seq<Node>, k: nat, lo: int, hi: int)
    requires Canonical(ns, lo, hi) && k < |ns|
    ensures !IsFree(ns, ns[k].addr + ns[k].size)
  {
    forall j | 0 <= j < |ns| ensures !Holds(ns[j], ns[k].addr + ns[k].size) {
      assert NodeOk(ns[j], lo, hi) && NodeOk(ns[k], lo, hi);
    }
  }

  /** A run of free bytes lies inside a single block. */
  lemma RunInOneBlock(ns: seq<Node>, lo: int, hi: int, x: int, size: int) returns (k: nat)
    requires Canonical(ns, lo, hi) && size > 0
    requires forall a :: x <= a < x + size ==> IsFree(ns, a)
    ensures k < |ns| && ns[k].addr <= x && x + size <= ns[k].addr + ns[k].size
  {
    assert IsFree(ns, x);
    k :| 0 <= k < |ns| && Holds(ns[k], x);
    BlockEndNotFree(ns, k, lo, hi);
  }

  // ----- totals

  lemma {:induction false} TotalConcat(a: seq<Node>, b: seq<Node>)
    ensures Total(a + b) == Total(a) + Total(b)
  {
    if |a| == 0 {
      assert a + b == b;
    } else {
      assert (a + b)[1..] == a[1..] + b;
      TotalConcat(a[1..], b);
    }
  }

  lemma TotalThree(a: seq<Node>, b: seq<Node>, c: seq<Node>)
    ensures Total(a + b + c) == Total(a) + Total(b) + Total(c)
  {
    TotalConcat(a + b, c);
    TotalConcat(a, b);
  }

  lemma TotalOne(n: Node)
    ensures Total([n]) == n.size
  {
    assert [n][1..] == [];
  }

  lemma TotalAt(ns: seq<Node>, k: nat)
    requires k <= |ns|
    ensures Total(ns) == Total(ns[..k]) + Total(ns[k..])
  {
    TotalConcat(ns[..k], ns[k..]);
    assert ns == ns[..k] + ns[k..];
  }

  lemma TotalParts(ns: seq<Node>, i: nat, j: nat)
    requires i <= j <= |ns|
    ensures Total(ns) == Total(ns[..i]) + Total(ns[i..j]) + Total(ns[j..])
  {
    TotalAt(ns, j);
    TotalAt(ns[..j], i);
    assert ns[..j][..i] == ns[..i] && ns[..j][i..] == ns[i..j];
  }

  lemma TotalSplit(ns: seq<Node>, k: nat)
    requires k < |ns|
    ensures Total(ns) == Total(ns[..k]) + ns[k].size + Total(ns[k + 1..])
  {
    TotalAt(ns, k);
    assert ns[k..][1..] == ns[k + 1..];
  }

  /** A canonical list never holds more bytes than its region has. */
  lemma {:induction false} TotalBound(ns: seq<Node>, lo: int, hi: int)
    requires Canonical(ns, lo, hi) && lo <= hi
    ensures 0 <= Total(ns) <= hi - lo
    decreases |ns|
  {
    if |ns| > 0 {
      var from := ns[0].addr + ns[0].size;
      CanonicalTail(ns, lo, hi);
      assert forall i :: 0 <= i < |ns[1..]| ==> ns[1..][i] == ns[i + 1];
      TotalBound(ns[1..], from, hi);
    }
  }

  // ----- taking a range out of one block

  /** Node `k` loses [lo, hi); what is left of it on either side stays a block. */
  function Take(ns: seq<Node>, k: nat, lo: int, hi: int): seq<Node>
    requires k < |ns|
  {
    ns[..k] + Pieces(ns[k], lo, hi) + ns[k + 1..]
  }

  function Pieces(n: Node, lo: int, hi: int): seq<Node>
  {
    (if lo > n.addr then [Node(n.addr, lo - n.addr)] else [])
    + (if hi < n.addr + n.size then [Node(hi, n.addr + n.size - hi)] else [])
  }

  predicate Inside(n: Node, lo: int, hi: int)
  {
    n.addr <= lo < hi <= n.addr + n.size && lo % 8 == 0 && hi % 8 == 0
  }

  lemma PiecesCanonical(n: Node, lo: int, hi: int, rlo: int, rhi: int)
    requires NodeOk(n, rlo, rhi) && Inside(n, lo, hi)
    ensures Canonical(Pieces(n, lo, hi), rlo, rhi)
    ensures forall i :: 0 <= i < |Pieces(n, lo, hi)| ==>
      n.addr <= Pieces(n, lo, hi)[i].addr
      && Pieces(n, lo, hi)[i].addr + Pieces(n, lo, hi)[i].size <= n.addr + n.size
  {
    Granules(lo, n.addr);
    Granules(n.addr, n.size);
    Granules(n.addr + n.size, hi);
    if lo > n.addr { assert NodeOk(Node(n.addr, lo - n.addr), rlo, rhi); }
    if hi < n.addr + n.size { assert NodeOk(Node(hi, n.addr + n.size - hi), rlo, rhi); }
  }

  lemma PiecesFree(n: Node, lo: int, hi: int, a: int)
    requires Inside(n, lo, hi)
    ensures IsFree(Pieces(n, lo, hi), a) <==> Holds(n, a) && !(lo <= a < hi)
  {
    var ps := Pieces(n, lo, hi);
    if Holds(n, a) && a < lo { assert Holds(ps[0], a); }
    if Holds(n, a) && a >= hi { assert Holds(ps[|ps| - 1], a); }
  }

  lemma PiecesTotal(n: Node, lo: int, hi: int)
    requires Inside(n, lo, hi)
    ensures Total(Pieces(n, lo, hi)) == n.size - (hi - lo)
  {
    var left := if lo > n.addr then [Node(n.addr, lo - n.addr)] else [];
    var right := if hi < n.addr + n.size then [Node(hi, n.addr + n.size - hi)] else [];
    TotalConcat(left, right);
    assert Total(left) == lo - n.addr;
    assert Total(right) == n.addr + n.size - hi;
  }

  /** Three stretches in address order, with gaps between them, make a canonical list. */
  lemma JoinCanonical(a: seq<Node>, b: seq<Node>, lo: int, hi: int)
    requires Canonical(a, lo, hi) && Canonical(b, lo, hi)
    requires forall i, j :: 0 <= i < |a| && 0 <= j < |b| ==> a[i].addr + a[i].size < b[j].addr
    ensures Canonical(a + b, lo, hi)
  {
  }

  lemma JoinFree(a: seq<Node>, b: seq<Node>, x: int)
    ensures IsFree(a + b, x) <==> IsFree(a, x) || IsFree(b, x)
  {
    if IsFree(a, x) {
      var i :| 0 <= i < |a| && Holds(a[i], x);
      assert Holds((a + b)[i], x);
    }
    if IsFree(b, x) {
      var i :| 0 <= i < |b| && Holds(b[i], x);
      assert Holds((a + b)[|a| + i], x);
    }
  }

  lemma SliceCanonical(ns: seq<Node>, i: nat, j: nat, lo: int, hi: int)
    requires i <= j <= |ns| && Canonical(ns, lo, hi)
    ensures Canonical(ns[i..j], lo, hi)
  {
  }

  /** Taking a range leaves a canonical list holding exactly the other bytes. */
  lemma TakeCanonical(ns: seq<Node>, k: nat, lo: int, hi: int, rlo: int, rhi: int)
    requires k < |ns| && Canonical(ns, rlo, rhi) && Inside(ns[k], lo, hi)
    ensures Canonical(Take(ns, k, lo, hi), rlo, rhi)
  {
    var ps := Pieces(ns[k], lo, hi);
    PiecesCanonical(ns[k], lo, hi, rlo, rhi);
    SliceCanonical(ns, 0, k, rlo, rhi);
    SliceCanonical(ns, k + 1, |ns|, rlo, rhi);
    JoinCanonical(ns[..k], ps, rlo, rhi);
    JoinCanonical(ns[..k] + ps, ns[k + 1..], rlo, rhi);
  }

  /** A byte of block `k` is in no other block. */
  lemma OnlyInBlock(ns: seq<Node>, k: nat, lo: int, hi: int, a: int)
    requires k < |ns| && Canonical(ns, lo, hi)
    ensures IsFree(ns, a) <==> IsFree(ns[..k], a) || Holds(ns[k], a) || IsFree(ns[k + 1..], a)
    ensures Holds(ns[k], a) ==> !IsFree(ns[..k], a) && !IsFree(ns[k + 1..], a)
  {
    assert ns == ns[..k] + ([ns[k]] + ns[k + 1..]);
    JoinFree(ns[..k], [ns[k]] + ns[k + 1..], a);
    JoinFree([ns[k]], ns[k + 1..], a);
    assert IsFree([ns[k]], a) <==> Holds([ns[k]][0], a);
  }

  lemma TakeFree(ns: seq<Node>, k: nat, lo: int, hi: int, rlo: int, rhi: int, a: int)
    requires k < |ns| && Canonical(ns, rlo, rhi) && Inside(ns[k], lo, hi)
    ensures IsFree(Take(ns, k, lo, hi), a) <==> IsFree(ns, a) && !(lo <= a < hi)
  {
    var ps := Pieces(ns[k], lo, hi);
    PiecesFree(ns[k], lo, hi, a);
    JoinFree(ns[..k] + ps, ns[k + 1..], a);
    JoinFree(ns[..k], ps, a);
    OnlyInBlock(ns, k, rlo, rhi, a);
  }

  lemma TakeTotal(ns: seq<Node>, k: nat, lo: int, hi: int)
    requires k < |ns| && Inside(ns[k], lo, hi)
    ensures Total(Take(ns, k, lo, hi)) == Total(ns) - (hi - lo)
  {
    var ps := Pieces(ns[k], lo, hi);
    PiecesTotal(ns[k], lo, hi);
    TotalThree(ns[..k], ps, ns[k + 1..]);
    TotalSplit(ns, k);
  }

  // ----- putting a range back

  /** The range [lo, hi) fits between blocks k - 1 and k of the list. */
  ghost predicate FitsAt(ns: seq<Node>, k: nat, lo: int, hi: int)
  {
    && k <= |ns| && 0 < lo < hi && lo % 8 == 0 && hi % 8 == 0
    && (forall i :: 0 <= i < k ==> ns[i].addr + ns[i].size <= lo)
    && (forall i :: k <= i < |ns| ==> hi <= ns[i].addr)
  }

  /** Insert [lo, hi) before block `k`, merged with the neighbours it touches. */
  function Insert(ns: seq<Node>, k: nat, lo: int, hi: int): seq<Node>
    requires k <= |ns|
  {
    var left := k > 0 && ns[k - 1].addr + ns[k - 1].size >= lo;
    var right := k < |ns| && hi >= ns[k].addr;
    var from, to := MergedFrom(ns, k, lo), MergedTo(ns, k, hi);
    Splice(ns, if left then k - 1 else k, if right then k + 1 else k, Node(from, to - from))
  }

  /** Blocks i..j replaced by one block. */
  function Splice(ns: seq<Node>, i: nat, j: nat, n: Node): seq<Node>
    requires i <= j <= |ns|
  {
    ns[..i] + [n] + ns[j..]
  }

  lemma SpliceCanonical(ns: seq<Node>, i: nat, j: nat, n: Node, rlo: int, rhi: int)
    requires i <= j <= |ns| && Canonical(ns, rlo, rhi) && NodeOk(n, rlo, rhi)
    requires i > 0 ==> ns[i - 1].addr + ns[i - 1].size < n.addr
    requires j < |ns| ==> n.addr + n.size < ns[j].addr
    ensures Canonical(Splice(ns, i, j, n), rlo, rhi)
  {
    SliceCanonical(ns, 0, i, rlo, rhi);
    SliceCanonical(ns, j, |ns|, rlo, rhi);
    forall x | 0 <= x < i ensures ns[x].addr + ns[x].size < n.addr {
      assert NodeOk(ns[i - 1], rlo, rhi);
    }
    forall x | j <= x < |ns| ensures n.addr + n.size < ns[x].addr {
      assert NodeOk(ns[j], rlo, rhi);
    }
    JoinCanonical(ns[..i], [n], rlo, rhi);
    JoinCanonical(ns[..i] + [n], ns[j..], rlo, rhi);
  }

  lemma SpliceFree(ns: seq<Node>, i: nat, j: nat, n: Node, a: int)
    requires i <= j <= |ns|
    ensures IsFree(Splice(ns, i, j, n), a) <==> IsFree(ns[..i], a) || Holds(n, a) || IsFree(ns[j..], a)
  {
    JoinFree(ns[..i] + [n], ns[j..], a);
    JoinFree(ns[..i], [n], a);
    assert IsFree([n], a) <==> Holds([n][0], a);
  }

  lemma SpliceTotal(ns: seq<Node>, i: nat, j: nat, n: Node)
    requires i <= j <= |ns|
    ensures Total(Splice(ns, i, j, n)) == Total(ns) - Total(ns[i..j]) + n.size
  {
    TotalThree(ns[..i], [n], ns[j..]);
    TotalParts(ns, i, j);
    TotalOne(n);
  }

  lemma Granules(a: int, b: int)
    requires a % 8 == 0 && b % 8 == 0
    ensures (a + b) % 8 == 0 && (a - b) % 8 == 0
  {
    DivModUnique(a + b, 8, a / 8 + b / 8, 0);
    DivModUnique(a - b, 8, a / 8 - b / 8, 0);
  }

  /** Where the merged block begins and ends, and which blocks it replaces. */
  function MergedFrom(ns: seq<Node>, k: nat, lo: int): int
    requires k <= |ns|
  {
    if k > 0 && ns[k - 1].addr + ns[k - 1].size >= lo then ns[k - 1].addr else lo
  }

  function MergedTo(ns: seq<Node>, k: nat, hi: int): int
    requires k <= |ns|
  {
    if k < |ns| && hi >= ns[k].addr then ns[k].addr + ns[k].size else hi
  }

  lemma MergedFromFacts(ns: seq<Node>, k: nat, lo: int, hi: int, rlo: int, rhi: int)
    requires Canonical(ns, rlo, rhi) && FitsAt(ns, k, lo, hi) && rlo <= lo
    ensures var f := MergedFrom(ns, k, lo);
            f % 8 == 0 && 0 < f && rlo <= f <= lo
            && (k > 0 ==> (f < lo <==> ns[k - 1].addr + ns[k - 1].size >= lo))
            && (k > 0 && f == lo ==> ns[k - 1].addr + ns[k - 1].size < f)
            && (k > 1 && f < lo ==> ns[k - 2].addr + ns[k - 2].size < f)
  {
    if k > 0 { assert NodeOk(ns[k - 1], rlo, rhi); }
  }

  lemma MergedToFacts(ns: seq<Node>, k: nat, lo: int, hi: int, rlo: int, rhi: int)
    requires Canonical(ns, rlo, rhi) && FitsAt(ns, k, lo, hi) && hi <= rhi
    ensures var t := MergedTo(ns, k, hi);
            t % 8 == 0 && hi <= t <= rhi
            && (k < |ns| && t == hi ==> t < ns[k].addr)
            && (k + 1 < |ns| && t > hi ==> t < ns[k + 1].addr)
            && (k < |ns| ==> (t > hi <==> hi >= ns[k].addr))
  {
    if k < |ns| {
      assert NodeOk(ns[k], rlo, rhi);
      Granules(ns[k].addr, ns[k].size);
    }
  }

  /** The blocks that inserting replaces, [i, j), and the block that takes their place. */
  function FirstMerged(ns: seq<Node>, k: nat, lo: int): (i: nat)
    requires k <= |ns|
    ensures i <= k
  {
    if k > 0 && ns[k - 1].addr + ns[k - 1].size >= lo then k - 1 else k
  }

  function LastMerged(ns: seq<Node>, k: nat, hi: int): (j: nat)
    requires k <= |ns|
    ensures k <= j <= |ns|
  {
    if k < |ns| && hi >= ns[k].addr then k + 1 else k
  }

  function Merged(ns: seq<Node>, k: nat, lo: int, hi: int): Node
    requires k <= |ns|
  {
    Node(MergedFrom(ns, k, lo), MergedTo(ns, k, hi) - MergedFrom(ns, k, lo))
  }

  lemma InsertIs(ns: seq<Node>, k: nat, lo: int, hi: int)
    requires k <= |ns|
    ensures Insert(ns, k, lo, hi) == Splice(ns, FirstMerged(ns, k, lo), LastMerged(ns, k, hi), Merged(ns, k, lo, hi))
  {
  }

  lemma MergedOk(ns: seq<Node>, k: nat, lo: int, hi: int, rlo: int, rhi: int)
    requires Canonical(ns, rlo, rhi) && FitsAt(ns, k, lo, hi) && rlo <= lo && hi <= rhi
    ensures NodeOk(Merged(ns, k, lo, hi), rlo, rhi)
  {
    MergedFromFacts(ns, k, lo, hi, rlo, rhi);
    MergedToFacts(ns, k, lo, hi, rlo, rhi);
    Granules(MergedTo(ns, k, hi), MergedFrom(ns, k, lo));
  }

  lemma LeftEdge(ns: seq<Node>, k: nat, lo: int, hi: int, rlo: int, rhi: int)
    requires Canonical(ns, rlo, rhi) && FitsAt(ns, k, lo, hi) && rlo <= lo
    ensures var i := FirstMerged(ns, k, lo); i > 0 ==> ns[i - 1].addr + ns[i - 1].size < MergedFrom(ns, k, lo)
  {
    MergedFromFacts(ns, k, lo, hi, rlo, rhi);
  }

  lemma RightEdge(ns: seq<Node>, k: nat, lo: int, hi: int, rlo: int, rhi: int)
    requires Canonical(ns, rlo, rhi) && FitsAt(ns, k, lo, hi) && hi <= rhi
    ensures var j := LastMerged(ns, k, hi); j < |ns| ==> MergedTo(ns, k, hi) < ns[j].addr
  {
    MergedToFacts(ns, k, lo, hi, rlo, rhi);
  }

  lemma InsertCanonical(ns: seq<Node>, k: nat, lo: int, hi: int, rlo: int, rhi: int)
    requires Canonical(ns, rlo, rhi) && FitsAt(ns, k, lo, hi) && rlo <= lo && hi <= rhi
    ensures Canonical(Insert(ns, k, lo, hi), rlo, rhi)
  {
    InsertIs(ns, k, lo, hi);
    MergedOk(ns, k, lo, hi, rlo, rhi);
    LeftEdge(ns, k, lo, hi, rlo, rhi);
    RightEdge(ns, k, lo, hi, rlo, rhi);
    SpliceCanonical(ns, FirstMerged(ns, k, lo), LastMerged(ns, k, hi), Merged(ns, k, lo, hi), rlo, rhi);
  }

  /** The merged block holds the range and the blocks it touched. */
  lemma MergedHolds(ns: seq<Node>, k: nat, lo: int, hi: int, a: int)
    requires k <= |ns| && lo < hi
    requires k > 0 ==> ns[k - 1].size > 0 && ns[k - 1].addr + ns[k - 1].size <= lo
    requires k < |ns| ==> ns[k].size > 0 && hi <= ns[k].addr
    ensures Holds(Merged(ns, k, lo, hi), a) <==>
              || lo <= a < hi || (FirstMerged(ns, k, lo) < k && Holds(ns[k - 1], a))
              || (k < LastMerged(ns, k, hi) && Holds(ns[k], a))
  {
  }

  lemma InsertFree(ns: seq<Node>, k: nat, lo: int, hi: int, rlo: int, rhi: int, a: int)
    requires Canonical(ns, rlo, rhi) && FitsAt(ns, k, lo, hi)
    ensures IsFree(Insert(ns, k, lo, hi), a) <==> IsFree(ns, a) || lo <= a < hi
  {
    var i, j := FirstMerged(ns, k, lo), LastMerged(ns, k, hi);
    assert k > 0 ==> NodeOk(ns[k - 1], rlo, rhi);
    assert k < |ns| ==> NodeOk(ns[k], rlo, rhi);
    MergedHolds(ns, k, lo, hi, a);
    InsertIs(ns, k, lo, hi);
    SpliceFree(ns, i, j, Merged(ns, k, lo, hi), a);
    SplitFree(ns, i, j, a);
    MergedFree(ns, k, i, j, a);
  }

  lemma SplitFree(ns: seq<Node>, i: nat, j: nat, a: int)
    requires i <= j <= |ns|
    ensures IsFree(ns, a) <==> IsFree(ns[..i], a) || IsFree(ns[i..j], a) || IsFree(ns[j..], a)
  {
    assert ns == ns[..i] + (ns[i..j] + ns[j..]);
    JoinFree(ns[..i], ns[i..j] + ns[j..], a);
    JoinFree(ns[i..j], ns[j..], a);
  }

  /** The at most two blocks around position `k`. */
  lemma MergedFree(ns: seq<Node>, k: nat, i: nat, j: nat, a: int)
    requires i <= k <= j <= |ns| && k - 1 <= i && j <= k + 1
    ensures IsFree(ns[i..j], a) <==> (i < k && Holds(ns[k - 1], a)) || (k < j && Holds(ns[k], a))
  {
    var m := ns[i..j];
    if i < k { assert m[0] == ns[k - 1]; }
    if k < j { assert m[k - i] == ns[k]; }
    if i < k && Holds(ns[k - 1], a) { assert Holds(m[0], a); }
    if k < j && Holds(ns[k], a) { assert Holds(m[k - i], a); }
  }

  lemma InsertTotal(ns: seq<Node>, k: nat, lo: int, hi: int)
    requires FitsAt(ns, k, lo, hi)
    ensures Total(Insert(ns, k, lo, hi)) == Total(ns) + (hi - lo)
  {
    var i, j := FirstMerged(ns, k, lo), LastMerged(ns, k, hi);
    InsertIs(ns, k, lo, hi);
    SpliceTotal(ns, i, j, Merged(ns, k, lo, hi));
    MergedTotal(ns, k, i, j);
  }

  lemma MergedTotal(ns: seq<Node>, k: nat, i: nat, j: nat)
    requires i <= k <= j <= |ns| && k - 1 <= i && j <= k + 1
    ensures Total(ns[i..j]) == (if i < k then ns[k - 1].size else 0) + (if k < j then ns[k].size else 0)
  {
    assert ns[i..j] == (if i < k then [ns[k - 1]] else []) + (if k < j then [ns[k]] else []);
    TotalConcat(if i < k then [ns[k - 1]] else [], if k < j then [ns[k]] else []);
  }

  /** Freeing what was just taken gives back the list exactly as it was. */
  lemma PutBack(ns: seq<Node>, k: nat, lo: int, hi: int, rlo: int, rhi: int, j: nat)
    requires k < |ns| && Canonical(ns, rlo, rhi) && Inside(ns[k], lo, hi)
    requires FitsAt(Take(ns, k, lo, hi), j, lo, hi)
    ensures Insert(Take(ns, k, lo, hi), j, lo, hi) == ns
  {
    var t := Take(ns, k, lo, hi);
    TakeCanonical(ns, k, lo, hi, rlo, rhi);
    assert NodeOk(ns[k], rlo, rhi);
    InsertCanonical(t, j, lo, hi, rlo, rhi);
    forall a ensures IsFree(Insert(t, j, lo, hi), a) <==> IsFree(ns, a) {
      TakeFree(ns, k, lo, hi, rlo, rhi, a);
      InsertFree(t, j, lo, hi, rlo, rhi, a);
      if lo <= a < hi { assert Holds(ns[k], a); }
    }
    CanonicalUnique(Insert(t, j, lo, hi), ns, rlo, rhi);
  }

  /** A range clear of free bytes has a place in the list. */
  lemma PlaceFor(ns: seq<Node>, lo: int, hi: int, rlo: int, rhi: int, k: nat)
    requires Canonical(ns, rlo, rhi) && 0 < lo < hi && lo % 8 == 0 && hi % 8 == 0
    requires forall a :: lo <= a < hi ==> !IsFree(ns, a)
    requires k <= |ns| && (forall i :: 0 <= i < k ==> ns[i].addr < lo) && (k < |ns| ==> ns[k].addr >= lo)
    ensures FitsAt(ns, k, lo, hi)
  {
    forall i | 0 <= i < k ensures ns[i].addr + ns[i].size <= lo {
      assert !IsFree(ns, lo);
      assert !Holds(ns[i], lo);
    }
    forall i | k <= i < |ns| ensures hi <= ns[i].addr {
      assert NodeOk(ns[i], rlo, rhi);
      assert Holds(ns[i], ns[i].addr);
      assert IsFree(ns, ns[i].addr);
    }
  }
}
