/**
 * The new_pages and remove_pages system calls of a process: page ranges mapped on request, recorded
 * in the order of the requests, and unmapped by the address that was requested.
 */
module UserPages {
  import opened PageTables
  import F = Frames
  import opened Vm

  /** One successful request, in bytes. */
  datatype Record = Record(addr: nat, len: nat)

  function First(r: Record): nat { r.addr / 4096 }
  function Count(r: Record): nat { r.len / 4096 }

  predicate Covers(r: Record, v: nat) { First(r) <= v < First(r) + Count(r) }

  predicate Aligned(r: Record)
  {
    0x1000000 <= r.addr && r.addr % 4096 == 0 && r.len % 4096 == 0 && r.addr + r.len <= 0x1_0000_0000
  }

  /** Writable by the user and present. */
  predicate UserWritable(e: Entry) { e.flags % 8 == 7 }

  ghost predicate Backed(r: Record, space: Space)
  {
    forall v :: Covers(r, v) ==> v in space && UserWritable(space[v])
  }

  ghost predicate Apart(r: Record, q: Record) { forall v :: !(Covers(r, v) && Covers(q, v)) }

  /** Recorded ranges are pairwise disjoint and every page in them is mapped. */
  ghost predicate RecordsOk(va: seq<Record>, space: Space)
  {
    && (forall k :: 0 <= k < |va| ==> Aligned(va[k]) && Backed(va[k], space))
    && forall k, l :: 0 <= k < l < |va| ==> Apart(va[k], va[l])
  }

  /** The first record of an address, |va| when there is none. */
  ghost function FirstAt(va: seq<Record>, addr: nat): (k: nat)
    ensures k <= |va| && (k < |va| ==> va[k].addr == addr) && forall l :: 0 <= l < k ==> va[l].addr != addr
  {
    if |va| == 0 || va[0].addr == addr then 0 else 1 + FirstAt(va[1..], addr)
  }

  function Without(va: seq<Record>, k: nat): seq<Record>
    requires k < |va|
  {
    va[..k] + va[k + 1..]
  }

  lemma PagesOf(r: Record)
    requires Aligned(r)
    ensures PagesIn(r.addr, r.len) == Count(r) && 4096 <= First(r) && First(r) + Count(r) <= 1048576
  {
    PagesFit(r.addr, r.len);
  }

  lemma Recorded(va: seq<Record>, r: Record, s: Snapshot, s': Snapshot)
    requires RecordsOk(va, s.space) && Aligned(r) && Grown(First(r), Count(r), s, s')
    requires forall v :: Covers(r, v) ==> v !in s.space
    ensures RecordsOk(va + [r], s'.space)
  {
    forall v | Covers(r, v) ensures v in s'.space && UserWritable(s'.space[v]) {
      assert Fresh(s'.space[v], s, s');
    }
    forall k | 0 <= k < |va| ensures Backed(va[k], s'.space) && Apart(va[k], r) {
      assert Backed(va[k], s.space);
    }
  }

  lemma Erased(va: seq<Record>, k: nat, s: Snapshot, s': Snapshot)
    requires RecordsOk(va, s.space) && k < |va| && Shrunk(First(va[k]), Count(va[k]), s, s')
    ensures RecordsOk(Without(va, k), s'.space)
  {
    forall l | 0 <= l < |va| && l != k ensures Backed(va[l], s'.space) {
      assert Backed(va[l], s.space) && (if l < k then Apart(va[l], va[k]) else Apart(va[k], va[l]));
    }
    var w := Without(va, k);
    assert forall l :: 0 <= l < |w| ==> w[l] == if l < k then va[l] else va[l + 1];
  }

  /** With positive lengths only, an address is recorded at most once. */
  lemma RecordedOnce(va: seq<Record>, space: Space, k: nat, l: nat)
    requires RecordsOk(va, space) && k < |va| && l < |va| && va[k].addr == va[l].addr && va[k].len > 0 && va[l].len > 0
    ensures k == l
  {
    assert Covers(va[k], First(va[k])) && Covers(va[l], First(va[k]));
    assert k < l ==> Apart(va[k], va[l]);
    assert l < k ==> Apart(va[l], va[k]);
  }

  /** What the two-level look-up finds, for kernel and user pages. */
  lemma FrameOf(pages: Pages, pd: nat, i: nat, j: nat)
    requires Directory(pages, pd) && Identity(pages, pd) && i < 1024 && j < 1024
    ensures pages[pd][i].frame != 0 ==> pages[pd][i].frame in pages && |pages[pages[pd][i].frame]| == 1024
    ensures (pages[pd][i].frame != 0 && pages[pages[pd][i].frame][j].frame != 0)
            <==> if i < 4 then 1024 * i + j != 0 else 1024 * i + j in SpaceOf(pages, pd)
  {
    assert TableOk(pages, pd, pages[pd][i], i >= 4);
    if i < 4 {
      assert At(pages, pd, i, j) == Entry(1024 * i + j, 0x103);
    } else {
      SpaceAt(pages, pd, i, j);
    }
  }

  ghost predicate NoneMapped(space: Space, first: nat, n: nat)
  {
    forall v :: first <= v < first + n ==> v !in space
  }

  /** What the look-up of the page `k` places after `first` says of the range. */
  lemma OneMore(pages: Pages, pd: nat, first: nat, k: nat, any: bool)
    requires Directory(pages, pd) && 4096 <= first < 1048576 && k < 524288 && first + k <= 1048577
    requires NoneMapped(SpaceOf(pages, pd), first, k)
    requires var v := (first + k) % 1048576; any <==> if v < 4096 then v != 0 else v in SpaceOf(pages, pd)
    ensures any ==> first + k == 1048577 || first + k in SpaceOf(pages, pd)
    ensures !any ==> first + k <= 1048576 && NoneMapped(SpaceOf(pages, pd), first, k + 1)
  {
    WrapPage(first + k);
  }

  lemma WrapPage(x: nat)
    requires x < 2097152
    ensures x % 1048576 == if x < 1048576 then x else x - 1048576
  {
  }

  lemma Reached(pages: Pages, pd: nat, q: Record, before: Space)
    requires Directory(pages, pd) && Aligned(q) && AllReached(pages, pd, before, q.addr, q.len)
    requires NoneMapped(before, First(q), Count(q))
    ensures forall v :: Covers(q, v) ==> UserAccess(pages, pd, v)
  {
    PagesOf(q);
    forall v | Covers(q, v) ensures UserAccess(pages, pd, v) {
      PagesTouched(q.addr, q.len, v);
    }
  }

  class Process {
    const kernel: Kernel
    const pd: nat
    var va: seq<Record>

    constructor (k: Kernel, d: nat)
      requires k.Valid(d)
      ensures kernel == k && pd == d && va == [] && Valid()
    {
      kernel, pd, va := k, d, [];
    }

    ghost predicate Valid()
      reads this, kernel
    {
      kernel.Valid(pd) && RecordsOk(va, kernel.Space(pd))
    }

    ghost function Seen(): View
      requires Directory(kernel.pages, pd)
      reads this, kernel
    {
      View(va, kernel.Now(pd))
    }

    /**
     * Some page of [first, first + n) is mapped. Addresses wrap at 2^32, where the kernel's pages
     * begin; the first of them has frame 0 and looks unmapped, the next ones do not.
     */
    method AnyMapped(first: nat, n: nat) returns (any: bool)
      requires kernel.Valid(pd) && 4096 <= first < 1048576 && n < 524288
      ensures !any <==> first + n <= 1048577 && NoneMapped(kernel.Space(pd), first, n)
    {
      var k := 0;
      while k < n
        invariant 0 <= k <= n && first + k <= 1048577 && NoneMapped(kernel.Space(pd), first, k)
      {
        any := Occupied((first + k) % 1048576);
        OneMore(kernel.pages, pd, first, k, any);
        if any {
          assert first + n > 1048577 || !NoneMapped(kernel.Space(pd), first, n);
          return true;
        }
        k := k + 1;
      }
      any := false;
    }

    /** The tables give page `v` a frame other than frame 0. */
    method Occupied(v: nat) returns (yes: bool)
      requires kernel.Valid(pd) && v < 1048576
      ensures yes <==> if v < 4096 then v != 0 else v in kernel.Space(pd)
    {
      var i, j := Hi(v), Lo(v);
      HiLo(v);
      FrameOf(kernel.pages, pd, i, j);
      var pde := kernel.pages[pd][i];
      yes := pde.frame != 0 && kernel.pages[pde.frame][j].frame != 0;
    }

    /** When new_pages accepts a request: everything but positivity of the length is checked. */
    ghost predicate Accepts(addr: nat, len: int)
      requires Directory(kernel.pages, pd)
      reads this, kernel
    {
      && 0x1000000 <= addr && addr % 4096 == 0 && len >= 0 && len % 4096 == 0 && len / 4096 <= kernel.frames.free
      && addr + len <= 0x1_0000_1000
      && NoneMapped(kernel.Space(pd), addr / 4096, len / 4096)
    }

    /** sys_new_pages. */
    method NewPages(addr: nat, len: int) returns (r: int)
      requires Valid() && addr < 0x1_0000_0000 && len < 0x8000_0000
      requires Accepts(addr, len) ==> F.Serves(kernel.frames, len / 4096) && |kernel.supply| >= len / 4096
      requires addr + len != 0x1_0000_1000
      modifies this, kernel
      ensures Valid() && r == if old(Accepts(addr, len)) then 0 else -1
      ensures r == -1 ==> va == old(va) && kernel.pages == old(kernel.pages) && kernel.Now(pd) == old(kernel.Now(pd))
      ensures r == 0 ==> va == old(va) + [Record(addr, len)]
      ensures r == 0 ==> Grown(addr / 4096, len / 4096, old(kernel.Now(pd)), kernel.Now(pd))
      ensures r == 0 ==> forall v :: Covers(Record(addr, len), v) ==> UserAccess(kernel.pages, pd, v)
      ensures r == 0 ==> Adds(old(Seen()), Seen(), Record(addr, len))
    {
      if addr < 0x1000000 || addr % 4096 != 0 || len < 0 || len % 4096 != 0 || len / 4096 > kernel.frames.free {
        return -1;
      }
      var any := AnyMapped(addr / 4096, len / 4096);
      if any {
        return -1;
      }
      F.ServesExactly(kernel.frames, len / 4096);
      Grant(addr, len);
      r := 0;
    }

    /** The pages mapped and the range recorded. */
    method Grant(addr: nat, len: nat)
      requires Valid() && Aligned(Record(addr, len)) && NoneMapped(kernel.Space(pd), addr / 4096, len / 4096)
      requires F.Ahead(kernel.frames) > len / 4096 && |kernel.supply| >= len / 4096
      modifies this, kernel
      ensures Valid() && va == old(va) + [Record(addr, len)]
      ensures Grown(addr / 4096, len / 4096, old(kernel.Now(pd)), kernel.Now(pd))
      ensures forall v :: Covers(Record(addr, len), v) ==> UserAccess(kernel.pages, pd, v)
      ensures Adds(old(Seen()), Seen(), Record(addr, len))
    {
      var q := Record(addr, len);
      PagesOf(q);
      ghost var was := kernel.Now(pd);
      var done := kernel.AllocatePages(pd, addr, len);
      Recorded(va, q, was, kernel.Now(pd));
      Reached(kernel.pages, pd, q, was.space);
      va := va + [q];
    }

    /** The address is a user page that is mapped, present and writable. */
    method Removable(addr: nat) returns (ok: bool)
      requires kernel.Valid(pd) && addr < 0x1_0000_0000
      ensures ok <==> addr >= 0x1000000 && addr % 4096 == 0 && addr / 4096 in kernel.Space(pd)
                      && UserWritable(kernel.Space(pd)[addr / 4096])
    {
      if addr < 0x1000000 || addr % 4096 != 0 {
        return false;
      }
      var v := addr / 4096;
      var i, j := Hi(v), Lo(v);
      HiLo(v);
      SpaceAt(kernel.pages, pd, i, j);
      var pde := kernel.pages[pd][i];
      if pde.frame == 0 || kernel.pages[pde.frame][j].frame == 0 {
        return false;
      }
      ok := kernel.pages[pde.frame][j].flags % 8 == 7;
    }

    /** The search through the records. */
    method Search(addr: nat) returns (k: nat)
      ensures k == FirstAt(va, addr)
    {
      k := 0;
      while k < |va| && va[k].addr != addr
        invariant 0 <= k <= |va| && forall l :: 0 <= l < k ==> va[l].addr != addr
      {
        k := k + 1;
      }
    }

    method RemoveAt(k: nat)
      requires Valid() && k < |va|
      modifies this, kernel
      ensures Valid() && va == Without(old(va), k)
      ensures Shrunk(First(old(va)[k]), Count(old(va)[k]), old(kernel.Now(pd)), kernel.Now(pd))
    {
      ghost var was := kernel.Now(pd);
      PagesOf(va[k]);
      var done := kernel.FreePages(pd, va[k].addr, va[k].len);
      Erased(va, k, was, kernel.Now(pd));
      va := va[..k] + va[k + 1..];
    }

    /** When remove_pages finds something to remove. */
    ghost predicate Removes(addr: nat)
      requires Directory(kernel.pages, pd)
      reads this, kernel
    {
      && addr >= 0x1000000 && addr % 4096 == 0 && addr / 4096 in kernel.Space(pd)
      && UserWritable(kernel.Space(pd)[addr / 4096]) && FirstAt(va, addr) < |va|
    }

    /** sys_remove_pages: unmaps the range of the first record of that address and forgets it. */
    method RemovePages(addr: nat) returns (r: int)
      requires Valid() && addr < 0x1_0000_0000
      modifies this, kernel
      ensures Valid() && r == if old(Removes(addr)) then 0 else -1
      ensures r == -1 ==> va == old(va) && kernel.pages == old(kernel.pages) && kernel.Now(pd) == old(kernel.Now(pd))
      ensures r == 0 ==> va == Without(old(va), FirstAt(old(va), addr))
      ensures r == 0 ==>
        Shrunk(addr / 4096, Count(old(va)[FirstAt(old(va), addr)]), old(kernel.Now(pd)), kernel.Now(pd))
      ensures r == 0 ==> Takes(old(Seen()), Seen(), FirstAt(old(va), addr))
    {
      var ok := Removable(addr);
      if !ok {
        return -1;
      }
      var k := Search(addr);
      if k == |va| {
        return -1;
      }
      RemoveAt(k);
      r := 0;
    }
  }

  // ----- runs of both calls

  datatype View = View(va: seq<Record>, now: Snapshot)

  ghost predicate Adds(a: View, b: View, q: Record)
  {
    && Aligned(q) && (forall v :: Covers(q, v) ==> v !in a.now.space)
    && b.va == a.va + [q] && Grown(First(q), Count(q), a.now, b.now)
  }

  ghost predicate Takes(a: View, b: View, k: nat)
  {
    k < |a.va| && b.va == Without(a.va, k) && Shrunk(First(a.va[k]), Count(a.va[k]), a.now, b.now)
  }

  /** What NewPages and RemovePages do to the process: map and record, unmap and forget, or nothing. */
  ghost predicate Step(a: View, b: View)
  {
    b == a || (exists q :: Adds(a, b, q)) || (exists k: nat :: Takes(a, b, k))
  }

  /** The step from state `i` to the next. */
  ghost predicate StepAt(vs: seq<View>, i: int)
    requires 0 <= i < |vs| - 1
  {
    Step(vs[i], vs[i + 1])
  }

  ghost predicate Run(vs: seq<View>)
  {
    && |vs| > 0 && vs[0].va == [] && forall n :: 0 <= n < |vs| - 1 ==> StepAt(vs, n)
  }

  lemma StepKeeps(a: View, b: View)
    requires Step(a, b) && RecordsOk(a.va, a.now.space)
    ensures RecordsOk(b.va, b.now.space)
    ensures b.now.frames.free + |b.now.space| == a.now.frames.free + |a.now.space|
  {
    if q :| Adds(a, b, q) {
      Recorded(a.va, q, a.now, b.now);
    } else if k: nat :| Takes(a, b, k) {
      Erased(a.va, k, a.now, b.now);
    }
  }

  /** Over every run records stay disjoint and mapped, and free frames plus mapped pages stay constant. */
  lemma {:induction false} EveryRun(vs: seq<View>, n: nat)
    requires Run(vs) && n < |vs|
    ensures RecordsOk(vs[n].va, vs[n].now.space)
    ensures vs[n].now.frames.free + |vs[n].now.space| == vs[0].now.frames.free + |vs[0].now.space|
  {
    if n > 0 {
      EveryRun(vs, n - 1);
      assert StepAt(vs, n - 1);
      StepKeeps(vs[n - 1], vs[n]);
    }
  }

  /**
   * remove_pages of the address just given to new_pages: it undoes the request, records, address
   * space and number of free frames alike, if and only if the address had no record before.
   */
  lemma RemoveUndoesNew(a: View, b: View, c: View, q: Record)
    requires RecordsOk(a.va, a.now.space) && Adds(a, b, q) && q.len > 0 && Takes(b, c, FirstAt(b.va, q.addr))
    ensures c.va == a.va && c.now.space == a.now.space <==> forall k :: 0 <= k < |a.va| ==> a.va[k].addr != q.addr
    ensures c.now.space == a.now.space ==> c.now.frames.free == a.now.frames.free
  {
    var k := FirstAt(b.va, q.addr);
    assert b.va[|a.va|] == q && k <= |a.va|;
    if k == |a.va| {
      LastRemoved(a, b, c, q);
    } else {
      assert a.va[k] == b.va[k] && Backed(a.va[k], a.now.space);
      assert Covers(q, First(q)) && Count(a.va[k]) == 0;
      assert First(q) in c.now.space;
    }
  }

  lemma LastRemoved(a: View, b: View, c: View, q: Record)
    requires Adds(a, b, q) && Takes(b, c, |a.va|)
    ensures c.va == a.va && c.now.space == a.now.space
  {
    assert b.va[|a.va|] == q;
    assert Without(b.va, |a.va|) == a.va;
    forall v: nat ensures v in c.now.space <==> v in a.now.space {
      assert Covers(q, v) <==> First(q) <= v < First(q) + Count(q);
    }
  }

  // ----- requests of length 0

  /**
   * A request of length 0 is accepted, although the length is meant to be positive. After it, a real
   * request for the same address and a removal of that address, the page is still mapped.
   */
  lemma EmptyRecordHides(a: View, b: View, c: View, d: View, addr: nat)
    requires forall k :: 0 <= k < |a.va| ==> a.va[k].addr != addr
    requires Adds(a, b, Record(addr, 0)) && Adds(b, c, Record(addr, 4096)) && Takes(c, d, FirstAt(c.va, addr))
    ensures d.va == a.va + [Record(addr, 4096)] && d.now.space == c.now.space && addr / 4096 in d.now.space
  {
    FirstHides(a.va, addr);
    EmptyTakes(c, d, |a.va|);
    assert Covers(Record(addr, 4096), addr / 4096);
  }

  lemma FirstHides(va: seq<Record>, addr: nat)
    requires forall k :: 0 <= k < |va| ==> va[k].addr != addr
    ensures var c := va + [Record(addr, 0)] + [Record(addr, 4096)];
      FirstAt(c, addr) == |va| && c[|va|] == Record(addr, 0) && Without(c, |va|) == va + [Record(addr, 4096)]
  {
    var c := va + [Record(addr, 0)] + [Record(addr, 4096)];
    assert c[|va|] == Record(addr, 0);
    assert Without(c, |va|) == va + [Record(addr, 4096)];
  }

  lemma EmptyTakes(c: View, d: View, k: nat)
    requires Takes(c, d, k) && c.va[k].len == 0
    ensures d.now.space == c.now.space
  {
  }

  lemma EmptyThenReal(s: Snapshot, addr: nat)
    requires SnapshotOk(s) && Aligned(Record(addr, 4096)) && addr / 4096 !in s.space
    ensures var e, q := Record(addr, 0), Record(addr, 4096);
      && Adds(View([], s), View([e], s), e) && Adds(View([e], s), View([e, q], Mapped(s, addr / 4096)), q)
  {
    EmptyAdds(s, addr);
    RealAdds(s, addr);
  }

  lemma EmptyAdds(s: Snapshot, addr: nat)
    requires SnapshotOk(s) && Aligned(Record(addr, 4096))
    ensures Adds(View([], s), View([Record(addr, 0)], s), Record(addr, 0))
  {
    GrowStart(addr / 4096, s);
  }

  lemma RealAdds(s: Snapshot, addr: nat)
    requires SnapshotOk(s) && Aligned(Record(addr, 4096)) && addr / 4096 !in s.space
    ensures var e, q := Record(addr, 0), Record(addr, 4096);
      Adds(View([e], s), View([e, q], Mapped(s, addr / 4096)), q)
  {
    GrowStart(addr / 4096, s);
    GrowOne(addr / 4096, 0, s, s);
  }

  lemma EmptyTaken(t: Snapshot, addr: nat)
    ensures var e, q := Record(addr, 0), Record(addr, 4096);
      FirstAt([e, q], addr) == 0 && Takes(View([e, q], t), View([q], t), 0)
  {
    var e, q := Record(addr, 0), Record(addr, 4096);
    SameShrunk(addr / 4096, t);
    assert Without([e, q], 0) == [q];
  }

  /** Such a run exists from every state in which the page is not mapped. */
  lemma EmptyRecordArises(s: Snapshot, addr: nat)
    requires SnapshotOk(s) && Aligned(Record(addr, 4096)) && addr / 4096 !in s.space
    ensures var e, q, t := Record(addr, 0), Record(addr, 4096), Mapped(s, addr / 4096);
      && Run([View([], s), View([e], s), View([e, q], t), View([q], t)]) && addr / 4096 in t.space
      && FirstAt([e, q], addr) == 0
  {
    EmptyThenReal(s, addr);
    EmptyTaken(Mapped(s, addr / 4096), addr);
  }

  lemma SameShrunk(lo: nat, t: Snapshot)
    ensures Shrunk(lo, 0, t, t)
  {
  }

  lemma RemovedIff(va: seq<Record>, k: nat, s: Snapshot, s': Snapshot)
    requires RecordsOk(va, s.space) && k < |va| && First(va[k]) in s.space
    requires Shrunk(First(va[k]), Count(va[k]), s, s')
    ensures First(va[k]) !in s'.space <==> va[k].len > 0
  {
    assert Aligned(va[k]);
    assert va[k].len > 0 <==> Covers(va[k], First(va[k]));
  }
}
