/**
 * Virtual memory: the frame allocator at work, mapping and unmapping pages and ranges of pages.
 * Frames and pages are named by their numbers. A user page (i, j) has number 1024 * i + j, and
 * user pages start at number 4096.
 */
module Vm {
  import opened PageTables
  import F = Frames

  type Page = seq<int>

  function ZeroPage(): Page { seq(4096, i => 0) }

  /** A page of kernel memory that memalign will return, with what happens to be in it. */
  datatype Chunk = Chunk(page: nat, junk: seq<Entry>)

  ghost predicate ChunkOk(pages: Pages, c: Chunk) { c.page != 0 && c.page !in pages && |c.junk| == 1024 }

  ghost predicate SupplyOk(pages: Pages, supply: seq<Chunk>)
  {
    && (forall k :: 0 <= k < |supply| ==> ChunkOk(pages, supply[k]))
    && forall k, l :: 0 <= k < l < |supply| ==> supply[k].page != supply[l].page
  }

  /** Frames below 4096 are the kernel's and stay held. */
  ghost predicate FramesOk(f: F.Frames)
  {
    F.Ok(f) && forall k :: 0 <= k < 4096 ==> f.refs[k] >= 1
  }

  /** Every mapped user page holds a frame above the kernel's, and no two share one. */
  ghost predicate SpaceOk(space: Space, refs: seq<nat>)
  {
    && (forall v :: v in space ==> 4096 <= space[v].frame < |refs| && refs[space[v].frame] >= 1)
    && forall v, w :: v in space && w in space && v != w ==> space[v].frame != space[w].frame
  }

  /** The kernel's four tables map every page to the frame of the same number, so none is empty. */
  ghost predicate Identity(pages: Pages, pd: nat)
    requires Directory(pages, pd)
  {
    forall i, j :: 0 <= i < 4 && 0 <= j < 1024 ==> At(pages, pd, i, j) == Entry(1024 * i + j, 0x103)
  }

  /** The frames, the tables of `pd` and the memory that memalign can return fit together. */
  ghost predicate Sound(pages: Pages, pd: nat, frames: F.Frames, supply: seq<Chunk>, data: seq<Page>)
  {
    && FramesOk(frames) && SupplyOk(pages, supply) && Directory(pages, pd) && Identity(pages, pd)
    && SpaceOk(SpaceOf(pages, pd), frames.refs) && |data| == 65536
  }

  /** Kernel pages are present and name the frame of the same number, and are out of the user's reach. */
  lemma KernelPages(pages: Pages, pd: nat, v: nat)
    requires Directory(pages, pd) && Identity(pages, pd) && v < 4096
    ensures pages[pd][v / 1024].flags % 2 == 1 && AtPage(pages, pd, v).flags % 2 == 1 && AtPage(pages, pd, v).frame == v
    ensures !UserAccess(pages, pd, v)
  {
    HiLo(v);
    assert AtPage(pages, pd, v) == Entry(v, 0x103);
    assert TableOk(pages, pd, pages[pd][Hi(v)], Hi(v) >= 4);
  }

  lemma TakeSpace(space: Space, f: F.Frames, v: nat)
    requires FramesOk(f) && F.Ahead(f) >= 2 && SpaceOk(space, f.refs) && v !in space
    ensures f.cursor >= 4096 && FramesOk(F.Acquired(f))
    ensures SpaceOk(space[v := Entry(f.cursor, 7)], F.Acquired(f).refs)
  {
    F.AcquireKeeps(f);
    assert f.cursor >= 4096;
  }

  lemma GiveSpace(space: Space, f: F.Frames, v: nat)
    requires FramesOk(f) && SpaceOk(space, f.refs) && v in space
    ensures FramesOk(F.Released(f, space[v].frame)) && SpaceOk(space - {v}, F.Released(f, space[v].frame).refs)
  {
    assert forall w :: w in space && w != v ==> space[w].frame != space[v].frame;
  }

  /** A cleared table with one entry set. */
  function OneEntry(j: nat, e: Entry): (t: seq<Entry>)
    requires j < 1024
    ensures |t| == 1024
  {
    seq(1024, k => Empty())[j := e]
  }

  lemma OneEntryIs(j: nat, e: Entry)
    requires j < 1024
    ensures OneEntry(j, e)[j] == e && forall k :: 0 <= k < 1024 && k != j ==> OneEntry(j, e)[k] == Entry(0, 0)
  {
  }

  lemma NewTable(pages: Pages, pd: nat, i: nat, j: nat, t: nat, f: nat)
    requires Directory(pages, pd) && 4 <= i < 1024 && j < 1024 && pages[pd][i].frame == 0
    requires t != 0 && t !in pages && f != 0
    ensures var pages' := WithTable(pages, pd, i, t, OneEntry(j, Entry(f, 7)), 7);
      && Directory(pages', pd) && SpaceOf(pages', pd) == SpaceOf(pages, pd)[1024 * i + j := Entry(f, 7)]
      && forall k, l :: 0 <= k < 4 && 0 <= l < 1024 ==> At(pages', pd, k, l) == At(pages, pd, k, l)
  {
    var pages' := WithTable(pages, pd, i, t, OneEntry(j, Entry(f, 7)), 7);
    OneEntryIs(j, Entry(f, 7));
    AddTable(pages, pd, i, t, OneEntry(j, Entry(f, 7)), 7);
    forall k, l | 0 <= k < 1024 && 0 <= l < 1024 && (k != i || l != j) ensures At(pages', pd, k, l) == At(pages, pd, k, l) {
      assert k == i ==> At(pages', pd, k, l) == Empty() && At(pages, pd, k, l) == Empty();
    }
    SpaceChange(pages, pages', pd, i, j);
  }

  /** What setting an entry in an existing table does to the tables as a whole. */
  lemma EntryMapped(pages: Pages, pd: nat, i: nat, j: nat, f: nat, supply: seq<Chunk>)
    requires Directory(pages, pd) && Identity(pages, pd) && SupplyOk(pages, supply) && 4 <= i < 1024 && j < 1024
    requires pages[pd][i].frame != 0 && f != 0
    ensures var t := pages[pd][i].frame;
      && t in pages && |pages[t]| == 1024
      && var pages' := WithEntry(pages, t, j, Entry(f, 7));
         Directory(pages', pd) && Identity(pages', pd) && SupplyOk(pages', supply)
         && SpaceOf(pages', pd) == SpaceOf(pages, pd)[1024 * i + j := Entry(f, 7)]
  {
    SetEntry(pages, pd, i, j, Entry(f, 7));
    SpaceChange(pages, WithEntry(pages, pages[pd][i].frame, j, Entry(f, 7)), pd, i, j);
    SupplySame(pages, WithEntry(pages, pages[pd][i].frame, j, Entry(f, 7)), supply);
  }

  lemma SupplySame(pages: Pages, pages': Pages, supply: seq<Chunk>)
    requires SupplyOk(pages, supply) && pages'.Keys == pages.Keys
    ensures SupplyOk(pages', supply)
  {
    forall k | 0 <= k < |supply| ensures ChunkOk(pages', supply[k]) { assert ChunkOk(pages, supply[k]); }
  }

  /** The same for a new table from the supply. */
  lemma TableMapped(pages: Pages, pd: nat, i: nat, j: nat, f: nat, supply: seq<Chunk>)
    requires Directory(pages, pd) && Identity(pages, pd) && SupplyOk(pages, supply) && 4 <= i < 1024 && j < 1024
    requires pages[pd][i].frame == 0 && f != 0 && |supply| > 0
    ensures var pages' := WithTable(pages, pd, i, supply[0].page, OneEntry(j, Entry(f, 7)), 7);
      && Directory(pages', pd) && Identity(pages', pd) && SupplyOk(pages', supply[1..])
      && SpaceOf(pages', pd) == SpaceOf(pages, pd)[1024 * i + j := Entry(f, 7)]
  {
    assert ChunkOk(pages, supply[0]);
    NewTable(pages, pd, i, j, supply[0].page, f);
    SupplyLess(pages, WithTable(pages, pd, i, supply[0].page, OneEntry(j, Entry(f, 7)), 7), supply);
  }

  lemma SupplyLess(pages: Pages, pages': Pages, supply: seq<Chunk>)
    requires |supply| > 0 && SupplyOk(pages, supply) && pages'.Keys == pages.Keys + {supply[0].page}
    ensures SupplyOk(pages', supply[1..])
  {
    forall k | 0 <= k < |supply| - 1 ensures ChunkOk(pages', supply[1..][k]) {
      assert ChunkOk(pages, supply[k + 1]) && supply[0].page != supply[k + 1].page;
    }
  }

  lemma SoundEntry(pages: Pages, pd: nat, i: nat, j: nat, f: F.Frames, supply: seq<Chunk>, data: seq<Page>)
    requires Sound(pages, pd, f, supply, data) && 4 <= i < 1024 && j < 1024
    requires pages[pd][i].frame != 0 && At(pages, pd, i, j) == Empty() && F.Ahead(f) >= 2
    ensures var t := pages[pd][i].frame;
      && f.cursor < 65536 && t in pages && |pages[t]| == 1024
      && var pages' := WithEntry(pages, t, j, Entry(f.cursor, 7));
         Sound(pages', pd, F.Acquired(f), supply, data[f.cursor := ZeroPage()])
         && SpaceOf(pages', pd) == SpaceOf(pages, pd)[1024 * i + j := Entry(f.cursor, 7)]
  {
    SpaceAt(pages, pd, i, j);
    TakeSpace(SpaceOf(pages, pd), f, 1024 * i + j);
    EntryMapped(pages, pd, i, j, f.cursor, supply);
  }

  lemma SoundTable(pages: Pages, pd: nat, i: nat, j: nat, f: F.Frames, supply: seq<Chunk>, data: seq<Page>)
    requires Sound(pages, pd, f, supply, data) && 4 <= i < 1024 && j < 1024
    requires pages[pd][i].frame == 0 && F.Ahead(f) >= 2 && |supply| > 0
    ensures f.cursor < 65536
    ensures var pages' := WithTable(pages, pd, i, supply[0].page, OneEntry(j, Entry(f.cursor, 7)), 7);
      && Sound(pages', pd, F.Acquired(f), supply[1..], data[f.cursor := ZeroPage()])
      && SpaceOf(pages', pd) == SpaceOf(pages, pd)[1024 * i + j := Entry(f.cursor, 7)]
  {
    SpaceAt(pages, pd, i, j);
    TakeSpace(SpaceOf(pages, pd), f, 1024 * i + j);
    TableMapped(pages, pd, i, j, f.cursor, supply);
  }

  // ----- ranges of pages

  /** What a caller can see of the memory: its mappings, the frames and what is in them. */
  datatype Snapshot = Snapshot(space: Space, frames: F.Frames, data: seq<Page>)

  ghost predicate SnapshotOk(s: Snapshot) { FramesOk(s.frames) && SpaceOk(s.space, s.frames.refs) && |s.data| == 65536 }

  /** Entry `e` names a zeroed frame that nobody held in `s`. */
  ghost predicate Fresh(e: Entry, s: Snapshot, s': Snapshot)
  {
    && e.flags == 7 && e.frame < |s.frames.refs| && s.frames.refs[e.frame] == 0
    && e.frame < |s'.data| && s'.data[e.frame] == ZeroPage()
  }

  /** Frames in use keep their references and their contents. */
  ghost predicate Kept(s: Snapshot, s': Snapshot)
  {
    && |s'.frames.refs| == |s.frames.refs| == |s.data| == |s'.data|
    && forall k :: 0 <= k < |s.frames.refs| && s.frames.refs[k] >= 1 ==>
         s'.frames.refs[k] == s.frames.refs[k] && s'.data[k] == s.data[k]
  }

  /** The mappings of `a` and exactly the pages [lo, lo + n). */
  ghost predicate Extends(lo: nat, n: nat, a: Space, b: Space)
  {
    && (forall v :: v in a ==> v in b && b[v] == a[v])
    && (forall v :: v in b ==> v in a || lo <= v < lo + n)
    && (forall v :: lo <= v < lo + n ==> v in b)
  }

  ghost predicate AllFresh(s: Snapshot, s': Snapshot)
  {
    forall v :: v in s'.space && v !in s.space ==> Fresh(s'.space[v], s, s')
  }

  /** Pages [lo, lo + n) are mapped: those that were keep their entry, the others have fresh frames. */
  ghost predicate Grown(lo: nat, n: nat, s: Snapshot, s': Snapshot)
  {
    && Extends(lo, n, s.space, s'.space) && AllFresh(s, s') && Kept(s, s')
    && s'.frames.free + |s'.space| == s.frames.free + |s.space|
  }

  /** The snapshot after page `v` gets the frame under the cursor. */
  ghost function Mapped(t: Snapshot, v: nat): Snapshot
    requires F.Ok(t.frames) && |t.data| == 65536
  {
    Snapshot(t.space[v := Entry(t.frames.cursor, 7)], F.Acquired(t.frames), t.data[t.frames.cursor := ZeroPage()])
  }

  lemma KeptOne(s: Snapshot, t: Snapshot, v: nat)
    requires SnapshotOk(t) && Kept(s, t)
    ensures Kept(s, Mapped(t, v)) && s.frames.refs[t.frames.cursor] == 0
  {
  }

  /** What growing gives a page that was not mapped: a zeroed frame that nobody held, for the user. */
  lemma GrownMeans(lo: nat, n: nat, s: Snapshot, s': Snapshot, v: nat)
    requires Grown(lo, n, s, s') && lo <= v < lo + n
    ensures v in s'.space && (v in s.space ==> s'.space[v] == s.space[v])
    ensures v !in s.space ==>
      var f := s'.space[v].frame;
      && s'.space[v].flags == 7 && f < |s.frames.refs| && s.frames.refs[f] == 0 && f < |s'.data|
      && |s'.data[f]| == 4096 && forall b :: 0 <= b < 4096 ==> s'.data[f][b] == 0
  {
  }

  lemma CountOne(space: Space, v: nat, e: Entry)
    requires v !in space
    ensures |space[v := e]| == |space| + 1
  {
    assert space[v := e].Keys == space.Keys + {v};
    assert |space| == |space.Keys| && |space[v := e]| == |space[v := e].Keys|;
  }

  /** What was fresh stays so: its frame is held, so it is not the one under the cursor. */
  lemma StillFresh(s: Snapshot, t: Snapshot, v: nat, w: nat)
    requires SnapshotOk(t) && w in t.space && Fresh(t.space[w], s, t)
    ensures Fresh(t.space[w], s, Mapped(t, v))
  {
    assert t.frames.refs[t.space[w].frame] >= 1;
  }

  lemma FreshOne(s: Snapshot, t: Snapshot, v: nat)
    requires SnapshotOk(t) && Kept(s, t) && AllFresh(s, t)
    ensures AllFresh(s, Mapped(t, v))
  {
    var u := Mapped(t, v);
    forall w | w in u.space && w !in s.space ensures Fresh(u.space[w], s, u) {
      if w == v { KeptOne(s, t, v); } else { StillFresh(s, t, v, w); }
    }
  }

  lemma ExtendOne(lo: nat, n: nat, a: Space, b: Space, e: Entry)
    requires Extends(lo, n, a, b) && lo + n !in b
    ensures Extends(lo, n + 1, a, b[lo + n := e])
  {
  }

  lemma GrowOne(lo: nat, n: nat, s: Snapshot, t: Snapshot)
    requires SnapshotOk(t) && Grown(lo, n, s, t) && lo + n !in t.space
    ensures Grown(lo, n + 1, s, Mapped(t, lo + n))
  {
    FreshOne(s, t, lo + n);
    ExtendOne(lo, n, s.space, t.space, Entry(t.frames.cursor, 7));
    KeptOne(s, t, lo + n);
    CountOne(t.space, lo + n, Entry(t.frames.cursor, 7));
  }

  lemma GrowNone(lo: nat, n: nat, s: Snapshot, t: Snapshot)
    requires Grown(lo, n, s, t) && lo + n in t.space
    ensures Grown(lo, n + 1, s, t)
  {
  }

  lemma GrowNext(lo: nat, n: nat, s: Snapshot, t: Snapshot, u: Snapshot)
    requires SnapshotOk(t) && Grown(lo, n, s, t) && u == if lo + n in t.space then t else Mapped(t, lo + n)
    ensures Grown(lo, n + 1, s, u)
  {
    if lo + n in t.space { GrowNone(lo, n, s, t); } else { GrowOne(lo, n, s, t); }
  }

  /** Some page of [lo, lo + n) has frame `k`. */
  ghost predicate Names(space: Space, lo: nat, n: nat, k: nat)
  {
    exists v :: lo <= v < lo + n && v in space && space[v].frame == k
  }

  ghost predicate Restricted(lo: nat, n: nat, a: Space, b: Space)
  {
    && (forall v :: v in b ==> v in a && b[v] == a[v] && !(lo <= v < lo + n))
    && forall v :: v in a && !(lo <= v < lo + n) ==> v in b
  }

  /** Exactly the frames of pages [lo, lo + n) lose a reference. */
  ghost predicate Dropped(lo: nat, n: nat, s: Snapshot, s': Snapshot)
  {
    && |s'.frames.refs| == |s.frames.refs|
    && forall k :: 0 <= k < |s.frames.refs| ==>
         s'.frames.refs[k] + (if Names(s.space, lo, n, k) then 1 else 0) == s.frames.refs[k]
  }

  /** Pages [lo, lo + n) are unmapped and give up their frames; nothing else changes. */
  ghost predicate Shrunk(lo: nat, n: nat, s: Snapshot, s': Snapshot)
  {
    && Restricted(lo, n, s.space, s'.space) && Dropped(lo, n, s, s') && s'.data == s.data
    && s'.frames.free + |s'.space| == s.frames.free + |s.space|
  }

  ghost function Unmapped(t: Snapshot, v: nat): Snapshot
    requires SnapshotOk(t) && v in t.space
  {
    Snapshot(t.space - {v}, F.Released(t.frames, t.space[v].frame), t.data)
  }

  lemma UncountOne(space: Space, v: nat)
    requires v in space
    ensures |space - {v}| == |space| - 1
  {
    assert (space - {v}).Keys == space.Keys - {v};
    assert |space| == |space.Keys| && |space - {v}| == |(space - {v}).Keys|;
  }

  lemma NamesMore(space: Space, lo: nat, n: nat, k: nat)
    ensures Names(space, lo, n + 1, k) <==> Names(space, lo, n, k) || (lo + n in space && space[lo + n].frame == k)
  {
    if Names(space, lo, n, k) {
      var v: nat :| lo <= v < lo + n && v in space && space[v].frame == k;
      assert lo <= v < lo + (n + 1);
    }
  }

  lemma DropOne(lo: nat, n: nat, s: Snapshot, t: Snapshot)
    requires SnapshotOk(s) && SnapshotOk(t) && Dropped(lo, n, s, t)
    requires lo + n in s.space && lo + n in t.space && t.space[lo + n] == s.space[lo + n]
    ensures Dropped(lo, n + 1, s, Unmapped(t, lo + n))
  {
    var c := s.space[lo + n].frame;
    assert !Names(s.space, lo, n, c);
    forall k | 0 <= k < |s.frames.refs|
      ensures Unmapped(t, lo + n).frames.refs[k] + (if Names(s.space, lo, n + 1, k) then 1 else 0) == s.frames.refs[k] {
      NamesMore(s.space, lo, n, k);
    }
  }

  lemma RestrictOne(lo: nat, n: nat, a: Space, b: Space)
    requires Restricted(lo, n, a, b)
    ensures Restricted(lo, n + 1, a, b - {lo + n})
  {
  }

  lemma ShrinkOne(lo: nat, n: nat, s: Snapshot, t: Snapshot, u: Snapshot)
    requires Shrunk(lo, n, s, t) && lo + n in t.space && u.space == t.space - {lo + n} && u.data == t.data
    requires u.frames.free == t.frames.free + 1 && Dropped(lo, n + 1, s, u)
    ensures Shrunk(lo, n + 1, s, u)
  {
    RestrictOne(lo, n, s.space, t.space);
    UncountOne(t.space, lo + n);
  }

  lemma ShrinkNext(lo: nat, n: nat, s: Snapshot, t: Snapshot, u: Snapshot)
    requires SnapshotOk(t) && u == if lo + n in t.space then Unmapped(t, lo + n) else t
    requires SnapshotOk(s) && Shrunk(lo, n, s, t)
    ensures Shrunk(lo, n + 1, s, u)
  {
    if lo + n in t.space {
      DropOne(lo, n, s, t);
      ShrinkOne(lo, n, s, t, u);
    } else {
      ShrinkNone(lo, n, s, t);
    }
  }

  lemma ShrinkNone(lo: nat, n: nat, s: Snapshot, t: Snapshot)
    requires Shrunk(lo, n, s, t) && lo + n !in t.space
    ensures Shrunk(lo, n + 1, s, t)
  {
    forall k | 0 <= k < |s.frames.refs| ensures Names(s.space, lo, n + 1, k) <==> Names(s.space, lo, n, k) {
      NamesMore(s.space, lo, n, k);
    }
  }

  lemma GrowStart(lo: nat, s: Snapshot)
    requires SnapshotOk(s)
    ensures Grown(lo, 0, s, s) && Shrunk(lo, 0, s, s)
  {
  }

  // ----- addresses

  /** The number of pages that `size` bytes from `addr` on touch. */
  function PagesIn(addr: nat, size: nat): nat
  {
    var total := addr % 4096 + size;
    if total % 4096 == 0 then total / 4096 else total / 4096 + 1
  }

  lemma PagesFit(addr: nat, size: nat)
    requires 0x1000000 <= addr && addr + size <= 0x1_0000_0000
    ensures 4096 <= addr / 4096 && addr / 4096 + PagesIn(addr, size) <= 1048576
  {
  }

  /** Those are the pages that have a byte in common with [addr, addr + size), or with `addr` if that is empty. */
  lemma PagesTouched(addr: nat, size: nat, v: nat)
    ensures addr / 4096 <= v < addr / 4096 + PagesIn(addr, size) <==> 4096 * v < addr + size && addr < 4096 * v + 4096
  {
  }

  /** The directory and table indices of the k-th page, carried across table boundaries. */
  method SlotOf(addr: nat, size: nat, k: nat) returns (i: nat, j: nat)
    requires 0x1000000 <= addr && addr + size <= 0x1_0000_0000 && k < PagesIn(addr, size)
    ensures 4 <= i < 1024 && j < 1024 && addr / 4096 + k == 1024 * i + j
  {
    PagesFit(addr, size);
    var pdIndex, ptIndex := addr / 0x400000, addr / 4096 % 1024;
    assert addr / 4096 == 1024 * pdIndex + ptIndex;
    i, j := pdIndex + (ptIndex + k) / 1024, (ptIndex + k) % 1024;
  }

  /** Every page touched is mapped, and those that were not before are the user's to read and write. */
  ghost predicate AllReached(pages: Pages, pd: nat, before: Space, addr: nat, size: nat)
    requires Directory(pages, pd)
  {
    forall v: nat :: 4096 * v < addr + size && addr < 4096 * v + 4096 ==>
      v in SpaceOf(pages, pd) && (v !in before ==> UserAccess(pages, pd, v))
  }

  lemma GrownReached(pages: Pages, pd: nat, s: Snapshot, s': Snapshot, addr: nat, size: nat)
    requires Directory(pages, pd) && s'.space == SpaceOf(pages, pd) && Grown(addr / 4096, PagesIn(addr, size), s, s')
    ensures AllReached(pages, pd, s.space, addr, size)
  {
    forall v: nat | 4096 * v < addr + size && addr < 4096 * v + 4096
      ensures v in SpaceOf(pages, pd) && (v !in s.space ==> UserAccess(pages, pd, v))
    {
      PagesTouched(addr, size, v);
      PageReached(pages, pd, s, s', addr / 4096, PagesIn(addr, size), v);
    }
  }

  lemma PageReached(pages: Pages, pd: nat, s: Snapshot, s': Snapshot, lo: nat, n: nat, v: nat)
    requires Directory(pages, pd) && s'.space == SpaceOf(pages, pd) && Grown(lo, n, s, s') && lo <= v < lo + n
    ensures v in SpaceOf(pages, pd) && (v !in s.space ==> UserAccess(pages, pd, v))
  {
    if v !in s.space {
      NewFlags(lo, n, s, s', v);
      SevenReaches(pages, pd, v);
    }
  }

  lemma NewFlags(lo: nat, n: nat, s: Snapshot, s': Snapshot, v: nat)
    requires Grown(lo, n, s, s') && lo <= v < lo + n && v !in s.space
    ensures v in s'.space && s'.space[v].flags == 7
  {
  }

  lemma SevenReaches(pages: Pages, pd: nat, v: nat)
    requires Directory(pages, pd) && v in SpaceOf(pages, pd) && SpaceOf(pages, pd)[v].flags == 7
    ensures UserAccess(pages, pd, v)
  {
    UserReaches(pages, pd, v);
  }

  // ----- start-up

  /** The i-th table of the identity mapping. */
  ghost predicate IdentityTable(table: seq<Entry>, i: nat)
  {
    |table| == 1024 && forall j :: 0 <= j < 1024 ==> table[j] == Entry(1024 * i + j, 0x103)
  }

  ghost predicate KernelTable(pages: Pages, kd: nat, i: nat)
    requires kd in pages && i < |pages[kd]|
  {
    var e := pages[kd][i];
    e.flags == 0x107 && e.frame != 0 && e.frame != kd && e.frame in pages && IdentityTable(pages[e.frame], i)
  }

  /** The first `n` entries of the kernel's directory name different tables of the identity mapping. */
  ghost predicate KernelTables(pages: Pages, kd: nat, n: nat)
  {
    && kd in pages && |pages[kd]| == 1024 && n <= 4 && 0 !in pages
    && (forall i :: 0 <= i < n ==> KernelTable(pages, kd, i))
    && forall i, k :: 0 <= i < k < n ==> pages[kd][i].frame != pages[kd][k].frame
  }

  lemma AddKernelTable(was: Pages, pages: Pages, kd: nat, i: nat, t: nat)
    requires KernelTables(was, kd, i) && i < 4 && t !in was && t != 0
    requires t in pages && pages == was[t := pages[t]] && IdentityTable(pages[t], i)
    ensures |pages[kd]| == 1024 && KernelTables(pages[kd := pages[kd][i := Entry(t, 0x107)]], kd, i + 1)
    ensures kd in pages && pages[kd := pages[kd][i := Entry(t, 0x107)]].Keys == pages.Keys
  {
    var pages' := pages[kd := pages[kd][i := Entry(t, 0x107)]];
    forall k | 0 <= k < i + 1 ensures KernelTable(pages', kd, k) && (k < i ==> pages'[kd][k].frame != t) {
      if k < i { assert KernelTable(was, kd, k); }
    }
  }

  lemma ProcessDirectory(was: Pages, pages: Pages, kd: nat, pd: nat)
    requires KernelTables(was, kd, 4) && pd !in was && pd != 0 && pd in pages && pages == was[pd := pages[pd]]
    requires |pages[pd]| == 1024 && forall k :: 4 <= k < 1024 ==> pages[pd][k] == Empty()
    requires forall k :: 0 <= k < 4 ==> pages[pd][k] == Entry(was[kd][k].frame, 0x107)
    ensures Directory(pages, pd) && Identity(pages, pd) && SpaceOf(pages, pd) == map[]
  {
    forall k | 0 <= k < 1024 ensures TableOk(pages, pd, pages[pd][k], k >= 4) {
      if k < 4 { assert KernelTable(was, kd, k); }
    }
    ProcessIdentity(was, pages, kd, pd);
    forall v: nat | 4096 <= v < 1048576 ensures AtPage(pages, pd, v) == Empty() {
      HiLo(v);
    }
  }

  lemma ProcessIdentity(was: Pages, pages: Pages, kd: nat, pd: nat)
    requires KernelTables(was, kd, 4) && pd !in was && pd in pages && pages == was[pd := pages[pd]] && Directory(pages, pd)
    requires forall k :: 0 <= k < 4 ==> pages[pd][k] == Entry(was[kd][k].frame, 0x107)
    ensures Identity(pages, pd)
  {
    forall i, j | 0 <= i < 4 && 0 <= j < 1024 ensures At(pages, pd, i, j) == Entry(1024 * i + j, 0x103) {
      assert KernelTable(was, kd, i);
    }
  }

  class Kernel {
    var frames: F.Frames
    var pages: Pages
    var supply: seq<Chunk>
    var data: seq<Page>

    ghost predicate Valid(pd: nat)
      reads this
    {
      Sound(pages, pd, frames, supply, data)
    }

    ghost function Space(pd: nat): Space
      requires Directory(pages, pd)
      reads this
    {
      SpaceOf(pages, pd)
    }

    /** acquire_free_frame: the frame under the cursor, which then moves up to the next free one. */
    method AcquireFrame() returns (f: nat)
      requires F.Ok(frames) && F.Ahead(frames) >= 2
      modifies this`frames
      ensures f == old(frames.cursor) && frames == F.Acquired(old(frames))
    {
      F.AcquireKeeps(frames);
      f := frames.cursor;
      var refs := frames.refs[f := frames.refs[f] + 1];
      var k := f;
      while refs[k] != 0
        invariant f <= k < |refs| && F.NextZero(refs, k) == F.NextZero(refs, f)
        decreases |refs| - k
      {
        k := k + 1;
      }
      frames := F.Frames(refs, k, frames.free - 1);
    }

    /** release_free_frame. */
    method ReleaseFrame(k: nat)
      requires F.Ok(frames) && k < |frames.refs| && frames.refs[k] >= 1
      modifies this`frames
      ensures frames == F.Released(old(frames), k)
    {
      var refs := frames.refs[k := frames.refs[k] - 1];
      frames := F.Frames(refs, if refs[k] == 0 then k else frames.cursor, frames.free + 1);
    }

    method Memalign() returns (c: Chunk)
      requires |supply| > 0
      modifies this`supply
      ensures c == old(supply[0]) && supply == old(supply[1..])
    {
      c, supply := supply[0], supply[1..];
    }

    /** The page's table is there: its entry gets a fresh, zeroed frame. */
    method MapInTable(pd: nat, i: nat, j: nat, t: nat)
      requires Valid(pd) && 4 <= i < 1024 && j < 1024
      requires t == pages[pd][i].frame && t != 0 && At(pages, pd, i, j) == Empty() && F.Ahead(frames) >= 2
      modifies this`frames, this`pages, this`data
      ensures Valid(pd) && frames == F.Acquired(old(frames)) && data == old(data)[old(frames.cursor) := ZeroPage()]
      ensures t in old(pages) && |old(pages)[t]| == 1024
      ensures pages == WithEntry(old(pages), t, j, Entry(old(frames.cursor), 7))
      ensures Space(pd) == old(Space(pd))[1024 * i + j := Entry(old(frames.cursor), 7)]
    {
      SoundEntry(pages, pd, i, j, frames, supply, data);
      var f := AcquireFrame();
      pages := WithEntry(pages, t, j, Entry(f, 7));
      data := data[f := ZeroPage()];
    }

    /** No table yet: a new, cleared one is put in the directory with the page's entry in it. */
    method MapNewTable(pd: nat, i: nat, j: nat)
      requires Valid(pd) && 4 <= i < 1024 && j < 1024
      requires pages[pd][i].frame == 0 && F.Ahead(frames) >= 2 && |supply| > 0
      modifies this
      ensures Valid(pd) && frames == F.Acquired(old(frames)) && data == old(data)[old(frames.cursor) := ZeroPage()]
      ensures supply == old(supply[1..]) && pages[pd][i] == Entry(old(supply[0].page), 7)
      ensures Space(pd) == old(Space(pd))[1024 * i + j := Entry(old(frames.cursor), 7)]
    {
      SoundTable(pages, pd, i, j, frames, supply, data);
      var f := AcquireFrame();
      var c := Memalign();
      pages := WithTable(pages, pd, i, c.page, OneEntry(j, Entry(f, 7)), 7);
      data := data[f := ZeroPage()];
    }

    /** virtual_map_physical. */
    method VirtualMap(pd: nat, i: nat, j: nat) returns (r: int)
      requires Valid(pd) && i < 1024 && j < 1024
      requires At(pages, pd, i, j) == Empty() ==> F.Ahead(frames) >= 2 && (pages[pd][i].frame == 0 ==> |supply| > 0)
      modifies this
      ensures Valid(pd) && r == if old(At(pages, pd, i, j)) == Empty() then 0 else -1
      ensures r == 0 ==> i >= 4 && frames == F.Acquired(old(frames)) && data == old(data)[old(frames.cursor) := ZeroPage()]
      ensures r == 0 ==> Space(pd) == old(Space(pd))[1024 * i + j := Entry(old(frames.cursor), 7)]
      ensures r == 0 ==> UserAccess(pages, pd, 1024 * i + j)
      ensures r == 0 && old(pages[pd][i].frame) == 0 ==> pages[pd][i] == Entry(old(supply[0].page), 7)
      ensures r == -1 ==> frames == old(frames) && data == old(data) && pages == old(pages) && supply == old(supply)
      ensures |supply| >= |old(supply)| - 1
      ensures old(pages[pd][i].frame) != 0 && r == 0 ==>
        && old(pages[pd][i].frame in pages && |pages[pages[pd][i].frame]| == 1024) && supply == old(supply)
        && pages == WithEntry(old(pages), old(pages[pd][i].frame), j, Entry(old(frames.cursor), 7))
    {
      assert i < 4 ==> At(pages, pd, i, j) == Entry(1024 * i + j, 0x103);
      if pages[pd][i] != Empty() {
        if pages[pages[pd][i].frame][j] == Empty() {
          MapInTable(pd, i, j, pages[pd][i].frame);
        } else {
          return -1;
        }
      } else {
        MapNewTable(pd, i, j);
      }
      UserReaches(pages, pd, 1024 * i + j);
      r := 0;
    }

    /** virtual_unmap_physical, for user pages. */
    method VirtualUnmap(pd: nat, i: nat, j: nat) returns (r: int)
      requires Valid(pd) && 4 <= i < 1024 && j < 1024
      modifies this`frames, this`pages
      ensures Valid(pd) && r == if 1024 * i + j in old(Space(pd)) then 0 else -1
      ensures r == 0 ==> Space(pd) == old(Space(pd)) - {1024 * i + j} && At(pages, pd, i, j) == Entry(0, 0)
      ensures r == 0 ==> frames == F.Released(old(frames), old(Space(pd))[1024 * i + j].frame)
      ensures r == -1 ==> frames == old(frames) && pages == old(pages)
    {
      SpaceAt(pages, pd, i, j);
      var pde := pages[pd][i];
      if pde == Empty() {
        return -1;
      }
      assert TableOk(pages, pd, pde, i >= 4);
      var pte := pages[pde.frame][j];
      if pte == Empty() {
        return -1;
      }
      GiveSpace(Space(pd), frames, 1024 * i + j);
      ReleaseFrame(pte.frame);
      SetEntry(pages, pd, i, j, Empty());
      pages := WithEntry(pages, pde.frame, j, Empty());
      SpaceChange(old(pages), pages, pd, i, j);
      r := 0;
    }

    /** Maps page number `v` unless it is mapped already. */
    method MapPage(pd: nat, i: nat, j: nat)
      requires Valid(pd) && 4 <= i < 1024 && j < 1024 && F.Ahead(frames) >= 2 && |supply| > 0
      modifies this
      ensures Valid(pd) && F.Ahead(frames) >= old(F.Ahead(frames)) - 1 && |supply| >= |old(supply)| - 1
      ensures SnapshotOk(old(Now(pd)))
      ensures var v := 1024 * i + j; Now(pd) == if v in old(Space(pd)) then old(Now(pd)) else Mapped(old(Now(pd)), v)
    {
      SpaceAt(pages, pd, i, j);
      F.AcquireKeeps(frames);
      var r := VirtualMap(pd, i, j);
    }

    /** One round of allocate_pages; the result of the mapping is ignored. */
    method MapNext(pd: nat, i: nat, j: nat, ghost first: nat, ghost k: nat, ghost was: Snapshot)
      requires Valid(pd) && 4 <= i < 1024 && j < 1024 && first + k == 1024 * i + j && F.Ahead(frames) >= 2 && |supply| > 0
      requires Grown(first, k, was, Now(pd))
      modifies this
      ensures Valid(pd) && Grown(first, k + 1, was, Now(pd))
      ensures F.Ahead(frames) >= old(F.Ahead(frames)) - 1 && |supply| >= |old(supply)| - 1
    {
      ghost var before := Now(pd);
      MapPage(pd, i, j);
      GrowNext(first, k, was, before, Now(pd));
    }

    ghost function Now(pd: nat): Snapshot
      requires Directory(pages, pd)
      reads this
    {
      Snapshot(Space(pd), frames, data)
    }

    /** allocate_pages: maps every page that the bytes [addr, addr + size) touch; always returns 0. */
    method AllocatePages(pd: nat, addr: nat, size: nat) returns (r: int)
      requires Valid(pd) && 0x1000000 <= addr && addr + size <= 0x1_0000_0000
      requires F.Ahead(frames) > PagesIn(addr, size) && |supply| >= PagesIn(addr, size)
      modifies this
      ensures r == 0 && Valid(pd) && Grown(addr / 4096, PagesIn(addr, size), old(Now(pd)), Now(pd))
      ensures AllReached(pages, pd, old(Space(pd)), addr, size)
    {
      var times := PagesIn(addr, size);
      ghost var first := addr / 4096;
      ghost var was := Now(pd);
      GrowStart(first, was);
      var k := 0;
      while k < times
        invariant 0 <= k <= times && Valid(pd) && Grown(first, k, was, Now(pd))
        invariant F.Ahead(frames) > times - k && |supply| >= times - k
      {
        var i, j := SlotOf(addr, size, k);
        MapNext(pd, i, j, first, k, was);
        k := k + 1;
      }
      GrownReached(pages, pd, was, Now(pd), addr, size);
      r := 0;
    }

    /** One round of free_pages; the result of the unmapping is ignored. */
    method UnmapNext(pd: nat, i: nat, j: nat, ghost first: nat, ghost k: nat, ghost was: Snapshot)
      requires Valid(pd) && 4 <= i < 1024 && j < 1024 && first + k == 1024 * i + j
      requires SnapshotOk(was) && Shrunk(first, k, was, Now(pd))
      modifies this`frames, this`pages
      ensures Valid(pd) && Shrunk(first, k + 1, was, Now(pd))
    {
      ghost var before := Now(pd);
      UnmapPage(pd, i, j);
      ShrinkNext(first, k, was, before, Now(pd));
    }

    /** Unmaps page number `v` if it is mapped. */
    method UnmapPage(pd: nat, i: nat, j: nat)
      requires Valid(pd) && 4 <= i < 1024 && j < 1024
      modifies this`frames, this`pages
      ensures Valid(pd)
      ensures SnapshotOk(old(Now(pd)))
      ensures var v := 1024 * i + j; Now(pd) == if v in old(Space(pd)) then Unmapped(old(Now(pd)), v) else old(Now(pd))
    {
      var r := VirtualUnmap(pd, i, j);
    }

    /** free_pages: unmaps every page that the bytes [addr, addr + size) touch; always returns 0. */
    method FreePages(pd: nat, addr: nat, size: nat) returns (r: int)
      requires Valid(pd) && 0x1000000 <= addr && addr + size <= 0x1_0000_0000
      modifies this`frames, this`pages
      ensures r == 0 && Valid(pd) && Shrunk(addr / 4096, PagesIn(addr, size), old(Now(pd)), Now(pd))
    {
      var times := PagesIn(addr, size);
      ghost var first := addr / 4096;
      ghost var was := Now(pd);
      GrowStart(first, was);
      var k := 0;
      while k < times
        invariant 0 <= k <= times && Valid(pd) && Shrunk(first, k, was, Now(pd))
      {
        var i, j := SlotOf(addr, size, k);
        UnmapNext(pd, i, j, first, k, was);
        k := k + 1;
      }
      r := 0;
    }

    // ----- start-up

    /** init_free_frame. */
    method InitFreeFrame(total: int)
      modifies this`frames
      ensures F.Filled(frames, 0, total)
    {
      frames := F.Frames(seq(65536, k => 0), 0, total);
    }

    /** One kernel table, its entries the next 1024 frames in order. */
    method FillTable(i: nat, ghost total: int) returns (t: nat)
      requires i < 4 && F.Filled(frames, 1024 * i, total) && |supply| > 0 && SupplyOk(pages, supply)
      modifies this`frames, this`pages, this`supply
      ensures F.Filled(frames, 1024 * i + 1024, total) && supply == old(supply[1..]) && SupplyOk(pages, supply)
      ensures t !in old(pages) && t != 0 && t in pages && pages == old(pages)[t := pages[t]] && IdentityTable(pages[t], i)
    {
      assert ChunkOk(pages, supply[0]);
      var c := Memalign();
      var table := c.junk;
      var j := 0;
      while j < 1024
        invariant 0 <= j <= 1024 && |table| == 1024 && F.Filled(frames, 1024 * i + j, total)
        invariant forall k :: 0 <= k < j ==> table[k] == Entry(1024 * i + k, 0x103)
        invariant pages == old(pages) && supply == old(supply[1..])
      {
        F.FillOne(frames, 1024 * i + j, total);
        var f := AcquireFrame();
        table := table[j := Entry(f, 0x103)];
        j := j + 1;
      }
      t := c.page;
      pages := pages[t := table];
      SupplyLess(old(pages), pages, old(supply));
    }

    /** mm_init: the first 4096 pages are mapped to the frames with the same numbers. */
    method MmInit(total: int) returns (kd: nat)
      requires pages == map[] && |supply| >= 5 && SupplyOk(pages, supply)
      modifies this`frames, this`pages, this`supply
      ensures F.Filled(frames, 4096, total) && FramesOk(frames) && SupplyOk(pages, supply) && |supply| == |old(supply)| - 5
      ensures KernelTables(pages, kd, 4)
    {
      InitFreeFrame(total);
      assert ChunkOk(pages, supply[0]);
      var c := Memalign();
      kd := c.page;
      pages := pages[kd := c.junk];
      SupplyLess(old(pages), pages, old(supply));
      var i := 0;
      while i < 4
        invariant 0 <= i <= 4 && F.Filled(frames, 1024 * i, total) && SupplyOk(pages, supply)
        invariant |supply| == |old(supply)| - 1 - i && KernelTables(pages, kd, i)
      {
        ghost var was := pages;
        var t := FillTable(i, total);
        AddKernelTable(was, pages, kd, i, t);
        pages := pages[kd := pages[kd][i := Entry(t, 0x107)]];
        i := i + 1;
      }
    }

    /** init_pd: a process's directory, with the kernel's tables and nothing else. */
    method InitPd(kd: nat) returns (pd: nat)
      requires FramesOk(frames) && KernelTables(pages, kd, 4) && |supply| > 0 && SupplyOk(pages, supply) && |data| == 65536
      modifies this`pages, this`supply
      ensures Valid(pd) && Space(pd) == map[] && supply == old(supply[1..])
      ensures forall k :: 0 <= k < 4 ==> pages[pd][k] == Entry(old(pages[kd][k].frame), 0x107)
      ensures forall k :: 4 <= k < 1024 ==> pages[pd][k] == Entry(0, 0)
    {
      assert ChunkOk(pages, supply[0]);
      var c := Memalign();
      pd := c.page;
      var dir := seq(1024, k => Empty());
      var i := 0;
      while i < 4
        invariant 0 <= i <= 4 && |dir| == 1024 && forall k :: i <= k < 1024 ==> dir[k] == Empty()
        invariant forall k :: 0 <= k < i ==> dir[k] == Entry(pages[kd][k].frame, 0x107)
      {
        dir := dir[i := Entry(pages[kd][i].frame, 0x107)];
        i := i + 1;
      }
      pages := pages[pd := dir];
      SupplyLess(old(pages), pages, old(supply));
      ProcessDirectory(old(pages), pages, kd, pd);
    }
  }
}
