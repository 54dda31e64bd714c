/**
 * The address-space copy of fork: one free slot of the parent's tables is used again and again to
 * reach each new frame, which gets the contents of the parent's and goes into the child's tables.
 */
module Fork {
  import opened PageTables
  import F = Frames
  import opened Vm

  // ----- the temporary slot

  /** Some entry of the parent's user tables is free. */
  ghost predicate SlotAt(pages: Pages, pd: nat, i: int, j: int)
  {
    Directory(pages, pd) && 4 <= i < 1024 && 0 <= j < 1024 && pages[pd][i].frame != 0 && At(pages, pd, i, j).frame == 0
  }

  method FindInTable(k: Kernel, pd: nat, i: nat) returns (found: bool, j: nat)
    requires Directory(k.pages, pd) && 4 <= i < 1024
    ensures found ==> SlotAt(k.pages, pd, i, j)
    ensures !found ==> forall l :: 0 <= l < 1024 ==> !SlotAt(k.pages, pd, i, l)
  {
    found, j := false, 0;
    if k.pages[pd][i].frame == 0 {
      return;
    }
    assert TableOk(k.pages, pd, k.pages[pd][i], i >= 4);
    while j < 1024
      invariant 0 <= j <= 1024 && forall l :: 0 <= l < j ==> !SlotAt(k.pages, pd, i, l)
    {
      if k.pages[k.pages[pd][i].frame][j].frame == 0 {
        return true, j;
      }
      j := j + 1;
    }
  }

  /** find_free_entry. */
  method FindFreeEntry(k: Kernel, pd: nat) returns (found: bool, i: nat, j: nat)
    requires Directory(k.pages, pd)
    ensures found ==> SlotAt(k.pages, pd, i, j)
    ensures !found ==> forall m, l :: !SlotAt(k.pages, pd, m, l)
  {
    found, i, j := false, 4, 0;
    while i < 1024
      invariant 4 <= i <= 1024 && forall m, l :: m < i ==> !SlotAt(k.pages, pd, m, l)
    {
      found, j := FindInTable(k, pd, i);
      if found {
        return;
      }
      i := i + 1;
    }
  }

  // ----- one page

  /** Tables that existed before are exactly as they were. */
  ghost predicate OldKept(was: Pages, pages: Pages)
  {
    0 !in pages && forall p :: p in was ==> p in pages && pages[p] == was[p]
  }

  lemma DirectoryKept(was: Pages, pages: Pages, pd: nat)
    requires Directory(was, pd) && OldKept(was, pages)
    ensures Directory(pages, pd) && SpaceOf(pages, pd) == SpaceOf(was, pd)
    ensures forall i, j :: 0 <= i < 1024 && 0 <= j < 1024 ==> At(pages, pd, i, j) == At(was, pd, i, j)
  {
    forall i | 0 <= i < 1024 ensures TableOk(pages, pd, pages[pd][i], i >= 4) {
      assert TableOk(was, pd, was[pd][i], i >= 4);
    }
    forall i, j | 0 <= i < 1024 && 0 <= j < 1024 ensures At(pages, pd, i, j) == At(was, pd, i, j) {
      assert TableOk(was, pd, was[pd][i], i >= 4);
    }
    forall v: nat | v < 1048576 ensures AtPage(pages, pd, v) == AtPage(was, pd, v) {
      HiLo(v);
    }
  }

  /** Setting the slot and clearing it again leaves its table as it was. */
  lemma SlotRestored(pages: Pages, t: nat, j: nat, e: Entry, ct: nat, l: nat, c: Entry)
    requires t in pages && j < |pages[t]| && pages[t][j] == Empty() && ct in pages && ct != t && l < |pages[ct]|
    ensures WithEntry(WithEntry(WithEntry(pages, t, j, e), ct, l, c), t, j, Empty()) == WithEntry(pages, ct, l, c)
  {
    assert pages[t][j := e][j := Empty()] == pages[t];
  }

  /** The parent's tables are among those that existed before. */
  lemma TableOld(was: Pages, pages: Pages, pd: nat, i: nat)
    requires Directory(was, pd) && OldKept(was, pages) && Directory(pages, pd) && i < 1024
    ensures pages[pd][i].frame != 0 ==> pages[pd][i].frame in was && |pages[pages[pd][i].frame]| == 1024
  {
    assert TableOk(was, pd, was[pd][i], i >= 4);
  }

  /** Writing a table of the child's changes nothing of the parent's. */
  lemma ChildWrite(was: Pages, pages: Pages, pd: nat, ct: nat, j: nat, e: Entry, supply: seq<Chunk>)
    requires Directory(was, pd) && OldKept(was, pages) && ct in pages && ct !in was && j < |pages[ct]|
    requires Directory(pages, pd) && Identity(pages, pd) && SupplyOk(pages, supply)
    ensures var pages' := WithEntry(pages, ct, j, e);
      && OldKept(was, pages') && Directory(pages', pd) && Identity(pages', pd) && SupplyOk(pages', supply)
      && SpaceOf(pages', pd) == SpaceOf(pages, pd)
  {
    var pages' := WithEntry(pages, ct, j, e);
    DirectoryKept(was, pages, pd);
    DirectoryKept(was, pages', pd);
    forall k | 0 <= k < |supply| ensures ChunkOk(pages', supply[k]) {
      assert ChunkOk(pages, supply[k]);
    }
  }

  /** A frame taken and an entry of the child's written leave the parent as it was. */
  lemma CopySound(was: Pages, pages: Pages, pd: nat, ct: nat, i: nat, j: nat, f: F.Frames, supply: seq<Chunk>, data: seq<Page>)
    requires Sound(pages, pd, f, supply, data) && Directory(was, pd) && OldKept(was, pages)
    requires ct in pages && ct !in was && |pages[ct]| == 1024 && F.Ahead(f) >= 2
    requires 4 <= i < 1024 && j < 1024 && At(pages, pd, i, j).frame != 0
    ensures pages[pd][i].frame in was && |pages[pages[pd][i].frame]| == 1024 && At(pages, pd, i, j) == pages[pages[pd][i].frame][j]
    ensures At(pages, pd, i, j).frame < 65536 && f.cursor < 65536 && f.cursor != At(pages, pd, i, j).frame
    ensures var pages' := WithEntry(pages, ct, j, Entry(f.cursor, At(pages, pd, i, j).flags));
      && OldKept(was, pages')
      && Sound(pages', pd, F.Acquired(f), supply, data[f.cursor := data[At(pages, pd, i, j).frame]])
  {
    SpaceAt(pages, pd, i, j);
    TableOld(was, pages, pd, i);
    SpaceHeld(SpaceOf(pages, pd), f);
    ChildWrite(was, pages, pd, ct, j, Entry(f.cursor, At(pages, pd, i, j).flags), supply);
  }

  lemma SpaceHeld(space: Space, f: F.Frames)
    requires FramesOk(f) && SpaceOk(space, f.refs) && F.Ahead(f) >= 2
    ensures f.cursor >= 4096 && FramesOk(F.Acquired(f)) && SpaceOk(space, F.Acquired(f).refs)
  {
    F.AcquireKeeps(f);
    assert f.cursor >= 4096;
  }

  /** virtual_map_physical on the slot, which cannot fail, and the frame it put there. */
  method MapSlot(k: Kernel, pd: nat, si: nat, sj: nat) returns (f: nat)
    requires k.Valid(pd) && SlotAt(k.pages, pd, si, sj) && F.Ahead(k.frames) >= 2
    modifies k
    ensures f == old(k.frames.cursor) && k.frames == F.Acquired(old(k.frames)) && k.supply == old(k.supply)
    ensures old(k.pages[pd][si].frame in k.pages && |k.pages[k.pages[pd][si].frame]| == 1024)
    ensures old(k.pages[k.pages[pd][si].frame][sj]) == Empty()
    ensures k.pages == WithEntry(old(k.pages), old(k.pages[pd][si].frame), sj, Entry(f, 7))
    ensures k.data == old(k.data)[f := ZeroPage()]
  {
    assert TableOk(k.pages, pd, k.pages[pd][si], si >= 4);
    var slot := k.pages[pd][si].frame;
    var r := k.VirtualMap(pd, si, sj);
    f := k.pages[slot][sj].frame;
  }

  /** memcpy through the slot into a new frame, the child's entry, and the slot freed again. */
  method CopyPage(k: Kernel, pd: nat, si: nat, sj: nat, ct: nat, i: nat, j: nat, ghost was: Pages) returns (f: nat)
    requires k.Valid(pd) && Directory(was, pd) && OldKept(was, k.pages) && SlotAt(k.pages, pd, si, sj)
    requires ct in k.pages && ct !in was && |k.pages[ct]| == 1024
    requires 4 <= i < 1024 && j < 1024 && At(k.pages, pd, i, j).frame != 0 && F.Ahead(k.frames) >= 2
    modifies k
    ensures k.Valid(pd) && OldKept(was, k.pages) && f == old(k.frames.cursor) && k.frames == F.Acquired(old(k.frames))
    ensures k.pages == WithEntry(old(k.pages), ct, j, Entry(f, old(At(k.pages, pd, i, j)).flags))
    ensures k.supply == old(k.supply)
    ensures f < 65536 && old(At(k.pages, pd, i, j)).frame < 65536
    ensures k.data == old(k.data)[f := old(k.data[At(k.pages, pd, i, j).frame])]
  {
    ghost var start := k.pages;
    TableOld(was, start, pd, si);
    CopySound(was, start, pd, ct, i, j, k.frames, k.supply, k.data);
    var e := k.pages[k.pages[pd][i].frame][j];
    var slot := k.pages[pd][si].frame;
    f := MapSlot(k, pd, si, sj);
    k.data := k.data[f := k.data[e.frame]];
    WriteBack(k, start, ct, j, Entry(f, e.flags), slot, sj, f);
  }

  /** The child's entry written and the slot cleared, which leaves the slot's table as it was. */
  method WriteBack(k: Kernel, ghost start: Pages, ct: nat, j: nat, e: Entry, slot: nat, sj: nat, ghost f: nat)
    requires slot in start && sj < |start[slot]| && start[slot][sj] == Empty() && ct in start && ct != slot && j < |start[ct]|
    requires k.pages == WithEntry(start, slot, sj, Entry(f, 7))
    modifies k`pages
    ensures k.pages == WithEntry(start, ct, j, e)
  {
    k.pages := WithEntry(k.pages, ct, j, e);
    k.pages := WithEntry(k.pages, slot, sj, Empty());
    SlotRestored(start, slot, sj, Entry(f, 7), ct, j, e);
  }

  // ----- the child's tables

  /** The child's tables lead from page `v` to entry `e`, with the parent's flags on the way. */
  ghost predicate ChildAt(pages: Pages, pd: nat, cd: nat, v: nat, e: Entry)
    requires cd in pages && |pages[cd]| == 1024 && pd in pages && |pages[pd]| == 1024
  {
    v < 1048576 &&
    var d := pages[cd][Hi(v)];
    && d.flags == pages[pd][Hi(v)].flags && d.frame != cd && d.frame in pages && |pages[d.frame]| == 1024
    && pages[d.frame][Lo(v)] == e
  }

  ghost predicate ChildMaps(pages: Pages, pd: nat, cd: nat, child: Space)
  {
    && cd in pages && |pages[cd]| == 1024 && pd in pages && |pages[pd]| == 1024
    && forall v :: v in child ==> ChildAt(pages, pd, cd, v, child[v])
  }

  /** Page `v` of the child is a copy, in a frame of its own, of the parent's in `s`. */
  ghost predicate CopyOf(s: Snapshot, s': Snapshot, v: nat, e: Entry)
  {
    && v in s.space && e.flags == s.space[v].flags && s.space[v].frame < |s.data|
    && e.frame < |s.frames.refs| && s.frames.refs[e.frame] == 0
    && e.frame < |s'.frames.refs| && s'.frames.refs[e.frame] >= 1
    && e.frame < |s'.data| && s'.data[e.frame] == s.data[s.space[v].frame]
  }

  ghost predicate Copies(s: Snapshot, s': Snapshot, child: Space)
  {
    && (forall v :: v in child ==> CopyOf(s, s', v, child[v]))
    && forall v, w :: v in child && w in child && v != w ==> child[v].frame != child[w].frame
  }

  /** The snapshot after the frame under the cursor has been filled with the contents of frame `g`. */
  ghost function Filled(s: Snapshot, g: nat): Snapshot
    requires F.Ok(s.frames) && |s.data| == 65536 && g < 65536
  {
    Snapshot(s.space, F.Acquired(s.frames), s.data[s.frames.cursor := s.data[g]])
  }

  lemma CopyStays(s: Snapshot, t: Snapshot, g: nat, v: nat, e: Entry)
    requires F.Ok(t.frames) && |t.data| == 65536 && g < 65536 && CopyOf(s, t, v, e)
    ensures CopyOf(s, Filled(t, g), v, e) && e.frame != t.frames.cursor
  {
  }

  lemma KeptFilled(s: Snapshot, t: Snapshot, g: nat)
    requires F.Ok(t.frames) && |t.data| == 65536 && g < 65536 && Kept(s, t)
    ensures Kept(s, Filled(t, g)) && s.frames.refs[t.frames.cursor] == 0
  {
  }

  lemma CopyMore(s: Snapshot, t: Snapshot, child: Space, v: nat)
    requires SnapshotOk(s) && F.Ok(t.frames) && |t.data| == 65536 && Kept(s, t) && Copies(s, t, child)
    requires v in s.space && v !in child
    ensures Copies(s, Filled(t, s.space[v].frame), child[v := Entry(t.frames.cursor, s.space[v].flags)])
    ensures Kept(s, Filled(t, s.space[v].frame))
  {
    var u := Filled(t, s.space[v].frame);
    KeptFilled(s, t, s.space[v].frame);
    assert t.data[s.space[v].frame] == s.data[s.space[v].frame];
    forall w | w in child ensures CopyOf(s, u, w, child[w]) && child[w].frame != t.frames.cursor {
      CopyStays(s, t, s.space[v].frame, w, child[w]);
    }
  }

  /** The child's table for row `i` is in place and is no other row's. */
  ghost predicate RowReady(was: Pages, pages: Pages, pd: nat, cd: nat, child: Space, i: nat, ct: nat)
  {
    && pd in pages && cd in pages && i < |pages[cd]| == |pages[pd]| == 1024 && pages[cd][i] == Entry(ct, pages[pd][i].flags)
    && ct in pages && ct !in was && ct != cd && |pages[ct]| == 1024
    && forall v: nat :: v in child && v < 1048576 && Hi(v) != i ==> pages[cd][Hi(v)].frame != ct
  }

  lemma OtherSlot(v: nat, i: nat, j: nat)
    requires v < 1048576 && i < 1024 && j < 1024 && v != 1024 * i + j
    ensures Hi(v) != i || Lo(v) != j
  {
  }

  lemma ChildMapsMore(was: Pages, pages: Pages, pd: nat, cd: nat, child: Space, i: nat, j: nat, ct: nat, e: Entry)
    requires ChildMaps(pages, pd, cd, child) && RowReady(was, pages, pd, cd, child, i, ct) && j < 1024 && pd in was
    requires 1024 * i + j !in child
    ensures ChildMaps(WithEntry(pages, ct, j, e), pd, cd, child[1024 * i + j := e])
    ensures RowReady(was, WithEntry(pages, ct, j, e), pd, cd, child[1024 * i + j := e], i, ct)
  {
    var pages' := WithEntry(pages, ct, j, e);
    Indices(i, j);
    forall v | v in child ensures ChildAt(pages', pd, cd, v, child[v]) {
      assert ChildAt(pages, pd, cd, v, child[v]);
      OtherSlot(v, i, j);
    }
  }

  ghost predicate Tables(was: Pages, pages: Pages, pd: nat, cd: nat, child: Space)
  {
    && Directory(was, pd) && OldKept(was, pages) && cd !in was && ChildMaps(pages, pd, cd, child)
    && forall i :: 0 <= i < 4 ==> pages[cd][i] == was[pd][i]
  }

  ghost predicate Contents(s: Snapshot, now: Snapshot, child: Space, upto: nat)
  {
    && SnapshotOk(s) && Kept(s, now) && Copies(s, now, child) && (forall v :: v in child <==> v in s.space && v < upto)
    && F.Ok(now.frames) && F.Ahead(now.frames) + |child| > |s.space| && |now.data| == 65536
  }

  /** How far the copy has come: the parent's pages below `upto` are in the child. */
  ghost predicate Progress(was: Pages, s: Snapshot, pages: Pages, now: Snapshot, pd: nat, cd: nat, child: Space, upto: nat)
  {
    Tables(was, pages, pd, cd, child) && s.space == SpaceOf(was, pd) && Contents(s, now, child, upto)
  }

  lemma RoomLeft(child: Space, space: Space, v: nat)
    requires (forall w :: w in child ==> w in space) && v in space && v !in child
    ensures |child| < |space|
  {
    assert child.Keys <= space.Keys - {v};
    Subset(child.Keys, space.Keys - {v});
    assert |child| == |child.Keys| && |space| == |space.Keys|;
  }

  lemma {:induction false} Subset(a: set<nat>, b: set<nat>)
    requires a <= b
    ensures |a| <= |b|
  {
    if a != {} {
      var x :| x in a;
      Subset(a - {x}, b - {x});
    }
  }

  lemma DomainMore(space: Space, child: Space, v: nat, e: Entry)
    requires (forall w :: w in child <==> w in space && w < v) && v in space
    ensures forall w :: w in child[v := e] <==> w in space && w < v + 1
  {
  }

  lemma TablesMore(was: Pages, pages: Pages, pd: nat, cd: nat, child: Space, i: nat, j: nat, ct: nat, e: Entry)
    requires Tables(was, pages, pd, cd, child) && RowReady(was, pages, pd, cd, child, i, ct) && j < 1024
    requires 1024 * i + j !in child
    ensures Tables(was, WithEntry(pages, ct, j, e), pd, cd, child[1024 * i + j := e])
    ensures RowReady(was, WithEntry(pages, ct, j, e), pd, cd, child[1024 * i + j := e], i, ct)
  {
    ChildMapsMore(was, pages, pd, cd, child, i, j, ct, e);
  }

  lemma ContentsMore(s: Snapshot, now: Snapshot, child: Space, v: nat)
    requires Contents(s, now, child, v) && v in s.space && F.Ahead(now.frames) >= 2
    ensures s.space[v].frame < 65536
    ensures Contents(s, Filled(now, s.space[v].frame), child[v := Entry(now.frames.cursor, s.space[v].flags)], v + 1)
  {
    var e := Entry(now.frames.cursor, s.space[v].flags);
    CopyMore(s, now, child, v);
    CountOne(child, v, e);
    DomainMore(s.space, child, v, e);
    F.AcquireKeeps(now.frames);
  }

  lemma ProgressSkip(was: Pages, s: Snapshot, pages: Pages, now: Snapshot, pd: nat, cd: nat, child: Space, v: nat)
    requires Progress(was, s, pages, now, pd, cd, child, v) && v !in s.space
    ensures Progress(was, s, pages, now, pd, cd, child, v + 1)
  {
  }

  // ----- the copy

  lemma SlotStill(was: Pages, pages: Pages, pd: nat, cd: nat, child: Space, si: nat, sj: nat)
    requires Tables(was, pages, pd, cd, child) && SlotAt(was, pd, si, sj)
    ensures SlotAt(pages, pd, si, sj) && SpaceOf(pages, pd) == SpaceOf(was, pd)
  {
    DirectoryKept(was, pages, pd);
  }

  lemma PageSeen(pages: Pages, pd: nat, i: nat, j: nat)
    requires Directory(pages, pd) && 4 <= i < 1024 && j < 1024 && pages[pd][i].frame != 0
    ensures pages[pd][i].frame in pages && |pages[pages[pd][i].frame]| == 1024
    ensures pages[pages[pd][i].frame][j].frame != 0 <==> 1024 * i + j in SpaceOf(pages, pd)
  {
    assert TableOk(pages, pd, pages[pd][i], i >= 4);
    SpaceAt(pages, pd, i, j);
  }

  lemma TurnReady(was: Pages, s: Snapshot, pages: Pages, now: Snapshot, pd: nat, cd: nat, child: Space,
                  si: nat, sj: nat, i: nat, j: nat)
    requires Progress(was, s, pages, now, pd, cd, child, 1024 * i + j) && SlotAt(was, pd, si, sj) && 4 <= i < 1024 && j < 1024
    requires Directory(pages, pd) && now.space == SpaceOf(pages, pd) && pages[pd][i].frame != 0
    ensures SlotAt(pages, pd, si, sj) && now.space == s.space
    ensures pages[pd][i].frame in pages && |pages[pages[pd][i].frame]| == 1024
    ensures pages[pages[pd][i].frame][j].frame != 0 <==> 1024 * i + j in s.space
    ensures 1024 * i + j in s.space ==> F.Ahead(now.frames) >= 2
  {
    SlotStill(was, pages, pd, cd, child, si, sj);
    PageSeen(pages, pd, i, j);
    Enough(s, now, child, 1024 * i + j);
  }

  lemma Enough(s: Snapshot, now: Snapshot, child: Space, v: nat)
    requires Contents(s, now, child, v)
    ensures v in s.space ==> F.Ahead(now.frames) >= 2
  {
    if v in s.space {
      RoomLeft(child, s.space, v);
    }
  }

  /** One turn of the inner loop. */
  method CopyNext(k: Kernel, pd: nat, ghost cd: nat, si: nat, sj: nat, ct: nat, i: nat, j: nat,
                  ghost was: Pages, ghost s: Snapshot, ghost child: Space) returns (ghost child': Space)
    requires k.Valid(pd) && Progress(was, s, k.pages, k.Now(pd), pd, cd, child, 1024 * i + j)
    requires RowReady(was, k.pages, pd, cd, child, i, ct) && SlotAt(was, pd, si, sj)
    requires 4 <= i < 1024 && j < 1024 && k.pages[pd][i].frame != 0
    modifies k
    ensures k.Valid(pd) && Progress(was, s, k.pages, k.Now(pd), pd, cd, child', 1024 * i + j + 1)
    ensures RowReady(was, k.pages, pd, cd, child', i, ct) && k.supply == old(k.supply)
  {
    TurnReady(was, s, k.pages, k.Now(pd), pd, cd, child, si, sj, i, j);
    var e := k.pages[k.pages[pd][i].frame][j];
    if e.frame == 0 {
      ProgressSkip(was, s, k.pages, k.Now(pd), pd, cd, child, 1024 * i + j);
      child' := child;
    } else {
      child' := CopyThis(k, pd, cd, si, sj, ct, i, j, was, s, child);
    }
  }

  /** What one copied page does to the tables and to the snapshot. */
  ghost predicate CopyDone(pages: Pages, now: Snapshot, pages': Pages, now': Snapshot, i: nat, j: nat, ct: nat)
  {
    && 1024 * i + j in now.space && F.Ok(now.frames) && |now.data| == 65536 && now.space[1024 * i + j].frame < 65536
    && ct in pages && j < |pages[ct]|
    && pages' == WithEntry(pages, ct, j, Entry(now.frames.cursor, now.space[1024 * i + j].flags))
    && now' == Filled(now, now.space[1024 * i + j].frame)
  }

  method CopySeen(k: Kernel, pd: nat, ghost cd: nat, si: nat, sj: nat, ct: nat, i: nat, j: nat,
                  ghost was: Pages, ghost s: Snapshot, ghost child: Space)
    requires k.Valid(pd) && Tables(was, k.pages, pd, cd, child) && SlotAt(k.pages, pd, si, sj)
    requires RowReady(was, k.pages, pd, cd, child, i, ct)
    requires 4 <= i < 1024 && j < 1024 && k.Now(pd).space == s.space && 1024 * i + j in s.space
    requires F.Ahead(k.frames) >= 2
    modifies k
    ensures k.Valid(pd) && OldKept(was, k.pages) && k.supply == old(k.supply)
    ensures CopyDone(old(k.pages), old(k.Now(pd)), k.pages, k.Now(pd), i, j, ct)
  {
    SpaceAt(k.pages, pd, i, j);
    ghost var pages := k.pages;
    var f := CopyPage(k, pd, si, sj, ct, i, j, was);
    StillValid(was, pages, k.pages, pd);
  }

  /** The child with the page that is about to be copied. */
  ghost function ChildWith(child: Space, now: Snapshot, i: nat, j: nat): Space
    requires 1024 * i + j in now.space
  {
    child[1024 * i + j := Entry(now.frames.cursor, now.space[1024 * i + j].flags)]
  }

  method CopyThis(k: Kernel, pd: nat, ghost cd: nat, si: nat, sj: nat, ct: nat, i: nat, j: nat,
                  ghost was: Pages, ghost s: Snapshot, ghost child: Space) returns (ghost child': Space)
    requires k.Valid(pd) && Progress(was, s, k.pages, k.Now(pd), pd, cd, child, 1024 * i + j)
    requires RowReady(was, k.pages, pd, cd, child, i, ct) && SlotAt(k.pages, pd, si, sj)
    requires 4 <= i < 1024 && j < 1024 && k.Now(pd).space == s.space && 1024 * i + j in s.space
    requires F.Ahead(k.frames) >= 2
    modifies k
    ensures k.Valid(pd) && Progress(was, s, k.pages, k.Now(pd), pd, cd, child', 1024 * i + j + 1)
    ensures RowReady(was, k.pages, pd, cd, child', i, ct) && k.supply == old(k.supply)
  {
    ghost var now, pages := k.Now(pd), k.pages;
    child' := ChildWith(child, now, i, j);
    CopySeen(k, pd, cd, si, sj, ct, i, j, was, s, child);
    ProgressMore(was, s, pages, now, k.pages, k.Now(pd), pd, cd, child, i, j, ct);
  }

  lemma ProgressMore(was: Pages, s: Snapshot, pages: Pages, now: Snapshot, pages': Pages, now': Snapshot,
                     pd: nat, cd: nat, child: Space, i: nat, j: nat, ct: nat)
    requires Progress(was, s, pages, now, pd, cd, child, 1024 * i + j) && RowReady(was, pages, pd, cd, child, i, ct)
    requires j < 1024 && now.space == s.space && CopyDone(pages, now, pages', now', i, j, ct)
    ensures var child' := ChildWith(child, now, i, j);
      && Progress(was, s, pages', now', pd, cd, child', 1024 * i + j + 1)
      && RowReady(was, pages', pd, cd, child', i, ct)
  {
    Enough(s, now, child, 1024 * i + j);
    TablesMore(was, pages, pd, cd, child, i, j, ct, Entry(now.frames.cursor, s.space[1024 * i + j].flags));
    ContentsMore(s, now, child, 1024 * i + j);
  }

  /** The inner loop: all of row `i`. */
  method CopyTable(k: Kernel, pd: nat, ghost cd: nat, si: nat, sj: nat, ct: nat, i: nat,
                   ghost was: Pages, ghost s: Snapshot, ghost child: Space) returns (ghost child': Space)
    requires k.Valid(pd) && Progress(was, s, k.pages, k.Now(pd), pd, cd, child, 1024 * i)
    requires RowReady(was, k.pages, pd, cd, child, i, ct) && SlotAt(was, pd, si, sj)
    requires 4 <= i < 1024 && was[pd][i].frame != 0
    modifies k
    ensures k.Valid(pd) && Progress(was, s, k.pages, k.Now(pd), pd, cd, child', 1024 * i + 1024)
    ensures k.supply == old(k.supply)
  {
    child' := child;
    var j := 0;
    while j < 1024
      invariant 0 <= j <= 1024 && k.Valid(pd) && Progress(was, s, k.pages, k.Now(pd), pd, cd, child', 1024 * i + j)
      invariant RowReady(was, k.pages, pd, cd, child', i, ct) && k.supply == old(k.supply)
    {
      child' := CopyNext(k, pd, cd, si, sj, ct, i, j, was, s, child');
      j := j + 1;
    }
  }

  lemma RowEmpty(was: Pages, s: Snapshot, pages: Pages, now: Snapshot, pd: nat, cd: nat, child: Space, i: nat)
    requires Progress(was, s, pages, now, pd, cd, child, 1024 * i) && 4 <= i < 1024 && was[pd][i].frame == 0
    ensures Progress(was, s, pages, now, pd, cd, child, 1024 * i + 1024)
  {
    forall v: nat | 1024 * i <= v < 1024 * i + 1024 ensures v !in s.space {
      assert Hi(v) == i;
      assert AtPage(was, pd, v) == Empty();
    }
  }

  lemma RowChild(pages: Pages, pd: nat, cd: nat, child: Space, i: nat, t: nat, junk: seq<Entry>, flags: nat)
    requires ChildMaps(pages, pd, cd, child) && (forall v :: v in child ==> v < 1024 * i)
    requires i < 1024 && pd != cd && t !in pages
    ensures ChildMaps(WithTable(pages, cd, i, t, junk, flags), pd, cd, child)
    ensures forall v: nat :: v in child && v < 1048576 ==> Hi(v) < i && pages[cd][Hi(v)].frame != t
  {
    var pages' := WithTable(pages, cd, i, t, junk, flags);
    forall v | v in child ensures ChildAt(pages', pd, cd, v, child[v]) && Hi(v) < i && pages[cd][Hi(v)].frame != t {
      assert ChildAt(pages, pd, cd, v, child[v]);
      assert Hi(v) < i;
    }
  }

  /** A new table for row `i` of the child, with the parent's directory flags. */
  lemma RowAdded(was: Pages, pages: Pages, pages': Pages, pd: nat, cd: nat, child: Space, i: nat, c: Chunk)
    requires Tables(was, pages, pd, cd, child) && (forall v :: v in child ==> v < 1024 * i) && 4 <= i < 1024
    requires ChunkOk(pages, c) && pages' == WithTable(pages, cd, i, c.page, c.junk, pages[pd][i].flags)
    ensures Tables(was, pages', pd, cd, child) && RowReady(was, pages', pd, cd, child, i, c.page)
  {
    RowChild(pages, pd, cd, child, i, c.page, c.junk, pages[pd][i].flags);
  }

  lemma StillValid(was: Pages, pages: Pages, pages': Pages, pd: nat)
    requires Directory(was, pd) && OldKept(was, pages) && OldKept(was, pages')
    ensures Directory(pages, pd) && Directory(pages', pd) && SpaceOf(pages', pd) == SpaceOf(pages, pd)
    ensures Identity(pages, pd) ==> Identity(pages', pd)
  {
    DirectoryKept(was, pages, pd);
    DirectoryKept(was, pages', pd);
  }

  /** One turn of the outer loop; it fails only when there is no memory for the table. */
  method CopyRow(k: Kernel, pd: nat, cd: nat, si: nat, sj: nat, i: nat,
                 ghost was: Pages, ghost s: Snapshot, ghost child: Space) returns (ok: bool, ghost child': Space)
    requires k.Valid(pd) && Progress(was, s, k.pages, k.Now(pd), pd, cd, child, 1024 * i)
    requires SlotAt(was, pd, si, sj) && 4 <= i < 1024
    modifies k
    ensures k.Valid(pd) && OldKept(was, k.pages) && (!ok ==> k.supply == [])
    ensures ok ==> Progress(was, s, k.pages, k.Now(pd), pd, cd, child', 1024 * i + 1024)
  {
    ok, child' := true, child;
    if k.pages[pd][i].frame == 0 {
      RowEmpty(was, s, k.pages, k.Now(pd), pd, cd, child, i);
      return;
    }
    if |k.supply| == 0 {
      ok := false;
      return;
    }
    var ct := AddRow(k, pd, cd, i, was, s, child);
    child' := CopyTable(k, pd, cd, si, sj, ct, i, was, s, child);
  }

  method AddRow(k: Kernel, pd: nat, cd: nat, i: nat, ghost was: Pages, ghost s: Snapshot, ghost child: Space) returns (ct: nat)
    requires k.Valid(pd) && Progress(was, s, k.pages, k.Now(pd), pd, cd, child, 1024 * i)
    requires 4 <= i < 1024 && |k.supply| > 0
    modifies k`pages, k`supply
    ensures k.Valid(pd) && Progress(was, s, k.pages, k.Now(pd), pd, cd, child, 1024 * i)
    ensures RowReady(was, k.pages, pd, cd, child, i, ct)
  {
    RowPut(was, s, k.pages, k.Now(pd), pd, cd, child, i, k.supply);
    ct := PutTable(k, pd, cd, i);
  }

  method PutTable(k: Kernel, pd: nat, cd: nat, i: nat) returns (ct: nat)
    requires |k.supply| > 0 && pd in k.pages && cd in k.pages && i < |k.pages[pd]| == |k.pages[cd]|
    modifies k`pages, k`supply
    ensures ct == old(k.supply[0].page) && k.supply == old(k.supply[1..])
    ensures k.pages == WithTable(old(k.pages), cd, i, ct, old(k.supply[0].junk), old(k.pages[pd][i].flags))
  {
    var c := k.Memalign();
    ct := c.page;
    k.pages := WithTable(k.pages, cd, i, ct, c.junk, k.pages[pd][i].flags);
  }

  lemma RowPut(was: Pages, s: Snapshot, pages: Pages, now: Snapshot, pd: nat, cd: nat, child: Space, i: nat, supply: seq<Chunk>)
    requires Progress(was, s, pages, now, pd, cd, child, 1024 * i) && 4 <= i < 1024 && |supply| > 0
    requires Sound(pages, pd, now.frames, supply, now.data) && now.space == SpaceOf(pages, pd)
    ensures cd in pages && |pages[cd]| == 1024 && pd in pages && |pages[pd]| == 1024
    ensures var c := supply[0];
      var pages' := WithTable(pages, cd, i, c.page, c.junk, pages[pd][i].flags);
      && Progress(was, s, pages', now, pd, cd, child, 1024 * i) && RowReady(was, pages', pd, cd, child, i, c.page)
      && Sound(pages', pd, now.frames, supply[1..], now.data) && SpaceOf(pages', pd) == now.space
  {
    var c := supply[0];
    assert ChunkOk(pages, c);
    var pages' := WithTable(pages, cd, i, c.page, c.junk, pages[pd][i].flags);
    RowAdded(was, pages, pages', pd, cd, child, i, c);
    SupplyLess(pages, pages', supply);
    StillValid(was, pages, pages', pd);
  }

  /** The child's directory, with the kernel's entries shared and the rest not yet written. */
  method NewDirectory(k: Kernel, pd: nat) returns (cd: nat)
    requires k.Valid(pd) && |k.supply| > 0
    modifies k`pages, k`supply
    ensures k.Valid(pd) && cd !in old(k.pages) && OldKept(old(k.pages), k.pages) && k.Space(pd) == old(k.Space(pd))
    ensures cd in k.pages && |k.pages[cd]| == 1024 && forall i :: 0 <= i < 4 ==> k.pages[cd][i] == old(k.pages[pd][i])
  {
    ghost var pages, supply := k.pages, k.supply;
    assert ChunkOk(pages, supply[0]);
    var c := k.Memalign();
    cd := c.page;
    var dir := c.junk;
    var i := 0;
    while i < 4
      invariant 0 <= i <= 4 && |dir| == 1024 && forall l :: 0 <= l < i ==> dir[l] == pages[pd][l]
      invariant k.pages == pages && k.supply == supply[1..]
    {
      dir := dir[i := k.pages[pd][i]];
      i := i + 1;
    }
    k.pages := k.pages[cd := dir];
    SupplyLess(pages, k.pages, supply);
    StillValid(pages, pages, k.pages, pd);
  }

  /** The child is a full copy: the same pages, flags and contents, and no frame in common. */
  ghost predicate Forked(s: Snapshot, s': Snapshot, pages: Pages, pd: nat, cd: nat, child: Space)
  {
    child.Keys == s.space.Keys && ChildMaps(pages, pd, cd, child) && Copies(s, s', child)
  }

  /** No frame of the child's is one of the parent's. */
  lemma NoSharedFrame(s: Snapshot, s': Snapshot, pages: Pages, pd: nat, cd: nat, child: Space, v: nat, w: nat)
    requires SnapshotOk(s) && Forked(s, s', pages, pd, cd, child) && v in s.space && w in s.space
    ensures child[v].frame != s.space[w].frame && (v != w ==> child[v].frame != child[w].frame)
    ensures ChildAt(pages, pd, cd, v, child[v]) && child[v].flags == s.space[v].flags
    ensures child[v].frame < |s'.data| && s.space[v].frame < |s.data| && s'.data[child[v].frame] == s.data[s.space[v].frame]
  {
    assert CopyOf(s, s', v, child[v]) && w in child;
  }

  lemma ProgressStart(was: Pages, s: Snapshot, pages: Pages, pd: nat, cd: nat)
    requires Directory(was, pd) && OldKept(was, pages) && s.space == SpaceOf(was, pd) && SnapshotOk(s) && cd !in was
    requires F.Ahead(s.frames) > |s.space| && cd in pages && |pages[cd]| == 1024
    requires forall i :: 0 <= i < 4 ==> pages[cd][i] == was[pd][i]
    ensures Progress(was, s, pages, s, pd, cd, map[], 4096)
  {
  }

  lemma ProgressEnd(was: Pages, s: Snapshot, pages: Pages, now: Snapshot, pd: nat, cd: nat, child: Space)
    requires Progress(was, s, pages, now, pd, cd, child, 1048576)
    ensures Forked(s, now, pages, pd, cd, child) && Kept(s, now)
    ensures cd in pages && |pages[cd]| == 1024 && forall i :: 0 <= i < 4 ==> pages[cd][i] == was[pd][i]
  {
  }

  /** The address-space part of sys_fork. */
  method ForkSpace(k: Kernel, pd: nat) returns (r: int, cd: nat, ghost child: Space)
    requires k.Valid(pd) && F.Ahead(k.frames) > |k.Space(pd)|
    modifies k
    ensures r == 0 || r == -1
    ensures k.Valid(pd) && OldKept(old(k.pages), k.pages) && k.Space(pd) == old(k.Space(pd))
    ensures r == 0 ==> Forked(old(k.Now(pd)), k.Now(pd), k.pages, pd, cd, child) && Kept(old(k.Now(pd)), k.Now(pd))
    ensures r == 0 ==> cd !in old(k.pages) && forall i :: 0 <= i < 4 ==> k.pages[cd][i] == old(k.pages[pd][i])
    ensures r == -1 ==> k.supply == [] || forall i, j :: !SlotAt(old(k.pages), pd, i, j)
  {
    r, cd, child := -1, 0, map[];
    ghost var was, s := k.pages, k.Now(pd);
    var found, si, sj := FindFreeEntry(k, pd);
    if !found || |k.supply| == 0 {
      return;
    }
    cd := NewDirectory(k, pd);
    ProgressStart(was, s, k.pages, pd, cd);
    var ok;
    ok, child := CopyRows(k, pd, cd, si, sj, was, s);
    StillValid(was, was, k.pages, pd);
    if ok {
      ProgressEnd(was, s, k.pages, k.Now(pd), pd, cd, child);
      r := 0;
    }
  }

  method CopyRows(k: Kernel, pd: nat, cd: nat, si: nat, sj: nat, ghost was: Pages, ghost s: Snapshot)
      returns (ok: bool, ghost child: Space)
    requires k.Valid(pd) && Progress(was, s, k.pages, k.Now(pd), pd, cd, map[], 4096) && SlotAt(was, pd, si, sj)
    modifies k
    ensures k.Valid(pd) && OldKept(was, k.pages) && (!ok ==> k.supply == [])
    ensures ok ==> Progress(was, s, k.pages, k.Now(pd), pd, cd, child, 1048576)
  {
    ok, child := true, map[];
    var i := 4;
    while i < 1024
      invariant 4 <= i <= 1024 && k.Valid(pd) && Progress(was, s, k.pages, k.Now(pd), pd, cd, child, 1024 * i)
    {
      ok, child := CopyRow(k, pd, cd, si, sj, i, was, s, child);
      if !ok {
        return;
      }
      i := i + 1;
    }
  }
}
