/**
 * Two-level page tables as 32-bit paging defines them (section 4.3 of the Intel 64 and IA-32
 * Architectures Software Developer's Manual, volume 3A): a directory of 1024 entries, each naming
 * a table of 1024 entries, each naming a frame. Directories and tables are pages of kernel memory,
 * known by their page numbers.
 */
module PageTables {
  import opened Bits

  /** An entry's upper 20 bits and its flags; the word is 4096 * frame + flags. */
  datatype Entry = Entry(frame: nat, flags: nat)

  function Empty(): Entry { Entry(0, 0) }

  type Pages = map<nat, seq<Entry>>

  /** Either all zero or naming something. */
  predicate Clean(e: Entry) { e.frame == 0 ==> e == Empty() }

  // The low bits of an entry, as the processor reads them.
  predicate Present(e: Entry) { e.flags % 2 == 1 }
  predicate Writable(e: Entry) { e.flags / 2 % 2 == 1 }
  predicate ForUser(e: Entry) { e.flags / 4 % 2 == 1 }

  /** A directory entry in use grants everything; the tables' own entries may restrict it. */
  predicate Granting(e: Entry) { e.frame != 0 ==> Present(e) && Writable(e) && ForUser(e) }

  /** The table that directory entry `e` names is there, and clean if it is a user table. */
  ghost predicate TableOk(pages: Pages, pd: nat, e: Entry, user: bool)
  {
    && Clean(e) && Granting(e) && (e.frame != 0 ==> e.frame != pd && e.frame in pages && |pages[e.frame]| == 1024)
    && (user && e.frame in pages && e.frame != 0 ==> forall j :: 0 <= j < |pages[e.frame]| ==> Clean(pages[e.frame][j]))
  }

  /** A directory whose tables exist and are pairwise different; the first four are the kernel's. */
  ghost predicate Directory(pages: Pages, pd: nat)
  {
    && pd in pages && |pages[pd]| == 1024 && 0 !in pages
    && (forall i :: 0 <= i < 1024 ==> TableOk(pages, pd, pages[pd][i], i >= 4))
    && (forall i, k :: 0 <= i < k < 1024 && pages[pd][i].frame != 0 ==> pages[pd][i].frame != pages[pd][k].frame)
  }

  /** The entry that the processor reaches for page (i, j). */
  function At(pages: Pages, pd: nat, i: nat, j: nat): (e: Entry)
    requires Directory(pages, pd) && i < 1024 && j < 1024
  {
    assert TableOk(pages, pd, pages[pd][i], i >= 4);
    if pages[pd][i].frame == 0 then Empty() else pages[pages[pd][i].frame][j]
  }

  function WithEntry(pages: Pages, t: nat, j: nat, e: Entry): Pages
    requires t in pages && j < |pages[t]|
  {
    pages[t := pages[t][j := e]]
  }

  /** Writing one table entry changes that page's mapping and no other. */
  lemma SetEntry(pages: Pages, pd: nat, i: nat, j: nat, e: Entry)
    requires Directory(pages, pd) && i < 1024 && j < 1024 && pages[pd][i].frame != 0 && Clean(e)
    ensures var t := pages[pd][i].frame;
      && t in pages && |pages[t]| == 1024
      && Directory(WithEntry(pages, t, j, e), pd)
      && At(WithEntry(pages, t, j, e), pd, i, j) == e
      && forall k, l :: 0 <= k < 1024 && 0 <= l < 1024 && (k != i || l != j) ==>
           At(WithEntry(pages, t, j, e), pd, k, l) == At(pages, pd, k, l)
  {
    var t := pages[pd][i].frame;
    assert TableOk(pages, pd, pages[pd][i], i >= 4);
    var pages' := WithEntry(pages, t, j, e);
    forall k | 0 <= k < 1024 ensures TableOk(pages', pd, pages'[pd][k], k >= 4) {
      assert TableOk(pages, pd, pages[pd][k], k >= 4);
    }
    forall k, l | 0 <= k < 1024 && 0 <= l < 1024 && (k != i || l != j) ensures At(pages', pd, k, l) == At(pages, pd, k, l) {
      assert TableOk(pages, pd, pages[pd][k], k >= 4);
      if k != i { assert pages[pd][k].frame != t; }
    }
  }

  function WithTable(pages: Pages, pd: nat, i: nat, t: nat, table: seq<Entry>, flags: nat): Pages
    requires pd in pages && i < |pages[pd]|
  {
    pages[t := table][pd := pages[pd][i := Entry(t, flags)]]
  }

  /** A new table gives its pages their mappings and changes no other. */
  lemma AddTable(pages: Pages, pd: nat, i: nat, t: nat, table: seq<Entry>, flags: nat)
    requires Directory(pages, pd) && i < 1024 && pages[pd][i].frame == 0
    requires t != 0 && t !in pages && |table| == 1024 && forall j :: 0 <= j < 1024 ==> Clean(table[j])
    requires Granting(Entry(t, flags))
    ensures var pages' := WithTable(pages, pd, i, t, table, flags);
      && Directory(pages', pd)
      && (forall j :: 0 <= j < 1024 ==> At(pages', pd, i, j) == table[j])
      && forall k, j :: 0 <= k < 1024 && 0 <= j < 1024 && k != i ==> At(pages', pd, k, j) == At(pages, pd, k, j)
  {
    var pages' := WithTable(pages, pd, i, t, table, flags);
    forall k | 0 <= k < 1024 ensures TableOk(pages', pd, pages'[pd][k], k >= 4) && (k != i ==> pages'[pd][k].frame != t) {
      assert TableOk(pages, pd, pages[pd][k], k >= 4);
    }
    forall k, j | 0 <= k < 1024 && 0 <= j < 1024 && k != i ensures At(pages', pd, k, j) == At(pages, pd, k, j) {
      assert TableOk(pages, pd, pages[pd][k], k >= 4);
    }
  }

  // ----- the address space

  type Space = map<nat, Entry>

  /** Page number `v` as a pair of indices. */
  function Hi(v: nat): nat { v / 1024 }
  function Lo(v: nat): nat { v % 1024 }

  lemma HiLo(v: nat)
    requires v < 1048576
    ensures Hi(v) < 1024 && Lo(v) < 1024 && v == 1024 * Hi(v) + Lo(v)
  {
  }

  lemma Indices(i: nat, j: nat)
    requires i < 1024 && j < 1024
    ensures 1024 * i + j < 1048576 && Hi(1024 * i + j) == i && Lo(1024 * i + j) == j
  {
  }

  function AtPage(pages: Pages, pd: nat, v: nat): Entry
    requires Directory(pages, pd) && v < 1048576
  {
    HiLo(v);
    At(pages, pd, Hi(v), Lo(v))
  }

  /** What the processor lets a user program do with page `v`: read and write it, through both levels. */
  ghost predicate UserAccess(pages: Pages, pd: nat, v: nat)
    requires Directory(pages, pd)
  {
    && v < 1048576
    && var d, e := pages[pd][v / 1024], AtPage(pages, pd, v);
       && d.flags % 2 == 1 && d.flags / 2 % 2 == 1 && d.flags / 4 % 2 == 1
       && e.flags % 2 == 1 && e.flags / 2 % 2 == 1 && e.flags / 4 % 2 == 1
  }

  /** A page above the kernel's is the user's to read and write exactly if it is mapped and its own entry says so. */
  lemma UserReaches(pages: Pages, pd: nat, v: nat)
    requires Directory(pages, pd) && 4096 <= v < 1048576
    ensures UserAccess(pages, pd, v) <==> v in SpaceOf(pages, pd) && SpaceOf(pages, pd)[v].flags % 8 == 7
  {
    HiLo(v);
    assert TableOk(pages, pd, pages[pd][Hi(v)], Hi(v) >= 4);
    LowBits(AtPage(pages, pd, v).flags);
  }

  lemma LowBits(x: nat)
    ensures x % 8 == 7 <==> x % 2 == 1 && x / 2 % 2 == 1 && x / 4 % 2 == 1
  {
    var q, r := x / 8, x % 8;
    DivModUnique(x, 2, 4 * q + r / 2, r % 2);
    DivModUnique(x / 2, 2, 2 * q + r / 4, r / 2 % 2);
    DivModUnique(x, 4, 2 * q + r / 4, r % 4);
    DivModUnique(x / 4, 2, q, r / 4);
  }

  /** The mapped user pages and their entries. */
  ghost function SpaceOf(pages: Pages, pd: nat): Space
    requires Directory(pages, pd)
  {
    map v: nat | 4096 <= v < 1048576 && AtPage(pages, pd, v).frame != 0 :: AtPage(pages, pd, v)
  }

  lemma SpaceAt(pages: Pages, pd: nat, i: nat, j: nat)
    requires Directory(pages, pd) && 4 <= i < 1024 && j < 1024
    ensures 1024 * i + j in SpaceOf(pages, pd) <==> At(pages, pd, i, j).frame != 0
    ensures At(pages, pd, i, j).frame != 0 ==> SpaceOf(pages, pd)[1024 * i + j] == At(pages, pd, i, j)
  {
    Indices(i, j);
    assert AtPage(pages, pd, 1024 * i + j) == At(pages, pd, i, j);
  }

  /** Two spaces agree when every page but one is reached through the same entry. */
  lemma SpaceChange(pages: Pages, pages': Pages, pd: nat, i: nat, j: nat)
    requires Directory(pages, pd) && Directory(pages', pd) && 4 <= i < 1024 && j < 1024
    requires forall k, l :: 0 <= k < 1024 && 0 <= l < 1024 && (k != i || l != j) ==> At(pages', pd, k, l) == At(pages, pd, k, l)
    ensures var e := At(pages', pd, i, j); var v := 1024 * i + j;
      SpaceOf(pages', pd) == if e.frame != 0 then SpaceOf(pages, pd)[v := e] else SpaceOf(pages, pd) - {v}
  {
    Indices(i, j);
    assert AtPage(pages', pd, 1024 * i + j) == At(pages', pd, i, j);
    OtherPages(pages, pages', pd, i, j);
    SpaceWith(pages, pages', pd, 1024 * i + j);
  }

  lemma SpaceWith(pages: Pages, pages': Pages, pd: nat, v: nat)
    requires Directory(pages, pd) && Directory(pages', pd) && 4096 <= v < 1048576
    requires forall w: nat :: w < 1048576 && w != v ==> AtPage(pages', pd, w) == AtPage(pages, pd, w)
    ensures var e := AtPage(pages', pd, v);
      SpaceOf(pages', pd) == if e.frame != 0 then SpaceOf(pages, pd)[v := e] else SpaceOf(pages, pd) - {v}
  {
    var a, b, e := SpaceOf(pages, pd), SpaceOf(pages', pd), AtPage(pages', pd, v);
    forall w: nat ensures Alike(a, b, v, e, w) { SpaceWithAt(pages, pages', pd, v, w); }
    Changed(a, b, v, e);
  }

  /** Page `w` has in `b` what it has in `a`, and page `v` has `e` if that is in use. */
  ghost predicate Alike(a: Space, b: Space, v: nat, e: Entry, w: nat)
  {
    && (w in b <==> if w == v then e.frame != 0 else w in a)
    && (w in b ==> b[w] == if w == v then e else a[w])
  }

  lemma Changed(a: Space, b: Space, v: nat, e: Entry)
    requires forall w: nat :: Alike(a, b, v, e, w)
    ensures b == if e.frame != 0 then a[v := e] else a - {v}
  {
    assert forall w: nat :: w in b <==> if w == v then e.frame != 0 else w in a by {
      forall w: nat ensures w in b <==> if w == v then e.frame != 0 else w in a { assert Alike(a, b, v, e, w); }
    }
    forall w: nat | w in b ensures b[w] == if w == v then e else a[w] { assert Alike(a, b, v, e, w); }
    if e.frame != 0 { assert b == a[v := e]; } else { assert b == a - {v}; }
  }

  lemma SpaceWithAt(pages: Pages, pages': Pages, pd: nat, v: nat, w: nat)
    requires Directory(pages, pd) && Directory(pages', pd) && 4096 <= v < 1048576
    requires w < 1048576 && w != v ==> AtPage(pages', pd, w) == AtPage(pages, pd, w)
    ensures Alike(SpaceOf(pages, pd), SpaceOf(pages', pd), v, AtPage(pages', pd, v), w)
  {
  }

  lemma OtherPages(pages: Pages, pages': Pages, pd: nat, i: nat, j: nat)
    requires Directory(pages, pd) && Directory(pages', pd) && i < 1024 && j < 1024
    requires forall k, l :: 0 <= k < 1024 && 0 <= l < 1024 && (k != i || l != j) ==> At(pages', pd, k, l) == At(pages, pd, k, l)
    ensures forall w: nat :: w < 1048576 && w != 1024 * i + j ==> AtPage(pages', pd, w) == AtPage(pages, pd, w)
  {
    forall w: nat | w < 1048576 && w != 1024 * i + j ensures AtPage(pages', pd, w) == AtPage(pages, pd, w) {
      HiLo(w);
    }
  }
}
