/**
 * The physical frame allocator: one reference count per frame and a cursor that moves up past the
 * frames in use and jumps back to a frame whose last reference is released. Each frame's `next`
 * pointer names the frame above it; the last frame has none.
 */
module Frames {

  datatype Frames = Frames(refs: seq<nat>, cursor: nat, free: int)

  /** The cursor names a frame that nobody holds. */
  ghost predicate Ok(f: Frames)
  {
    |f.refs| == 65536 && f.cursor < |f.refs| && f.refs[f.cursor] == 0
  }

  /** The first unused frame at or above `k`; |refs| when there is none. */
  ghost function NextZero(refs: seq<nat>, k: nat): (r: nat)
    requires k <= |refs|
    ensures k <= r <= |refs| && (r < |refs| ==> refs[r] == 0) && forall i :: k <= i < r ==> refs[i] != 0
    decreases |refs| - k
  {
    if k == |refs| || refs[k] == 0 then k else NextZero(refs, k + 1)
  }

  /** How many unused frames there are at or above `k`. */
  ghost function Zeros(refs: seq<nat>, k: nat): nat
    requires k <= |refs|
    decreases |refs| - k
  {
    if k == |refs| then 0 else (if refs[k] == 0 then 1 else 0) + Zeros(refs, k + 1)
  }

  lemma {:induction false} ZerosSame(refs: seq<nat>, refs': seq<nat>, k: nat)
    requires k <= |refs| == |refs'| && forall i :: k <= i < |refs| ==> refs[i] == refs'[i]
    ensures Zeros(refs', k) == Zeros(refs, k)
    decreases |refs| - k
  {
    if k < |refs| { ZerosSame(refs, refs', k + 1); }
  }

  lemma {:induction false} ZerosSkip(refs: seq<nat>, k: nat)
    requires k <= |refs|
    ensures Zeros(refs, NextZero(refs, k)) == Zeros(refs, k)
    decreases |refs| - k
  {
    if k < |refs| && refs[k] != 0 { ZerosSkip(refs, k + 1); }
  }

  ghost function Acquired(f: Frames): Frames
    requires Ok(f)
  {
    var refs := f.refs[f.cursor := f.refs[f.cursor] + 1];
    Frames(refs, NextZero(refs, f.cursor), f.free - 1)
  }

  ghost function Released(f: Frames, k: nat): Frames
    requires Ok(f) && k < |f.refs| && f.refs[k] >= 1
  {
    Frames(f.refs[k := f.refs[k] - 1], if f.refs[k] == 1 then k else f.cursor, f.free + 1)
  }

  /** The frames still to be handed out without a release, counting the one under the cursor. */
  ghost function Ahead(f: Frames): nat
    requires Ok(f)
  {
    Zeros(f.refs, f.cursor)
  }

  /** An acquisition leaves the cursor on a free frame exactly when there is another one above it. */
  lemma AcquireKeeps(f: Frames)
    requires Ok(f)
    ensures Ok(Acquired(f)) <==> Ahead(f) >= 2
    ensures Ok(Acquired(f)) ==> Ahead(Acquired(f)) == Ahead(f) - 1
  {
    var g := Acquired(f);
    ZerosSame(f.refs, g.refs, f.cursor + 1);
    ZerosSkip(g.refs, f.cursor);
    assert g.refs[f.cursor] == 1;
    assert Zeros(g.refs, g.cursor) == Ahead(f) - 1;
  }

  /** `n` acquisitions in a row, each of which leaves the cursor on a free frame. */
  ghost predicate Serves(f: Frames, n: nat)
    requires Ok(f)
    decreases n
  {
    n == 0 || (Ok(Acquired(f)) && Serves(Acquired(f), n - 1))
  }

  /** That many frames can be acquired exactly when there is one more at or above the cursor. */
  lemma {:induction false} ServesExactly(f: Frames, n: nat)
    requires Ok(f)
    ensures Serves(f, n) <==> Ahead(f) > n
    decreases n
  {
    AcquireKeeps(f);
    if n > 0 && Ok(Acquired(f)) { ServesExactly(Acquired(f), n - 1); }
  }

  lemma ReleaseKeeps(f: Frames, k: nat)
    requires Ok(f) && k < |f.refs| && f.refs[k] >= 1
    ensures Ok(Released(f, k))
  {
  }

  // ----- runs

  datatype Event = Take | Give(frame: nat)

  ghost predicate Allowed(f: Frames, e: Event)
    requires Ok(f)
  {
    match e
    case Take => Ahead(f) >= 2
    case Give(k) => k < |f.refs| && f.refs[k] >= 1
  }

  ghost function After(f: Frames, e: Event): Frames
    requires Ok(f) && Allowed(f, e)
  {
    match e
    case Take => Acquired(f)
    case Give(k) => Released(f, k)
  }

  /** The state after init_free_frame on a machine that reports `total` frames. */
  ghost function Start(total: int): Frames { Frames(seq(65536, i => 0), 0, total) }

  /** Event `i`, allowed where it happens and with its effect. */
  ghost predicate EventAt(fs: seq<Frames>, es: seq<Event>, i: int)
    requires 0 <= i < |es| && |fs| == |es| + 1 && Ok(fs[i])
  {
    Allowed(fs[i], es[i]) && fs[i + 1] == After(fs[i], es[i])
  }

  /** The states of a run: every event allowed where it happens. */
  ghost predicate Run(fs: seq<Frames>, es: seq<Event>, total: int)
  {
    && |fs| == |es| + 1 && fs[0] == Start(total)
    && forall i :: 0 <= i < |es| && Ok(fs[i]) ==> EventAt(fs, es, i)
  }

  /** The frames handed out and not yet given back after the first `n` events. */
  ghost function Held(fs: seq<Frames>, es: seq<Event>, n: nat): multiset<nat>
    requires n <= |es| && |fs| == |es| + 1
  {
    if n == 0 then multiset{}
    else HeldAfter(fs[n - 1], es[n - 1], Held(fs, es, n - 1))
  }

  /** Reference counts are exactly the frames held, and free_frame_num is what is left of the total. */
  ghost predicate Accounted(f: Frames, held: multiset<nat>, total: int)
  {
    (forall k :: 0 <= k < |f.refs| ==> held[k] == f.refs[k]) && f.free == total - |held|
  }

  lemma TakeAccounted(f: Frames, held: multiset<nat>, total: int)
    requires Ok(f) && Accounted(f, held, total)
    ensures Accounted(Acquired(f), held + multiset{f.cursor}, total)
  {
  }

  lemma GiveAccounted(f: Frames, held: multiset<nat>, total: int, k: nat)
    requires Ok(f) && k < |f.refs| && f.refs[k] >= 1 && Accounted(f, held, total)
    ensures Accounted(Released(f, k), held - multiset{k}, total)
  {
    assert held[k] >= 1;
    assert held == (held - multiset{k}) + multiset{k};
  }

  lemma {:induction false} EveryRun(fs: seq<Frames>, es: seq<Event>, total: int, n: nat)
    requires Run(fs, es, total) && n <= |es|
    ensures Ok(fs[n]) && Accounted(fs[n], Held(fs, es, n), total)
  {
    if n > 0 {
      EveryRun(fs, es, total, n - 1);
      assert EventAt(fs, es, n - 1);
      EventKeeps(fs[n - 1], es[n - 1], Held(fs, es, n - 1), total);
    }
  }

  ghost function HeldAfter(f: Frames, e: Event, held: multiset<nat>): multiset<nat>
  {
    match e
    case Take => held + multiset{f.cursor}
    case Give(k) => held - multiset{k}
  }

  lemma EventKeeps(f: Frames, e: Event, held: multiset<nat>, total: int)
    requires Ok(f) && Allowed(f, e) && Accounted(f, held, total)
    ensures Ok(After(f, e)) && Accounted(After(f, e), HeldAfter(f, e, held), total)
  {
    match e
    case Take => AcquireKeeps(f); TakeAccounted(f, held, total);
    case Give(k) => ReleaseKeeps(f, k); GiveAccounted(f, held, total, k);
  }

  /** No frame is handed out while it is held. */
  lemma NeverTwice(fs: seq<Frames>, es: seq<Event>, total: int, n: nat)
    requires Run(fs, es, total) && n <= |es|
    ensures fs[n].cursor !in Held(fs, es, n)
  {
    EveryRun(fs, es, total, n);
  }

  // ----- start-up

  /** After `n` acquisitions at start-up the frames below `n` are held once and the cursor is at `n`. */
  ghost predicate Filled(f: Frames, n: nat, total: int)
  {
    && |f.refs| == 65536 && f.cursor == n < 65536 && f.free == total - n
    && (forall i :: 0 <= i < n ==> f.refs[i] == 1) && forall i :: n <= i < 65536 ==> f.refs[i] == 0
  }

  lemma {:induction false} ZerosAll(refs: seq<nat>, k: nat)
    requires k <= |refs| && forall i :: k <= i < |refs| ==> refs[i] == 0
    ensures Zeros(refs, k) == |refs| - k
    decreases |refs| - k
  {
    if k < |refs| { ZerosAll(refs, k + 1); }
  }

  lemma FillOne(f: Frames, n: nat, total: int)
    requires Filled(f, n, total) && n < 65535
    ensures Ok(f) && Ahead(f) >= 2 && Filled(Acquired(f), n + 1, total)
  {
    ZerosAll(f.refs, n);
    var g := Acquired(f);
    assert g.refs[n] == 1 && g.refs[n + 1] == 0;
    assert g.cursor <= n + 1;
  }

  // ----- free_frame_num promises too much

  /** The frames below `n` held once each. */
  ghost function FilledTo(n: nat, total: int): Frames
    requires n < 65536
  {
    Frames(seq(65536, i => if i < n then 1 else 0), n, total - n)
  }

  lemma FillNext(n: nat, total: int)
    requires n < 65535
    ensures Ok(FilledTo(n, total)) && Allowed(FilledTo(n, total), Take)
    ensures After(FilledTo(n, total), Take) == FilledTo(n + 1, total)
  {
    var f, g := FilledTo(n, total), FilledTo(n + 1, total);
    FillOne(f, n, total);
    assert Acquired(f).refs == g.refs;
  }

  lemma FillRun(n: nat, total: int) returns (fs: seq<Frames>, es: seq<Event>)
    requires n < 65536
    ensures Run(fs, es, total) && |es| == n && fs[n] == FilledTo(n, total)
  {
    fs := seq(n + 1, i requires 0 <= i <= n => FilledTo(i, total));
    es := seq(n, i => Take);
    assert FilledTo(0, total).refs == Start(total).refs;
    forall i | 0 <= i < |es| && Ok(fs[i]) ensures EventAt(fs, es, i) {
      FillNext(i, total);
    }
  }

  lemma RunMore(fs: seq<Frames>, es: seq<Event>, total: int, e: Event)
    requires Run(fs, es, total) && Ok(fs[|es|]) && Allowed(fs[|es|], e)
    ensures Run(fs + [After(fs[|es|], e)], es + [e], total)
  {
    var fs', es' := fs + [After(fs[|es|], e)], es + [e];
    forall i | 0 <= i < |es'| && Ok(fs'[i]) ensures EventAt(fs', es', i) {
      if i < |es| { assert EventAt(fs, es, i); }
    }
  }

  /** Frames 5 and 10 given back, in that order, to a machine with one frame left. */
  lemma AfterGiving(f: Frames, total: int) returns (g: Frames, h: Frames)
    requires f == FilledTo(65535, total)
    ensures Ok(f) && f.refs[5] == 1 && g == Released(f, 5)
    ensures Ok(g) && g.refs[10] == 1 && h == Released(g, 10)
    ensures Ok(h) && h.free == total - 65533 && h.cursor == 10 && h.refs[65535] == 0
    ensures forall k :: 10 < k < 65535 ==> h.refs[k] == 1
  {
    g := Released(f, 5);
    h := Released(g, 10);
  }

  lemma {:induction false} NoZeros(refs: seq<nat>, k: nat, n: nat)
    requires k <= n <= |refs| && forall i :: k <= i < n ==> refs[i] != 0
    ensures Zeros(refs, k) == Zeros(refs, n)
    decreases n - k
  {
    if k < n { NoZeros(refs, k + 1, n); }
  }

  /**
   * A run after which free_frame_num is 3 on a machine of 65536 frames, and yet only one more
   * acquisition leaves the cursor on a free frame: the frame given back first is below the cursor.
   * A request for two or three pages passes the test of free_frame_num and cannot be completed.
   */
  lemma FreeCountMisleads() returns (fs: seq<Frames>, es: seq<Event>)
    ensures Run(fs, es, 65536) && Ok(fs[|es|]) && fs[|es|].free == 3 && Ahead(fs[|es|]) == 2
    ensures Serves(fs[|es|], 1) && !Serves(fs[|es|], 2) && !Serves(fs[|es|], 3)
  {
    fs, es := FillRun(65535, 65536);
    var g, h := AfterGiving(fs[65535], 65536);
    RunMore(fs, es, 65536, Give(5));
    assert After(fs[|es|], Give(5)) == g && After(g, Give(10)) == h;
    assert (fs + [g])[|es + [Give(5)]|] == g;
    RunMore(fs + [g], es + [Give(5)], 65536, Give(10));
    fs, es := fs + [g] + [h], es + [Give(5)] + [Give(10)];
    NoZeros(h.refs, 11, 65535);
    assert Zeros(h.refs, 65535) == 1;
    ServesExactly(h, 1);
    ServesExactly(h, 2);
    ServesExactly(h, 3);
  }
}
