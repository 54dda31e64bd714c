/** Every run of allocations and valid frees: what stays true of the pool and of the live blocks. */
module LmmRuns {
  import opened Bits
  import opened Align
  import opened FreeList
  import opened Pool
  import opened LmmRanges

  datatype Block = Block(addr: int, size: int)

  /** The pool, and the blocks handed out and not yet given back. */
  datatype State = State(pool: seq<Region>, live: seq<Block>)

  function Lo(b: Block): int { Down8(b.addr) }

  function Hi(b: Block): int { Up8(b.addr + b.size) }

  predicate Apart(b: Block, c: Block) { Hi(b) <= Lo(c) || Hi(c) <= Lo(b) }

  /** The block's granules lie in one region and none of its bytes is free. */
  ghost predicate Held(p: seq<Region>, b: Block)
  {
    exists g: nat :: Freeable(p, b.addr, b.size, g)
  }

  ghost predicate Inv(s: State)
  {
    && PoolOk(s.pool)
    && (forall i :: 0 <= i < |s.live| ==> Held(s.pool, s.live[i]))
    && (forall i, j :: 0 <= i < j < |s.live| ==> Apart(s.live[i], s.live[j]))
  }

  ghost function LiveBytes(live: seq<Block>): int
  {
    if |live| == 0 then 0 else Hi(live[0]) - Lo(live[0]) + LiveBytes(live[1..])
  }

  /** Free bytes and live bytes, both in whole granules. */
  ghost function Bytes(s: State): int { PoolTotal(s.pool) + LiveBytes(s.live) }

  function Without(live: seq<Block>, i: nat): seq<Block>
    requires i < |live|
  {
    live[..i] + live[i + 1..]
  }

  ghost predicate AllocStep(s: State, s': State, q: Request, addr: int)
  {
    && q.size > 0 && q.lo >= 0 && AllocOutcome(s.pool, s'.pool, q, addr)
    && s'.live == if addr == 0 then s.live else s.live + [Block(addr, q.size)]
  }

  ghost predicate FreeStep(s: State, s': State, i: nat, g: nat)
  {
    && i < |s.live| && FreedIn(s.pool, s'.pool, s.live[i].addr, s.live[i].size, g)
    && s'.live == Without(s.live, i)
  }

  ghost predicate Step(s: State, s': State)
  {
    || (exists q, addr :: AllocStep(s, s', q, addr))
    || (exists i: nat, g: nat :: FreeStep(s, s', i, g))
  }

  /** The step from state `i` to the next. */
  ghost predicate StepAt(tr: seq<State>, i: int)
    requires 0 <= i < |tr| - 1
  {
    Step(tr[i], tr[i + 1])
  }

  /** Any finite run from a pool in order with nothing handed out. */
  ghost predicate Run(tr: seq<State>)
  {
    && |tr| > 0 && PoolOk(tr[0].pool) && tr[0].live == []
    && forall i :: 0 <= i < |tr| - 1 ==> StepAt(tr, i)
  }

  // ----- one allocation

  lemma ApartFrom(p: seq<Region>, b: Block, i: nat, lo: int, hi: int)
    requires PoolOk(p) && i < |p| && Held(p, b) && lo < hi && AllFree(p[i].nodes, lo, hi - lo)
    requires p[i].min <= lo && hi <= p[i].max
    ensures Hi(b) <= lo || hi <= Lo(b)
  {
    var g: nat :| Freeable(p, b.addr, b.size, g);
    var x := if lo < Lo(b) then Lo(b) else lo;
    assert x < hi ==> IsFree(p[i].nodes, x);
  }

  lemma StillHeld(p: seq<Region>, p': seq<Region>, b: Block, i: nat, lo: int, hi: int)
    requires Held(p, b) && i < |p| == |p'| && p' == p[i := p'[i]] && Taken(p[i], p'[i], lo, hi)
    ensures Held(p', b)
  {
    var g: nat :| Freeable(p, b.addr, b.size, g);
    assert Freeable(p', b.addr, b.size, g);
  }

  lemma NewlyHeld(p: seq<Region>, p': seq<Region>, q: Request, addr: int, i: nat)
    requires PoolOk(p) && q.size > 0 && q.lo >= 0 && ServedBy(p, p', q, addr, i)
    ensures Held(p', Block(addr, q.size)) && p[i].min <= Down8(addr) < Up8(addr + q.size) <= p[i].max
    ensures AllFree(p[i].nodes, Down8(addr), Up8(addr + q.size) - Down8(addr))
  {
    PlacementRegion(p[i], q, addr);
    Rounding(addr);
    Rounding(addr + q.size);
    assert Freeable(p', addr, q.size, i);
  }

  lemma AllocKeeps(s: State, s': State, q: Request, addr: int, i: nat)
    requires Inv(s) && AllocStep(s, s', q, addr) && addr != 0 && ServedBy(s.pool, s'.pool, q, addr, i)
    ensures Inv(s')
  {
    var b := Block(addr, q.size);
    AllocPool(s, s', q, addr, i);
    AllocApart(s, s', q, addr, i);
    LiveAndNew(s, s', b);
  }

  lemma AllocPool(s: State, s': State, q: Request, addr: int, i: nat)
    requires PoolOk(s.pool) && q.size > 0 && q.lo >= 0 && ServedBy(s.pool, s'.pool, q, addr, i)
    ensures PoolOk(s'.pool) && Held(s'.pool, Block(addr, q.size))
  {
    NewlyHeld(s.pool, s'.pool, q, addr, i);
    ReplaceRegion(s.pool, i, s'.pool[i]);
  }

  lemma AllocApart(s: State, s': State, q: Request, addr: int, i: nat)
    requires Inv(s) && q.size > 0 && q.lo >= 0 && ServedBy(s.pool, s'.pool, q, addr, i)
    ensures forall j :: 0 <= j < |s.live| ==> Held(s'.pool, s.live[j]) && Apart(s.live[j], Block(addr, q.size))
  {
    NewlyHeld(s.pool, s'.pool, q, addr, i);
    LiveBesides(s, s'.pool, Block(addr, q.size), i);
  }

  lemma LiveAndNew(s: State, s': State, b: Block)
    requires Inv(s) && PoolOk(s'.pool) && s'.live == s.live + [b] && Held(s'.pool, b)
    requires forall j :: 0 <= j < |s.live| ==> Held(s'.pool, s.live[j]) && Apart(s.live[j], b)
    ensures Inv(s')
  {
  }

  lemma LiveBesides(s: State, p': seq<Region>, b: Block, i: nat)
    requires Inv(s) && i < |s.pool| == |p'| && p' == s.pool[i := p'[i]]
    requires Taken(s.pool[i], p'[i], Lo(b), Hi(b)) && AllFree(s.pool[i].nodes, Lo(b), Hi(b) - Lo(b)) && Lo(b) < Hi(b)
    requires s.pool[i].min <= Lo(b) && Hi(b) <= s.pool[i].max
    ensures forall j :: 0 <= j < |s.live| ==> Held(p', s.live[j]) && Apart(s.live[j], b)
  {
    forall j | 0 <= j < |s.live| ensures Held(p', s.live[j]) && Apart(s.live[j], b) {
      StillHeld(s.pool, p', s.live[j], i, Lo(b), Hi(b));
      ApartFrom(s.pool, s.live[j], i, Lo(b), Hi(b));
    }
  }

  lemma AllocConserves(s: State, s': State, q: Request, addr: int, i: nat)
    requires AllocStep(s, s', q, addr) && addr != 0 && ServedBy(s.pool, s'.pool, q, addr, i)
    ensures Bytes(s') == Bytes(s)
  {
    var b := Block(addr, q.size);
    PoolTotalUpdate(s.pool, i, s'.pool[i]);
    LiveConcat(s.live, [b]);
    LiveOne(b);
  }

  lemma {:induction false} LiveConcat(a: seq<Block>, b: seq<Block>)
    ensures LiveBytes(a + b) == LiveBytes(a) + LiveBytes(b)
  {
    if |a| == 0 {
      assert a + b == b;
    } else {
      assert (a + b)[1..] == a[1..] + b;
      LiveConcat(a[1..], b);
    }
  }

  lemma LiveOne(b: Block)
    ensures LiveBytes([b]) == Hi(b) - Lo(b)
  {
    assert [b][1..] == [];
  }

  // ----- one free

  lemma LiveWithout(live: seq<Block>, i: nat)
    requires i < |live|
    ensures LiveBytes(Without(live, i)) == LiveBytes(live) - (Hi(live[i]) - Lo(live[i]))
  {
    LiveConcat(live[..i], live[i + 1..]);
    LiveAt(live, i);
    assert live[i..][1..] == live[i + 1..];
  }

  lemma LiveAt(live: seq<Block>, i: nat)
    requires i <= |live|
    ensures LiveBytes(live) == LiveBytes(live[..i]) + LiveBytes(live[i..])
  {
    LiveConcat(live[..i], live[i..]);
    assert live == live[..i] + live[i..];
  }

  lemma HeldAfterFree(p: seq<Region>, p': seq<Region>, b: Block, c: Block, g: nat)
    requires Held(p, b) && FreedIn(p, p', c.addr, c.size, g) && Apart(b, c)
    ensures Held(p', b)
  {
    var h: nat :| Freeable(p, b.addr, b.size, h);
    assert Freeable(p', b.addr, b.size, h);
  }

  /** Position `j` of the shortened list was position `From(i, j)` before. */
  function From(i: nat, j: nat): nat { if j < i then j else j + 1 }

  lemma WithoutApart(live: seq<Block>, i: nat)
    requires i < |live| && forall j, k :: 0 <= j < k < |live| ==> Apart(live[j], live[k])
    ensures forall j, k :: 0 <= j < k < |Without(live, i)| ==> Apart(Without(live, i)[j], Without(live, i)[k])
  {
    var w := Without(live, i);
    forall j, k | 0 <= j < k < |w| ensures Apart(w[j], w[k]) {
      assert w[j] == live[From(i, j)] && w[k] == live[From(i, k)];
    }
  }

  lemma WithoutHeld(s: State, s': State, i: nat, g: nat)
    requires Inv(s) && FreeStep(s, s', i, g)
    ensures forall j :: 0 <= j < |s'.live| ==> Held(s'.pool, s'.live[j])
  {
    forall j: nat | j < |s'.live| ensures Held(s'.pool, s'.live[j]) {
      OtherHeld(s, s', i, g, j);
    }
  }

  lemma OtherHeld(s: State, s': State, i: nat, g: nat, j: nat)
    requires Inv(s) && FreeStep(s, s', i, g) && j < |s'.live|
    ensures Held(s'.pool, s'.live[j])
  {
    assert s'.live[j] == s.live[From(i, j)];
    OthersApart(s, i, From(i, j));
    HeldAfterFree(s.pool, s'.pool, s.live[From(i, j)], s.live[i], g);
  }

  lemma FreeKeeps(s: State, s': State, i: nat, g: nat)
    requires Inv(s) && FreeStep(s, s', i, g)
    ensures Inv(s')
  {
    ReplaceRegion(s.pool, g, s'.pool[g]);
    WithoutHeld(s, s', i, g);
    WithoutApart(s.live, i);
  }

  lemma OthersApart(s: State, i: nat, j: nat)
    requires Inv(s) && i < |s.live| && j < |s.live| && i != j
    ensures Held(s.pool, s.live[j]) && Apart(s.live[j], s.live[i])
  {
    assert if i < j then Apart(s.live[i], s.live[j]) else Apart(s.live[j], s.live[i]);
  }

  lemma FreeConserves(s: State, s': State, i: nat, g: nat)
    requires FreeStep(s, s', i, g)
    ensures Bytes(s') == Bytes(s)
  {
    PoolTotalUpdate(s.pool, g, s'.pool[g]);
    LiveWithout(s.live, i);
  }

  // ----- runs

  lemma StepKeeps(s: State, s': State)
    requires Inv(s) && Step(s, s')
    ensures Inv(s') && Bytes(s') == Bytes(s)
  {
    if q, addr :| AllocStep(s, s', q, addr) {
      if addr != 0 {
        var i: nat :| ServedBy(s.pool, s'.pool, q, addr, i);
        AllocKeeps(s, s', q, addr, i);
        AllocConserves(s, s', q, addr, i);
      }
    } else {
      var i: nat, g: nat :| FreeStep(s, s', i, g);
      FreeKeeps(s, s', i, g);
      FreeConserves(s, s', i, g);
    }
  }

  lemma Advance(tr: seq<State>, i: nat)
    requires i + 1 < |tr| && Run(tr) && Inv(tr[i])
    ensures Inv(tr[i + 1]) && Bytes(tr[i + 1]) == Bytes(tr[i])
  {
    assert StepAt(tr, i);
    StepKeeps(tr[i], tr[i + 1]);
  }

  /** In every state of every run the invariant holds and no byte has been lost or gained. */
  lemma {:induction false} EveryRun(tr: seq<State>, n: nat)
    requires Run(tr) && n < |tr|
    ensures Inv(tr[n])
    ensures Bytes(tr[n]) == PoolTotal(tr[0].pool)
  {
    if n > 0 {
      EveryRun(tr, n - 1);
      Advance(tr, n - 1);
    }
  }

  /** What the invariant says of single bytes: no byte is in two live blocks, or in one and free. */
  lemma BytesApart(s: State, i: nat, a: int)
    requires Inv(s) && i < |s.live| && Lo(s.live[i]) <= a < Hi(s.live[i])
    ensures !PoolFree(s.pool, a)
    ensures forall j :: 0 <= j < |s.live| && j != i ==> !(Lo(s.live[j]) <= a < Hi(s.live[j]))
  {
    HeldByte(s.pool, s.live[i], a);
    forall j | 0 <= j < |s.live| && j != i ensures !(Lo(s.live[j]) <= a < Hi(s.live[j])) {
      assert if i < j then Apart(s.live[i], s.live[j]) else Apart(s.live[j], s.live[i]);
    }
  }

  lemma HeldByte(p: seq<Region>, b: Block, a: int)
    requires PoolOk(p) && Held(p, b) && Lo(b) <= a < Hi(b)
    ensures !PoolFree(p, a)
  {
    var g: nat :| Freeable(p, b.addr, b.size, g);
    forall j | 0 <= j < |p| && j != g ensures !IsFree(p[j].nodes, a) {
      FreeElsewhere(p, j, g, a);
    }
  }

  lemma FreeElsewhere(p: seq<Region>, j: nat, g: nat, a: int)
    requires PoolOk(p) && j < |p| && g < |p| && j != g && p[g].min <= a < p[g].max
    ensures !IsFree(p[j].nodes, a)
  {
    if IsFree(p[j].nodes, a) { RegionByte(p, j, a); }
  }
}
