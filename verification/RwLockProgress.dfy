/**
 * What the reader/writer lock does let happen: every semaphore is held or free, readers enter
 * together and again, an operation takes a bounded number of its own steps, and a state in which
 * nobody can go on is, but for a lost `w`, a deadlock of a leaving and an arriving writer.
 */
module RwLockProgress {
  import opened RwLock

  // ----- semaphores are held or free

  ghost function Holders(s: State, x: Sem): set<Tid> { set t | t in s.pc && Holds(x, s.pc[t]) }

  /** In every state of every run each of the four semaphores and its holders add up to one. */
  lemma RunTokens(tr: seq<State>, n: nat, x: Sem)
    requires Run(tr) && n < |tr|
    ensures x in tr[n].sem && tr[n].sem[x] + |Holders(tr[n], x)| == 1
  {
    EveryRun(tr, n);
    assert TokenOk(tr[n], x);
    if Held(tr[n], x) {
      var t :| t in tr[n].pc && Holds(x, tr[n].pc[t]);
      forall u ensures u in Holders(tr[n], x) <==> u == t {}
      assert Holders(tr[n], x) == {t};
    } else {
      forall u ensures u !in Holders(tr[n], x) {}
      assert Holders(tr[n], x) == {};
    }
  }

  /** `w` is free exactly if neither the readers nor a writer have it and no writer has ever unlocked. */
  lemma RunW(tr: seq<State>, n: nat)
    requires Run(tr) && n < |tr|
    ensures 0 <= tr[n].w <= 1
    ensures tr[n].w == 1 <==>
      !GroupHoldsW(tr[n]) && (forall t :: t in tr[n].pc ==> !HoldsW(tr[n].pc[t])) && !WriterUnlocked(tr, n)
  {
    EveryRun(tr, n);
    LostExactly(tr, n);
  }

  // ----- who can move

  /** In the middle of an operation. */
  predicate Mid(p: PC) { !p.Idle? && !p.Reading? && !p.Writing? }

  ghost predicate Moves(s: State, t: Tid) { exists s' :: StepOf(s, s', t) && s' != s }

  /** What a position waits for. */
  datatype Wait = Nothing | On(x: Sem) | OnW

  function Awaits(p: PC): Wait
  {
    match p
    case Read(r) => (match r case WaitGen => On(Gen) case WaitR => On(R) case WaitRCnt => On(RCnt) case WaitW => OnW case _ => Nothing)
    case Write(w) => (match w case WWaitWCnt => On(WCnt) case WWaitR => On(R) case WWaitW => OnW case _ => Nothing)
    case Leave(l) => if l.LWaitRCnt? then On(RCnt) else Nothing
    case Quit(q) => if q.QWaitWCnt? then On(WCnt) else Nothing
    case Down(d) => if d.DWaitWCnt? then On(WCnt) else if d.DWaitRCnt? then On(RCnt) else Nothing
    case _ => Nothing
  }

  ghost predicate Lacking(s: State, a: Wait)
  {
    match a
    case Nothing => false
    case On(x) => x in s.sem && s.sem[x] <= 0
    case OnW => s.w <= 0
  }

  function Next(s: State, t: Tid): State
    requires HasSems(s) && t in s.pc && Mid(s.pc[t])
  {
    match s.pc[t]
    case Read(r) => NextRead(s, t, r)
    case Write(w) => NextWrite(s, t, w)
    case Leave(l) => NextLeave(s, t, l)
    case Quit(q) => NextQuit(s, t, q)
    case Down(d) => NextDown(s, t, d)
    case Unlock(_) => Go(s, t, if s.readcnt > 0 then Leave(LWaitRCnt) else Quit(QWaitWCnt))
  }

  /** A thread in the middle of an operation has one next step, which it takes unless it must wait. */
  lemma NextMoves(s: State, t: Tid)
    requires HasSems(s) && t in s.pc && Mid(s.pc[t])
    ensures StepOf(s, Next(s, t), t) && Next(s, t).pc.Keys == s.pc.Keys
    ensures Next(s, t).pc[t] != s.pc[t] <==> !Lacking(s, Awaits(s.pc[t]))
  {
    match s.pc[t]
    case Read(r) =>
    case Write(w) =>
    case Leave(l) =>
    case Quit(q) =>
    case Down(d) =>
    case Unlock(_) =>
  }

  lemma BlockedWhere(s: State, t: Tid)
    requires HasSems(s) && t in s.pc && Mid(s.pc[t]) && !Moves(s, t)
    ensures Lacking(s, Awaits(s.pc[t]))
  {
    NextMoves(s, t);
    assert StepOf(s, Next(s, t), t);
  }

  // ----- every operation ends after a bounded number of the thread's own steps

  function Rank(p: PC): nat
  {
    match p
    case Read(r) => ReadRank(r)
    case Write(w) => WriteRank(w)
    case Leave(l) => LeaveRank(l)
    case Quit(q) => QuitRank(q)
    case Down(d) => DownRank(d)
    case Unlock(_) => 7
    case _ => 0
  }

  function ReadRank(r: ReadAt): nat
  {
    match r
    case WaitGen => 10 case WaitR => 9 case WaitRCnt => 8 case Count => 7 case Add(_) => 6
    case First => 5 case WaitW => 4 case FreeRCnt => 3 case FreeR => 2 case FreeGen => 1
  }

  function WriteRank(w: WriteAt): nat
  {
    match w
    case WWaitWCnt => 6 case WCount => 5 case WAdd(_) => 4 case WWaitR => 3 case WWaitW => 2 case WFreeWCnt => 1
  }

  function LeaveRank(l: LeaveAt): nat
  {
    match l
    case LWaitRCnt => 6 case LUncount => 5 case LSub(_) => 4 case LLast => 3 case LFreeW => 2 case LFreeRCnt => 1
  }

  function QuitRank(q: QuitAt): nat
  {
    match q
    case QWaitWCnt => 6 case QUncount => 5 case QSub(_) => 4 case QLast => 3 case QFreeR => 2 case QFreeWCnt => 1
  }

  function DownRank(d: DownAt): nat
  {
    match d
    case DWaitWCnt => 9 case DWaitRCnt => 8 case DUncount => 7 case DSub(_) => 6 case DCount => 5
    case DAdd(_) => 4 case DFreeRCnt => 3 case DFreeWCnt => 2 case DFreeR => 1
  }

  /** The thread is nearer to the end of its operation, and no other thread has moved. */
  ghost predicate Ahead(s: State, s': State, t: Tid)
  {
    && t in s.pc && s'.pc.Keys == s.pc.Keys && Rank(s'.pc[t]) < Rank(s.pc[t]) <= 10
    && (Rank(s'.pc[t]) == 0 <==> !Mid(s'.pc[t]))
    && forall u :: u in s.pc && u != t ==> s'.pc[u] == s.pc[u]
  }

  /** Each step brings its thread nearer to the end of the operation and moves no other thread. */
  lemma StepsAhead(s: State, s': State, t: Tid)
    requires StepOf(s, s', t) && Mid(s.pc[t]) && s' != s
    ensures Ahead(s, s', t)
  {
    match s.pc[t]
    case Read(r) => ReadAhead(s, t, r);
    case Write(w) => WriteAhead(s, t, w);
    case Leave(l) => LeaveAhead(s, t, l);
    case Quit(q) => QuitAhead(s, t, q);
    case Down(d) => DownAhead(s, t, d);
    case Unlock(_) =>
  }

  lemma ReadAhead(s: State, t: Tid, r: ReadAt)
    requires HasSems(s) && t in s.pc && s.pc[t] == Read(r)
    ensures NextRead(s, t, r) != s ==> Ahead(s, NextRead(s, t, r), t)
  {
  }

  lemma WriteAhead(s: State, t: Tid, w: WriteAt)
    requires HasSems(s) && t in s.pc && s.pc[t] == Write(w)
    ensures NextWrite(s, t, w) != s ==> Ahead(s, NextWrite(s, t, w), t)
  {
  }

  lemma LeaveAhead(s: State, t: Tid, l: LeaveAt)
    requires HasSems(s) && t in s.pc && s.pc[t] == Leave(l)
    ensures NextLeave(s, t, l) != s ==> Ahead(s, NextLeave(s, t, l), t)
  {
  }

  lemma QuitAhead(s: State, t: Tid, q: QuitAt)
    requires HasSems(s) && t in s.pc && s.pc[t] == Quit(q)
    ensures NextQuit(s, t, q) != s ==> Ahead(s, NextQuit(s, t, q), t)
  {
  }

  lemma DownAhead(s: State, t: Tid, d: DownAt)
    requires HasSems(s) && t in s.pc && s.pc[t] == Down(d)
    ensures NextDown(s, t, d) != s ==> Ahead(s, NextDown(s, t, d), t)
  {
  }

  // ----- deadlock

  /** Somebody is in the middle of an operation, nobody is inside, and nobody in the middle can move. */
  ghost predicate Frozen(s: State)
  {
    && (exists t :: t in s.pc && Mid(s.pc[t]))
    && (forall t :: t in s.pc ==> !s.pc[t].Reading? && !s.pc[t].Writing?)
    && (forall t :: t in s.pc && Mid(s.pc[t]) ==> !Moves(s, t))
  }

  /** A writer inside has begun to leave or to downgrade while another has begun to arrive. */
  ghost predicate Deadlock(s: State, t: Tid, u: Tid)
  {
    && t in s.pc && (s.pc[t] == Quit(QWaitWCnt) || s.pc[t] == Down(DWaitWCnt))
    && u in s.pc && s.pc[u] == Write(WWaitR)
  }

  /** In a frozen state every thread in the middle of something lacks what its position waits for. */
  lemma AllLack(s: State, t: Tid)
    requires Inv(s) && Frozen(s) && t in s.pc && !s.pc[t].Idle?
    ensures HasSems(s) && Mid(s.pc[t]) && Lacking(s, Awaits(s.pc[t]))
  {
    assert TokenOk(s, Gen) && TokenOk(s, R) && TokenOk(s, RCnt) && TokenOk(s, WCnt);
    BlockedWhere(s, t);
  }

  /** What a thread that has `w` for itself can be waiting for. */
  lemma WriterStuck(s: State, t: Tid)
    requires Inv(s) && Frozen(s) && t in s.pc && HoldsW(s.pc[t])
    ensures HoldsR(s.pc[t]) && Awaits(s.pc[t]).On?
  {
    AllLack(s, t);
  }

  lemma NoneLast(s: State)
    requires Inv(s) && Frozen(s)
    ensures !LastPending(s)
  {
    forall t | t in s.pc ensures !LastAt(s.pc[t], s.readcnt) {
      if LastAt(s.pc[t], s.readcnt) { AllLack(s, t); }
    }
  }

  lemma SameHolder(s: State, x: Sem, t: Tid, u: Tid)
    requires Inv(s) && t in s.pc && u in s.pc && Holds(x, s.pc[t]) && Holds(x, s.pc[u])
    ensures t == u
  {
    assert TokenOk(s, x);
  }

  /** A first reader always gets `w`: whoever else had it would hold `r` too. */
  lemma NoReaderAwaitsW(s: State, t: Tid)
    requires Inv(s) && !Leaked(s) && Frozen(s) && t in s.pc
    ensures s.pc[t] != Read(WaitW)
  {
    if s.pc[t] == Read(WaitW) {
      AllLack(s, t);
      NoneLast(s);
      assert FirstAt(s.pc[t], s.readcnt);
      var u :| u in s.pc && HoldsW(s.pc[u]);
      WriterStuck(s, u);
      SameHolder(s, R, t, u);
    }
  }

  lemma RCntFree(s: State)
    requires Inv(s) && !Leaked(s) && Frozen(s)
    ensures RCnt in s.sem && s.sem[RCnt] > 0
  {
    assert TokenOk(s, RCnt);
    if s.sem[RCnt] == 0 {
      var t :| t in s.pc && Holds(RCnt, s.pc[t]);
      AllLack(s, t);
      NoReaderAwaitsW(s, t);
    }
  }

  /** No reader is counted: it would be inside or could move. */
  lemma NoneCounted(s: State, t: Tid)
    requires Inv(s) && !Leaked(s) && Frozen(s) && t in s.pc
    ensures !CountedReader(s.pc[t])
  {
    if CountedReader(s.pc[t]) {
      AllLack(s, t);
      RCntFree(s);
      NoReaderAwaitsW(s, t);
    }
  }

  lemma NoWriterAwaitsW(s: State, t: Tid)
    requires Inv(s) && !Leaked(s) && Frozen(s) && t in s.pc
    ensures s.pc[t] != Write(WWaitW)
  {
    if s.pc[t] == Write(WWaitW) {
      AllLack(s, t);
      NoneLast(s);
      forall u ensures u !in Readers(s) { if u in s.pc { NoneCounted(s, u); } }
      assert Readers(s) == {};
      var u :| u in s.pc && HoldsW(s.pc[u]);
      WriterStuck(s, u);
      SameHolder(s, R, t, u);
    }
  }

  lemma RTaken(s: State)
    requires Inv(s) && !Leaked(s) && Frozen(s)
    ensures R in s.sem && s.sem[R] == 0
  {
    var t :| t in s.pc && Mid(s.pc[t]);
    AllLack(s, t);
    RCntFree(s);
    NoReaderAwaitsW(s, t);
    NoWriterAwaitsW(s, t);
    assert TokenOk(s, R) && TokenOk(s, Gen) && TokenOk(s, WCnt);
    if s.sem[R] != 0 {
      var x := if s.sem[Gen] == 0 then Gen else WCnt;
      var u :| u in s.pc && Holds(x, s.pc[u]);
      AllLack(s, u);
      NoReaderAwaitsW(s, u);
      NoWriterAwaitsW(s, u);
      TakerAwaitsR(s, x, u);
    }
  }

  lemma TakerAwaitsR(s: State, x: Sem, u: Tid)
    requires Inv(s) && u in s.pc && Holds(x, s.pc[u]) && (x == Gen || x == WCnt) && Lacking(s, Awaits(s.pc[u]))
    requires s.pc[u] != Read(WaitW) && s.pc[u] != Write(WWaitW) && RCnt in s.sem && s.sem[RCnt] > 0
    ensures Awaits(s.pc[u]) == On(R)
  {
  }

  /** But for a lost `w`, a frozen state is a deadlock of two writers. */
  lemma FrozenIsDeadlock(s: State)
    requires Inv(s) && !Leaked(s) && Frozen(s)
    ensures exists t, u :: Deadlock(s, t, u)
  {
    RTaken(s);
    RCntFree(s);
    assert TokenOk(s, R) && TokenOk(s, WCnt);
    var t :| t in s.pc && Holds(R, s.pc[t]);
    AllLack(s, t);
    NoReaderAwaitsW(s, t);
    NoWriterAwaitsW(s, t);
    LeaverAwaitsWCnt(s, t);
    var u :| u in s.pc && Holds(WCnt, s.pc[u]);
    AllLack(s, u);
    NoWriterAwaitsW(s, u);
    TakerAwaitsR(s, WCnt, u);
    assert Deadlock(s, t, u);
  }

  lemma LeaverAwaitsWCnt(s: State, t: Tid)
    requires Inv(s) && t in s.pc && Holds(R, s.pc[t]) && Lacking(s, Awaits(s.pc[t]))
    requires s.pc[t] != Read(WaitW) && s.pc[t] != Write(WWaitW) && RCnt in s.sem && s.sem[RCnt] > 0
    ensures Awaits(s.pc[t]) == On(WCnt) && (s.pc[t] == Quit(QWaitWCnt) || s.pc[t] == Down(DWaitWCnt))
  {
  }

  /** The two wait for each other, so neither ever moves again. */
  lemma DeadlockStays(s: State, s': State, t: Tid, u: Tid)
    requires Inv(s) && Step(s, s') && Deadlock(s, t, u)
    ensures Deadlock(s', t, u) && !Moves(s, t) && !Moves(s, u)
  {
    assert TokenOk(s, R) && TokenOk(s, WCnt);
    assert Holds(R, s.pc[t]) && Holds(WCnt, s.pc[u]);
    var z :| StepOf(s, s', z);
    if z != t && z != u { OthersStand(s, s', z); }
  }

  lemma OthersStand(s: State, s': State, z: Tid)
    requires StepOf(s, s', z)
    ensures forall v :: v in s.pc && v != z ==> v in s'.pc && s'.pc[v] == s.pc[v]
  {
    if Mid(s.pc[z]) && s' != s { StepsAhead(s, s', z); }
  }

  /** In every run: from a deadlock on, the two never move, and no other thread is ever inside. */
  lemma {:induction false} DeadlockForever(tr: seq<State>, k: nat, n: nat, t: Tid, u: Tid, v: Tid)
    requires Run(tr) && k <= n < |tr| && Deadlock(tr[k], t, u)
    ensures Deadlock(tr[n], t, u) && !Moves(tr[n], t) && !Moves(tr[n], u)
    ensures v in tr[n].pc && v != t ==> !ReaderInside(tr[n].pc[v]) && !WriterInside(tr[n].pc[v])
    decreases n
  {
    if k < n {
      DeadlockForever(tr, k, n - 1, t, u, v);
      DeadlockNext(tr, n - 1, t, u);
    }
    DeadlockMeans(tr, n, t, u, v);
  }

  lemma DeadlockNext(tr: seq<State>, n: nat, t: Tid, u: Tid)
    requires Run(tr) && n + 1 < |tr| && Deadlock(tr[n], t, u)
    ensures Deadlock(tr[n + 1], t, u)
  {
    EveryRun(tr, n);
    assert StepAt(tr, n);
    DeadlockStays(tr[n], tr[n + 1], t, u);
  }

  lemma DeadlockMeans(tr: seq<State>, n: nat, t: Tid, u: Tid, v: Tid)
    requires Run(tr) && n < |tr| && Deadlock(tr[n], t, u)
    ensures !Moves(tr[n], t) && !Moves(tr[n], u)
    ensures v in tr[n].pc && v != t ==> !ReaderInside(tr[n].pc[v]) && !WriterInside(tr[n].pc[v])
  {
    EveryRun(tr, n);
    BothBlocked(tr[n], t, u);
    if v in tr[n].pc && v != t { Excludes(tr[n], t, v); }
  }

  lemma BothBlocked(s: State, t: Tid, u: Tid)
    requires Inv(s) && Deadlock(s, t, u)
    ensures !Moves(s, t) && !Moves(s, u)
  {
    assert TokenOk(s, R) && TokenOk(s, WCnt);
    assert Holds(R, s.pc[t]) && Holds(WCnt, s.pc[u]);
  }

  /**
   * The exact condition for being stuck, in every run in which no writer has unlocked: while someone
   * is in the middle of an operation and nobody is inside, all of them are stuck only if a leaving and
   * an arriving writer wait for each other, and these two then are for ever.
   */
  lemma RunFrozen(tr: seq<State>, n: nat)
    requires Run(tr) && n < |tr| && !WriterUnlocked(tr, n) && Frozen(tr[n])
    ensures exists t, u :: Deadlock(tr[n], t, u)
  {
    EveryRun(tr, n);
    LostExactly(tr, n);
    FrozenIsDeadlock(tr[n]);
  }

  // ----- what can happen: runs continued

  ghost function Last(tr: seq<State>): State
    requires |tr| > 0
  {
    tr[|tr| - 1]
  }

  /** A longer run with the same beginning. */
  ghost predicate Continues(tr: seq<State>, tr': seq<State>)
  {
    Run(tr) && Run(tr') && |tr| <= |tr'| && tr'[..|tr|] == tr
  }

  lemma ContinuesOn(a: seq<State>, b: seq<State>, c: seq<State>)
    requires Continues(a, b) && Continues(b, c)
    ensures Continues(a, c)
  {
    assert c[..|a|] == c[..|b|][..|a|];
  }

  /** `s` with thread `t` at `p` and the values of the semaphores and counters. */
  function At(pc: map<Tid, PC>, t: Tid, p: PC, m: map<Sem, int>, w: int, c: int, d: int): State
  {
    State(pc[t := p], m, w, c, d)
  }

  function Sems(g: int, r: int, k: int, v: int): map<Sem, int> { map[Gen := g, R := r, RCnt := k, WCnt := v] }

  /** One more step of thread `t`, which alone moves. */
  lemma Advance(tr0: seq<State>, tr: seq<State>, s': State, t: Tid) returns (tr': seq<State>)
    requires Continues(tr0, tr) && StepOf(Last(tr), s', t)
    ensures Continues(tr0, tr') && Last(tr') == s'
  {
    tr' := tr + [s'];
    forall i | 0 <= i < |tr'| - 1 ensures StepAt(tr', i) {
      if i < |tr| - 1 { assert StepAt(tr, i); } else { assert Step(tr'[i], tr'[i + 1]); }
    }
    assert tr'[..|tr|] == tr;
    ContinuesOn(tr0, tr, tr');
  }

  lemma SemsMove(g: int, r: int, k: int, v: int, x: int)
    ensures Sems(g, r, k, v)[Gen := x] == Sems(x, r, k, v) && Sems(g, r, k, v)[R := x] == Sems(g, x, k, v)
    ensures Sems(g, r, k, v)[RCnt := x] == Sems(g, r, x, v) && Sems(g, r, k, v)[WCnt := x] == Sems(g, r, k, x)
  {
  }

  lemma AtGo(pc: map<Tid, PC>, t: Tid, p: PC, q: PC, m: map<Sem, int>, w: int, c: int, d: int)
    ensures Go(At(pc, t, p, m, w, c, d), t, q) == At(pc, t, q, m, w, c, d)
  {
    assert pc[t := p][t := q] == pc[t := q];
  }

  /** Going on from `p` to `q`. */
  lemma GoTo(tr0: seq<State>, tr: seq<State>, pc: map<Tid, PC>, t: Tid, p: PC, q: PC, m: map<Sem, int>, w: int, c: int, d: int)
    returns (tr': seq<State>)
    requires Continues(tr0, tr) && Last(tr) == At(pc, t, p, m, w, c, d)
    requires StepOf(At(pc, t, p, m, w, c, d), Go(At(pc, t, p, m, w, c, d), t, q), t)
    ensures Continues(tr0, tr') && Last(tr') == At(pc, t, q, m, w, c, d)
  {
    AtGo(pc, t, p, q, m, w, c, d);
    tr' := Advance(tr0, tr, At(pc, t, q, m, w, c, d), t);
  }

  /** A semaphore operation that takes the semaphores from `m` to `m'`. */
  lemma SemTo(tr0: seq<State>, tr: seq<State>, pc: map<Tid, PC>, t: Tid, p: PC, q: PC, x: Sem, up: bool,
              m: map<Sem, int>, m': map<Sem, int>, w: int, c: int, d: int) returns (tr': seq<State>)
    requires Continues(tr0, tr) && Last(tr) == At(pc, t, p, m, w, c, d) && x in m
    requires m' == m[x := if up then m[x] + 1 else m[x] - 1] && (!up ==> m[x] > 0)
    requires var s := At(pc, t, p, m, w, c, d); StepOf(s, if up then Release(s, t, x, q) else Acquire(s, t, x, q), t)
    ensures Continues(tr0, tr') && Last(tr') == At(pc, t, q, m', w, c, d)
  {
    assert pc[t := p][t := q] == pc[t := q];
    tr' := Advance(tr0, tr, At(pc, t, q, m', w, c, d), t);
  }

  /** The same inside rwlock_lock for reading, and inside rwlock_downgrade. */
  lemma ReadSem(tr0: seq<State>, tr: seq<State>, pc: map<Tid, PC>, t: Tid, r: ReadAt, q: PC, x: Sem, up: bool,
                m: map<Sem, int>, m': map<Sem, int>, w: int, c: int, d: int) returns (tr': seq<State>)
    requires Continues(tr0, tr) && t in pc && Last(tr) == At(pc, t, Read(r), m, w, c, d) && HasSems(Last(tr))
    requires m' == m[x := if up then m[x] + 1 else m[x] - 1] && (!up ==> m[x] > 0)
    requires var s := At(pc, t, Read(r), m, w, c, d); NextRead(s, t, r) == if up then Release(s, t, x, q) else Acquire(s, t, x, q)
    ensures Continues(tr0, tr') && Last(tr') == At(pc, t, q, m', w, c, d)
  {
    tr' := SemTo(tr0, tr, pc, t, Read(r), q, x, up, m, m', w, c, d);
  }

  lemma DownSem(tr0: seq<State>, tr: seq<State>, pc: map<Tid, PC>, t: Tid, k: DownAt, q: PC, x: Sem, up: bool,
                m: map<Sem, int>, m': map<Sem, int>, w: int, c: int, d: int) returns (tr': seq<State>)
    requires Continues(tr0, tr) && t in pc && Last(tr) == At(pc, t, Down(k), m, w, c, d) && HasSems(Last(tr))
    requires m' == m[x := if up then m[x] + 1 else m[x] - 1] && (!up ==> m[x] > 0)
    requires var s := At(pc, t, Down(k), m, w, c, d); NextDown(s, t, k) == if up then Release(s, t, x, q) else Acquire(s, t, x, q)
    ensures Continues(tr0, tr') && Last(tr') == At(pc, t, q, m', w, c, d)
  {
    tr' := SemTo(tr0, tr, pc, t, Down(k), q, x, up, m, m', w, c, d);
  }

  /** Everybody idle or reading, and `w` not lost. */
  ghost predicate Calm(s: State)
  {
    Inv(s) && !Leaked(s) && forall t :: t in s.pc ==> s.pc[t] == Idle || s.pc[t] == Reading
  }

  lemma AnySem(x: Sem)
    ensures x in Sems(1, 1, 1, 1) && Sems(1, 1, 1, 1)[x] == 1
  {
    match x case Gen => case R => case RCnt => case WCnt =>
  }

  /** Thread `t` is at `p`. */
  predicate IsAt(s: State, t: Tid, p: PC) { t in s.pc && s.pc[t] == p }

  lemma CalmForm(s: State)
    requires Calm(s)
    ensures s == State(s.pc, Sems(1, 1, 1, 1), if s.readcnt > 0 then 0 else 1, s.readcnt, 0) && s.readcnt >= 0
  {
    forall x: Sem ensures x in s.sem && s.sem[x] == 1 { assert TokenOk(s, x); }
    forall x: Sem ensures x in Sems(1, 1, 1, 1) && Sems(1, 1, 1, 1)[x] == 1 { AnySem(x); }
    assert s.sem == Sems(1, 1, 1, 1);
    forall t ensures t !in Writers(s) {}
    assert Writers(s) == {};
    assert !FirstPending(s) && !LastPending(s);
  }

  /** The first half of a reader's lock: the three semaphores. */
  lemma ReaderTakes(tr0: seq<State>, pc: map<Tid, PC>, t: Tid, w: int, c: int) returns (tr: seq<State>)
    requires Run(tr0) && t in pc && pc[t] == Idle && Last(tr0) == State(pc, Sems(1, 1, 1, 1), w, c, 0)
    ensures Continues(tr0, tr) && Last(tr) == At(pc, t, Read(Count), Sems(0, 0, 0, 1), w, c, 0)
  {
    assert pc[t := Idle] == pc;
    SemsMove(1, 1, 1, 1, 0);
    SemsMove(0, 1, 1, 1, 0);
    SemsMove(0, 0, 1, 1, 0);
    tr := GoTo(tr0, tr0, pc, t, Idle, Read(WaitGen), Sems(1, 1, 1, 1), w, c, 0);
    tr := ReadSem(tr0, tr, pc, t, WaitGen, Read(WaitR), Gen, false, Sems(1, 1, 1, 1), Sems(0, 1, 1, 1), w, c, 0);
    tr := ReadSem(tr0, tr, pc, t, WaitR, Read(WaitRCnt), R, false, Sems(0, 1, 1, 1), Sems(0, 0, 1, 1), w, c, 0);
    tr := ReadSem(tr0, tr, pc, t, WaitRCnt, Read(Count), RCnt, false, Sems(0, 0, 1, 1), Sems(0, 0, 0, 1), w, c, 0);
  }

  /** The middle: it counts itself and, if it is the first, takes `w`. */
  lemma ReaderCounts(tr0: seq<State>, tr: seq<State>, pc: map<Tid, PC>, t: Tid, w: int, c: int) returns (tr': seq<State>)
    requires Continues(tr0, tr) && t in pc && Last(tr) == At(pc, t, Read(Count), Sems(0, 0, 0, 1), w, c, 0)
    requires c >= 0 && w == if c > 0 then 0 else 1
    ensures Continues(tr0, tr') && Last(tr') == At(pc, t, Read(FreeRCnt), Sems(0, 0, 0, 1), 0, c + 1, 0)
  {
    var m := Sems(0, 0, 0, 1);
    tr' := GoTo(tr0, tr, pc, t, Read(Count), Read(Add(c)), m, w, c, 0);
    assert pc[t := Read(Add(c))][t := Read(First)] == pc[t := Read(First)];
    tr' := Advance(tr0, tr', At(pc, t, Read(First), m, w, c + 1, 0), t);
    if c > 0 {
      tr' := GoTo(tr0, tr', pc, t, Read(First), Read(FreeRCnt), m, w, c + 1, 0);
    } else {
      tr' := GoTo(tr0, tr', pc, t, Read(First), Read(WaitW), m, w, c + 1, 0);
      assert pc[t := Read(WaitW)][t := Read(FreeRCnt)] == pc[t := Read(FreeRCnt)];
      tr' := Advance(tr0, tr', At(pc, t, Read(FreeRCnt), m, 0, c + 1, 0), t);
    }
  }

  lemma ReaderGives(tr0: seq<State>, tr: seq<State>, pc: map<Tid, PC>, t: Tid, c: int) returns (tr': seq<State>)
    requires Continues(tr0, tr) && t in pc && Last(tr) == At(pc, t, Read(FreeRCnt), Sems(0, 0, 0, 1), 0, c, 0)
    ensures Continues(tr0, tr') && Last(tr') == At(pc, t, Reading, Sems(1, 1, 1, 1), 0, c, 0)
  {
    SemsMove(0, 0, 0, 1, 1);
    SemsMove(0, 0, 1, 1, 1);
    SemsMove(0, 1, 1, 1, 1);
    tr' := ReadSem(tr0, tr, pc, t, FreeRCnt, Read(FreeR), RCnt, true, Sems(0, 0, 0, 1), Sems(0, 0, 1, 1), 0, c, 0);
    tr' := ReadSem(tr0, tr', pc, t, FreeR, Read(FreeGen), R, true, Sems(0, 0, 1, 1), Sems(0, 1, 1, 1), 0, c, 0);
    tr' := ReadSem(tr0, tr', pc, t, FreeGen, Reading, Gen, true, Sems(0, 1, 1, 1), Sems(1, 1, 1, 1), 0, c, 0);
  }

  lemma StaysCalm(tr: seq<State>)
    requires Run(tr) && (forall t :: t in Last(tr).pc ==> Last(tr).pc[t] == Idle || Last(tr).pc[t] == Reading)
    requires Last(tr).readcnt > 0 || Last(tr).w > 0
    ensures Calm(Last(tr))
  {
    EveryRun(tr, |tr| - 1);
    assert !FirstPending(Last(tr));
  }

  /** Any idle thread can enter as a reader beside any number of readers. */
  lemma ReaderEnters(tr0: seq<State>, t: Tid) returns (tr: seq<State>)
    requires Run(tr0) && Calm(Last(tr0)) && t in Last(tr0).pc && Last(tr0).pc[t] == Idle
    ensures Continues(tr0, tr) && Calm(Last(tr)) && Last(tr).pc == Last(tr0).pc[t := Reading]
  {
    CalmForm(Last(tr0));
    var s := Last(tr0);
    tr := ReaderTakes(tr0, s.pc, t, s.w, s.readcnt);
    tr := ReaderCounts(tr0, tr, s.pc, t, s.w, s.readcnt);
    tr := ReaderGives(tr0, tr, s.pc, t, s.readcnt + 1);
    StaysCalm(tr);
  }

  /** Any reader can leave; the last one gives `w` back. */
  lemma ReaderLeaves(tr0: seq<State>, t: Tid) returns (tr: seq<State>)
    requires Run(tr0) && Calm(Last(tr0)) && t in Last(tr0).pc && Last(tr0).pc[t] == Reading
    ensures Continues(tr0, tr) && Calm(Last(tr)) && Last(tr).pc == Last(tr0).pc[t := Idle]
  {
    CalmForm(Last(tr0));
    var pc, c := Last(tr0).pc, Last(tr0).readcnt;
    ReaderInGroup(Last(tr0), t);
    tr := LeaverTakes(tr0, pc, t, c);
    tr := LeaverUncounts(tr0, tr, pc, t, c);
    SemsMove(1, 1, 0, 1, 1);
    tr := SemTo(tr0, tr, pc, t, Leave(LFreeRCnt), Idle, RCnt, true, Sems(1, 1, 0, 1), Sems(1, 1, 1, 1), if c > 1 then 0 else 1, c - 1, 0);
    StaysCalm(tr);
  }

  lemma LeaverTakes(tr0: seq<State>, pc: map<Tid, PC>, t: Tid, c: int) returns (tr: seq<State>)
    requires Run(tr0) && t in pc && pc[t] == Reading && c > 0 && Last(tr0) == State(pc, Sems(1, 1, 1, 1), 0, c, 0)
    ensures Continues(tr0, tr) && Last(tr) == At(pc, t, Leave(LUncount), Sems(1, 1, 0, 1), 0, c, 0)
  {
    assert pc[t := Reading] == pc;
    SemsMove(1, 1, 1, 1, 0);
    tr := GoTo(tr0, tr0, pc, t, Reading, Unlock(true), Sems(1, 1, 1, 1), 0, c, 0);
    tr := GoTo(tr0, tr, pc, t, Unlock(true), Leave(LWaitRCnt), Sems(1, 1, 1, 1), 0, c, 0);
    tr := SemTo(tr0, tr, pc, t, Leave(LWaitRCnt), Leave(LUncount), RCnt, false, Sems(1, 1, 1, 1), Sems(1, 1, 0, 1), 0, c, 0);
  }

  lemma LeaverUncounts(tr0: seq<State>, tr: seq<State>, pc: map<Tid, PC>, t: Tid, c: int) returns (tr': seq<State>)
    requires Continues(tr0, tr) && t in pc && c > 0 && Last(tr) == At(pc, t, Leave(LUncount), Sems(1, 1, 0, 1), 0, c, 0)
    ensures Continues(tr0, tr')
    ensures Last(tr') == At(pc, t, Leave(LFreeRCnt), Sems(1, 1, 0, 1), if c > 1 then 0 else 1, c - 1, 0)
  {
    var m := Sems(1, 1, 0, 1);
    tr' := GoTo(tr0, tr, pc, t, Leave(LUncount), Leave(LSub(c)), m, 0, c, 0);
    assert pc[t := Leave(LSub(c))][t := Leave(LLast)] == pc[t := Leave(LLast)];
    tr' := Advance(tr0, tr', At(pc, t, Leave(LLast), m, 0, c - 1, 0), t);
    if c > 1 {
      tr' := GoTo(tr0, tr', pc, t, Leave(LLast), Leave(LFreeRCnt), m, 0, c - 1, 0);
    } else {
      tr' := GoTo(tr0, tr', pc, t, Leave(LLast), Leave(LFreeW), m, 0, c - 1, 0);
      assert pc[t := Leave(LFreeW)][t := Leave(LFreeRCnt)] == pc[t := Leave(LFreeRCnt)];
      tr' := Advance(tr0, tr', At(pc, t, Leave(LFreeRCnt), m, 1, c - 1, 0), t);
    }
  }

  /** When all are idle, any thread can enter as a writer. */
  lemma WriterEnters(tr0: seq<State>, t: Tid) returns (tr: seq<State>)
    requires Run(tr0) && Calm(Last(tr0)) && t in Last(tr0).pc && forall u :: u in Last(tr0).pc ==> Last(tr0).pc[u] == Idle
    ensures Continues(tr0, tr) && Last(tr) == At(Last(tr0).pc, t, Writing, Sems(1, 0, 1, 1), 0, 0, 1)
  {
    CalmForm(Last(tr0));
    var pc := Last(tr0).pc;
    forall u ensures u !in Readers(Last(tr0)) {}
    assert Readers(Last(tr0)) == {};
    tr := WriterCounts(tr0, tr0, pc, t, 1, 1, 0);
    SemsMove(1, 1, 1, 0, 0);
    SemsMove(1, 0, 1, 0, 1);
    tr := SemTo(tr0, tr, pc, t, Write(WWaitR), Write(WWaitW), R, false, Sems(1, 1, 1, 0), Sems(1, 0, 1, 0), 1, 0, 1);
    assert pc[t := Write(WWaitW)][t := Write(WFreeWCnt)] == pc[t := Write(WFreeWCnt)];
    tr := Advance(tr0, tr, At(pc, t, Write(WFreeWCnt), Sems(1, 0, 1, 0), 0, 0, 1), t);
    tr := SemTo(tr0, tr, pc, t, Write(WFreeWCnt), Writing, WCnt, true, Sems(1, 0, 1, 0), Sems(1, 0, 1, 1), 0, 0, 1);
  }

  /** An idle thread calls rwlock_lock for writing and gets as far as waiting for `r`. */
  lemma WriterCounts(tr0: seq<State>, tr: seq<State>, pc: map<Tid, PC>, t: Tid, r: int, w: int, d: int)
    returns (tr': seq<State>)
    requires Continues(tr0, tr) && t in pc && pc[t] == Idle && Last(tr) == State(pc, Sems(1, r, 1, 1), w, 0, d)
    ensures Continues(tr0, tr') && Last(tr') == At(pc, t, Write(WWaitR), Sems(1, r, 1, 0), w, 0, d + 1)
  {
    assert pc[t := Idle] == pc;
    SemsMove(1, r, 1, 1, 0);
    tr' := GoTo(tr0, tr, pc, t, Idle, Write(WWaitWCnt), Sems(1, r, 1, 1), w, 0, d);
    tr' := SemTo(tr0, tr', pc, t, Write(WWaitWCnt), Write(WCount), WCnt, false, Sems(1, r, 1, 1), Sems(1, r, 1, 0), w, 0, d);
    tr' := GoTo(tr0, tr', pc, t, Write(WCount), Write(WAdd(d)), Sems(1, r, 1, 0), w, 0, d);
    assert pc[t := Write(WAdd(d))][t := Write(WWaitR)] == pc[t := Write(WWaitR)];
    tr' := Advance(tr0, tr', At(pc, t, Write(WWaitR), Sems(1, r, 1, 0), w, 0, d + 1), t);
  }

  /** A writer inside alone can go on as a reader, and others can then join it. */
  lemma WriterDowngrades(tr0: seq<State>, tr: seq<State>, pc: map<Tid, PC>, t: Tid) returns (tr': seq<State>)
    requires Continues(tr0, tr) && t in pc && (forall u :: u in pc ==> pc[u] == Idle)
    requires Last(tr) == At(pc, t, Writing, Sems(1, 0, 1, 1), 0, 0, 1)
    ensures Continues(tr0, tr') && Calm(Last(tr')) && Last(tr').pc == pc[t := Reading]
  {
    SemsMove(1, 0, 1, 1, 0);
    SemsMove(1, 0, 1, 0, 0);
    tr' := GoTo(tr0, tr, pc, t, Writing, Down(DWaitWCnt), Sems(1, 0, 1, 1), 0, 0, 1);
    tr' := DownSem(tr0, tr', pc, t, DWaitWCnt, Down(DWaitRCnt), WCnt, false, Sems(1, 0, 1, 1), Sems(1, 0, 1, 0), 0, 0, 1);
    tr' := DownSem(tr0, tr', pc, t, DWaitRCnt, Down(DUncount), RCnt, false, Sems(1, 0, 1, 0), Sems(1, 0, 0, 0), 0, 0, 1);
    tr' := DowngradeCounts(tr0, tr', pc, t);
    tr' := DowngradeGives(tr0, tr', pc, t);
    StaysCalm(tr');
  }

  lemma DowngradeCounts(tr0: seq<State>, tr: seq<State>, pc: map<Tid, PC>, t: Tid) returns (tr': seq<State>)
    requires Continues(tr0, tr) && t in pc && Last(tr) == At(pc, t, Down(DUncount), Sems(1, 0, 0, 0), 0, 0, 1)
    ensures Continues(tr0, tr') && Last(tr') == At(pc, t, Down(DFreeRCnt), Sems(1, 0, 0, 0), 0, 1, 0)
  {
    var m := Sems(1, 0, 0, 0);
    tr' := GoTo(tr0, tr, pc, t, Down(DUncount), Down(DSub(1)), m, 0, 0, 1);
    assert pc[t := Down(DSub(1))][t := Down(DCount)] == pc[t := Down(DCount)];
    tr' := Advance(tr0, tr', At(pc, t, Down(DCount), m, 0, 0, 0), t);
    tr' := GoTo(tr0, tr', pc, t, Down(DCount), Down(DAdd(0)), m, 0, 0, 0);
    assert pc[t := Down(DAdd(0))][t := Down(DFreeRCnt)] == pc[t := Down(DFreeRCnt)];
    tr' := Advance(tr0, tr', At(pc, t, Down(DFreeRCnt), m, 0, 1, 0), t);
  }

  lemma DowngradeGives(tr0: seq<State>, tr: seq<State>, pc: map<Tid, PC>, t: Tid) returns (tr': seq<State>)
    requires Continues(tr0, tr) && t in pc && Last(tr) == At(pc, t, Down(DFreeRCnt), Sems(1, 0, 0, 0), 0, 1, 0)
    ensures Continues(tr0, tr') && Last(tr') == At(pc, t, Reading, Sems(1, 1, 1, 1), 0, 1, 0)
  {
    SemsMove(1, 0, 0, 0, 1);
    SemsMove(1, 0, 1, 0, 1);
    SemsMove(1, 0, 1, 1, 1);
    tr' := DownSem(tr0, tr, pc, t, DFreeRCnt, Down(DFreeWCnt), RCnt, true, Sems(1, 0, 0, 0), Sems(1, 0, 1, 0), 0, 1, 0);
    tr' := DownSem(tr0, tr', pc, t, DFreeWCnt, Down(DFreeR), WCnt, true, Sems(1, 0, 1, 0), Sems(1, 0, 1, 1), 0, 1, 0);
    tr' := DownSem(tr0, tr', pc, t, DFreeR, Reading, R, true, Sems(1, 0, 1, 1), Sems(1, 1, 1, 1), 0, 1, 0);
  }

  /** Any two idle threads can deadlock: one is inside as a writer, the other asks to write, the first unlocks. */
  lemma DeadlockArises(tr0: seq<State>, t: Tid, u: Tid) returns (tr: seq<State>)
    requires Run(tr0) && Calm(Last(tr0)) && (forall v :: v in Last(tr0).pc ==> Last(tr0).pc[v] == Idle)
    requires t in Last(tr0).pc && u in Last(tr0).pc && t != u
    ensures Continues(tr0, tr) && Deadlock(Last(tr), t, u) && !WriterUnlocked(tr, |tr| - 1) && Frozen(Last(tr))
  {
    tr := WriterEnters(tr0, t);
    var pc := Last(tr).pc;
    tr := WriterCounts(tr0, tr, pc, u, 0, 0, 1);
    var pc' := Last(tr).pc;
    assert pc'[t := Writing] == pc';
    tr := GoTo(tr0, tr, pc', t, Writing, Unlock(false), Sems(1, 0, 1, 0), 0, 0, 2);
    tr := GoTo(tr0, tr, pc', t, Unlock(false), Quit(QWaitWCnt), Sems(1, 0, 1, 0), 0, 0, 2);
    LostExactly(tr, |tr| - 1);
    assert HoldsW(Last(tr).pc[t]);
    EveryRun(tr, |tr| - 1);
    OnlyTwo(Last(tr), t, u);
  }

  lemma OnlyTwo(s: State, t: Tid, u: Tid)
    requires Inv(s) && Deadlock(s, t, u) && forall v :: v in s.pc && v != t && v != u ==> s.pc[v] == Idle
    ensures Frozen(s)
  {
    BothBlocked(s, t, u);
    assert Mid(s.pc[t]);
  }

  /** Any set of threads can be inside together as readers. */
  lemma {:induction false} ReadersTogether(tr0: seq<State>, a: set<Tid>) returns (tr: seq<State>)
    requires Run(tr0) && Calm(Last(tr0)) && forall t :: t in a ==> t in Last(tr0).pc
    ensures Continues(tr0, tr) && Calm(Last(tr)) && Last(tr).pc.Keys == Last(tr0).pc.Keys
    ensures forall t :: t in Last(tr).pc ==> Last(tr).pc[t] == if t in a then Reading else Last(tr0).pc[t]
  {
    tr := tr0;
    if t :| t in a {
      var tr1 := ReadersTogether(tr0, a - {t});
      if Last(tr1).pc[t] == Idle {
        tr := ReaderEnters(tr1, t);
        ContinuesOn(tr0, tr1, tr);
      } else {
        tr := tr1;
      }
    }
  }

  lemma StartsCalm(s: State)
    requires Init(s)
    ensures Run([s]) && Calm(s)
  {
    InitInv(s);
  }

  /** Two readers inside together, one of them leaving, and it entering again beside the other. */
  lemma ReadersComeAndGo(s: State, t: Tid, u: Tid) returns (tr: seq<State>, i: nat, j: nat)
    requires Init(s) && t in s.pc && u in s.pc && t != u
    ensures Run(tr) && tr[0] == s && i < j < |tr|
    ensures IsAt(tr[i], t, Reading) && IsAt(tr[i], u, Reading)
    ensures IsAt(tr[j], t, Idle) && IsAt(tr[j], u, Reading)
    ensures IsAt(Last(tr), t, Reading) && IsAt(Last(tr), u, Reading)
  {
    StartsCalm(s);
    var tr1 := ReadersTogether([s], {t, u});
    Same([s], tr1, 0);
    var tr2 := ReaderLeaves(tr1, t);
    i, j := |tr1| - 1, |tr2| - 1;
    Same(tr1, tr2, 0);
    Same(tr1, tr2, i);
    tr := EntersAgain(tr2, t, u, i, j);
  }

  lemma EntersAgain(tr2: seq<State>, t: Tid, u: Tid, i: nat, j: nat) returns (tr: seq<State>)
    requires Run(tr2) && Calm(Last(tr2)) && t != u && IsAt(Last(tr2), t, Idle) && IsAt(Last(tr2), u, Reading)
    requires i < |tr2| && j == |tr2| - 1
    ensures Run(tr) && |tr| > |tr2| && tr[0] == tr2[0] && tr[i] == tr2[i] && tr[j] == tr2[j]
    ensures IsAt(Last(tr), t, Reading) && IsAt(Last(tr), u, Reading)
  {
    tr := ReaderEnters(tr2, t);
    Same(tr2, tr, 0);
    Same(tr2, tr, i);
    Same(tr2, tr, j);
  }

  lemma Same(tr: seq<State>, tr': seq<State>, i: nat)
    requires Continues(tr, tr') && i < |tr|
    ensures tr'[i] == tr[i]
  {
    assert tr'[..|tr|][i] == tr'[i];
  }
}
