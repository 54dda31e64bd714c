/**
 * What the user-level semaphore brings about: every lock is free or has a thread inside, a signal
 * wakes the first waiter and a broadcast all of them, an operation takes a bounded number of its own
 * steps, and when nobody can go on everyone is asleep on the wait list with the count at zero.
 */
module SemaphoreProgress {
  import P = SemaphoreProtocol
  import opened SemaphoreSystem

  // ----- locks

  /** Inside the condition variable's lock. */
  predicate InsideCv(p: PC) { P.InCv(RoleOf(p)) }

  /** In every run each spinlock is set exactly while one thread is inside it. */
  lemma RunLocks(tr: seq<State>, initial: int, n: nat)
    requires Run(tr, initial) && n < |tr|
    ensures var s := tr[n];
      && (s.m.mutexLock <==> exists t :: t in s.pc && HoldsMutex(s.pc[t]))
      && (s.m.cvLock <==> exists t :: t in s.pc && InsideCv(s.pc[t]))
      && (forall t, u :: t in s.pc && u in s.pc && HoldsMutex(s.pc[t]) && HoldsMutex(s.pc[u]) ==> t == u)
      && (forall t, u :: t in s.pc && u in s.pc && InsideCv(s.pc[t]) && InsideCv(s.pc[u]) ==> t == u)
  {
    EveryRunLocked(tr, initial, n);
    var s := tr[n];
    forall t | t in s.pc ensures Protocol(s).role[t] == RoleOf(s.pc[t]) {}
    if s.m.mutexLock {
      var t :| t in Protocol(s).role && P.InMutex(Protocol(s).role[t]);
      assert HoldsMutex(s.pc[t]);
    }
    if s.m.cvLock {
      var t :| t in Protocol(s).role && P.InCv(Protocol(s).role[t]);
      assert InsideCv(s.pc[t]);
    }
  }

  /** Only one thread at a time is inside the condition variable's lock. */
  lemma OneInside(s: State, t: Tid, u: Tid)
    requires Locked(s) && t in s.pc && u in s.pc && InsideCv(s.pc[t]) && InsideCv(s.pc[u])
    ensures t == u
  {
    assert Protocol(s).role[t] == RoleOf(s.pc[t]) && Protocol(s).role[u] == RoleOf(s.pc[u]);
  }

  // ----- what other threads do to one that is inside the condition variable's lock

  /** The wait list and its record are the same, and thread `t` has not moved. */
  ghost predicate Undisturbed(s: State, s': State, t: Tid)
  {
    && t in s.pc && t in s'.pc && s'.pc[t] == s.pc[t] && s'.m.waiters == s.m.waiters
    && s'.h.joined == s.h.joined && s'.h.dequeued == s.h.dequeued && s'.h.left == s.h.left
  }

  lemma OthersLeaveIt(s: State, s': State, t: Tid, u: Tid)
    requires Locked(s) && StepOf(s, s', u) && t in s.pc && InsideCv(s.pc[t]) && u != t
    ensures Undisturbed(s, s', t)
  {
    if InsideCv(s.pc[u]) { OneInside(s, t, u); }
    var e := StepEffect(s, s', u);
    EffectOutside(s, s', u, e, t);
  }

  lemma EffectOutside(s: State, s': State, u: Tid, e: Effect, t: Tid)
    requires Effects(s, s', u, e) && StepOf(s, s', u) && LocalsOk(s) && !InsideCv(s.pc[u])
    requires t in s.pc && InsideCv(s.pc[t]) && u != t
    ensures Undisturbed(s, s', t)
  {
    assert LocalOk(s.pc[u], s.m.count, s.m.waiters);
  }

  // ----- broadcast

  /** Between taking and giving back the lock in cond_broadcast. */
  predicate Broadcasting(p: PC) { p.Broadcast? && !p.b.BLock? }

  /** Thread `t` took the lock for a broadcast in step `i` and has not given it back in state `j`. */
  ghost predicate BroadcastSince(tr: seq<State>, i: nat, j: nat, t: Tid)
  {
    && i < j < |tr| && t in tr[i].pc && tr[i].pc[t] == Broadcast(BLock)
    && forall m :: i < m <= j ==> t in tr[m].pc && Broadcasting(tr[m].pc[t])
  }

  /** While a broadcast has the lock nobody joins the list, and it stops only at an empty list. */
  lemma {:induction false} BroadcastKeeps(tr: seq<State>, initial: int, i: nat, j: nat, t: Tid)
    requires Run(tr, initial) && initial >= 0 && BroadcastSince(tr, i, j, t)
    ensures tr[j].h.joined == tr[i].h.joined
    ensures tr[j].pc[t] == Broadcast(BUnlock) ==> tr[j].m.waiters == []
    decreases j
  {
    if j - 1 > i { BroadcastKeeps(tr, initial, i, j - 1, t); }
    BroadcastNext(tr, initial, j - 1, t);
  }

  lemma BroadcastNext(tr: seq<State>, initial: int, m: nat, t: Tid)
    requires Run(tr, initial) && m + 1 < |tr| && t in tr[m].pc && t in tr[m + 1].pc && Broadcasting(tr[m + 1].pc[t])
    requires tr[m].pc[t] == Broadcast(BLock) || Broadcasting(tr[m].pc[t])
    requires tr[m].pc[t] == Broadcast(BUnlock) ==> tr[m].m.waiters == []
    ensures tr[m + 1].h.joined == tr[m].h.joined
    ensures tr[m + 1].pc[t] == Broadcast(BUnlock) ==> tr[m + 1].m.waiters == []
  {
    EveryRunLocked(tr, initial, m);
    assert StepAt(tr, m);
    BroadcastStep(tr[m], tr[m + 1], t);
  }

  lemma BroadcastStep(s: State, s': State, t: Tid)
    requires Step(s, s') && Locked(s) && t in s.pc && t in s'.pc && Broadcasting(s'.pc[t])
    requires s.pc[t] == Broadcast(BLock) || Broadcasting(s.pc[t])
    requires s.pc[t] == Broadcast(BUnlock) ==> s.m.waiters == []
    ensures s'.h.joined == s.h.joined
    ensures s'.pc[t] == Broadcast(BUnlock) ==> s'.m.waiters == []
  {
    var u :| StepOf(s, s', u);
    if u == t {
      BroadcastMoves(s, s', t);
    } else if Broadcasting(s.pc[t]) {
      OthersLeaveIt(s, s', t, u);
    } else {
      OthersStayOut(s, s', t, u);
    }
  }

  lemma BroadcastMoves(s: State, s': State, t: Tid)
    requires StepOf(s, s', t) && LocalsOk(s) && s.pc[t].Broadcast? && t in s'.pc
    ensures s'.h.joined == s.h.joined
    ensures s'.pc[t] == Broadcast(BUnlock) && s.pc[t] != Broadcast(BUnlock) ==> s'.m.waiters == []
    ensures s.pc[t] == Broadcast(BUnlock) ==> s'.pc[t] == Idle
  {
    assert LocalOk(s.pc[t], s.m.count, s.m.waiters);
  }

  /** A step of another thread does not take `t` into the lock. */
  lemma OthersStayOut(s: State, s': State, t: Tid, u: Tid)
    requires StepOf(s, s', u) && u != t && t in s.pc && t in s'.pc && s.pc[t] == Broadcast(BLock)
    ensures s'.pc[t] == s.pc[t]
  {
  }

  /** With nobody being woken, everyone put on the list is on it or has left deschedule once for each time. */
  lemma Settled(s: State, t: Tid, initial: int)
    requires Inv(s, initial) && t in s.pc && InsideCv(s.pc[t]) && !Waking(s.pc[t])
    ensures s.h.dequeued == s.h.left && s.h.joined == s.h.left + multiset(s.m.waiters)
  {
    OneWaker(s, t);
  }

  /** Nobody is asleep once a thread inside the lock, waking no one, sees an empty list. */
  lemma NobodyAsleep(s: State, t: Tid)
    requires P.CvOk(Protocol(s)) && P.QueueOk(Protocol(s)) && t in s.pc && InsideCv(s.pc[t]) && !Waking(s.pc[t]) && s.m.waiters == []
    ensures forall u :: u in s.pc ==> s.pc[u] != Cond(Asleep) && s.pc[u] != Cond(CSleep) && s.pc[u] != Cond(CUnlock)
  {
    forall u | u in s.pc ensures Protocol(s).role[u] == RoleOf(s.pc[u]) {}
    P.AllListed(Protocol(s), t);
  }

  /**
   * By the time a broadcast gives the lock back, everyone who was on the list when it took the lock
   * has been dequeued and has left deschedule, the list is empty and nobody is asleep.
   */
  lemma BroadcastWakesAll(tr: seq<State>, initial: int, i: nat, j: nat, t: Tid)
    requires Run(tr, initial) && initial >= 0 && BroadcastSince(tr, i, j, t) && tr[j].pc[t] == Broadcast(BUnlock)
    ensures tr[j].m.waiters == []
    ensures tr[j].h.left == tr[i].h.left + multiset(tr[i].m.waiters)
    ensures tr[j].h.dequeued == tr[i].h.dequeued + multiset(tr[i].m.waiters)
    ensures forall u :: u in tr[j].pc ==> tr[j].pc[u] != Cond(Asleep)
  {
    BroadcastKeeps(tr, initial, i, j, t);
    EveryRun(tr, initial, j);
    Settled(tr[j], t, initial);
    NobodyAsleep(tr[j], t);
    TakesLock(tr, initial, i, t);
  }

  /** Taking the lock changes neither the list nor its record. */
  lemma TakesLock(tr: seq<State>, initial: int, i: nat, t: Tid)
    requires Run(tr, initial) && initial >= 0 && i + 1 < |tr| && t in tr[i].pc && t in tr[i + 1].pc
    requires (tr[i].pc[t] == Broadcast(BLock) && Broadcasting(tr[i + 1].pc[t]))
          || (tr[i].pc[t] == Signal(SCvLock) && tr[i + 1].pc[t] == Signal(SDequeue))
    ensures tr[i + 1].m.waiters == tr[i].m.waiters && tr[i + 1].h == tr[i].h
    ensures tr[i].h.dequeued == tr[i].h.left && tr[i].h.joined == tr[i].h.left + multiset(tr[i].m.waiters)
  {
    EveryRun(tr, initial, i + 1);
    assert StepAt(tr, i);
    var u :| StepOf(tr[i], tr[i + 1], u);
    if u != t { StandsStill(tr[i], tr[i + 1], t, u); }
    Settled(tr[i + 1], t, initial);
  }

  lemma StandsStill(s: State, s': State, t: Tid, u: Tid)
    requires StepOf(s, s', u) && u != t && t in s.pc && t in s'.pc && s.pc[t] != Cond(Asleep)
    ensures s'.pc[t] == s.pc[t]
  {
  }

  // ----- signal

  /** How far cond_signal has got with the list and the record it found when it took the lock. */
  ghost predicate SignalSoFar(s: State, t: Tid, list: seq<Tid>, left: multiset<Tid>)
  {
    t in s.pc && s.pc[t].Signal? && match s.pc[t].g
      case SDequeue => s.m.waiters == list && s.h.left == left
      case SRemove(_) => s.m.waiters == list && s.h.left == left
      case SWake(u) => list != [] && u == list[0] && s.m.waiters == list[1..] && s.h.left == left
      case SCvUnlock => SignalDone(s, list, left)
      case _ => false
  }

  /** The first of the list, if any, is off it and has left deschedule. */
  ghost predicate SignalDone(s: State, list: seq<Tid>, left: multiset<Tid>)
  {
    if list == [] then s.m.waiters == [] && s.h.left == left
    else s.m.waiters == list[1..] && s.h.left == left + multiset{list[0]}
  }

  lemma SignalMoves(s: State, s': State, t: Tid, list: seq<Tid>, left: multiset<Tid>)
    requires StepOf(s, s', t) && LocalsOk(s) && SignalSoFar(s, t, list, left) && s.pc[t] != Signal(SCvUnlock)
    ensures SignalSoFar(s', t, list, left)
  {
    assert LocalOk(s.pc[t], s.m.count, s.m.waiters);
  }

  lemma SignalStep(s: State, s': State, t: Tid, list: seq<Tid>, left: multiset<Tid>)
    requires Step(s, s') && Locked(s) && SignalSoFar(s, t, list, left)
    requires t in s'.pc && InsideCv(s'.pc[t])
    ensures SignalSoFar(s', t, list, left)
  {
    var u :| StepOf(s, s', u);
    if u != t {
      OthersLeaveIt(s, s', t, u);
    } else {
      SignalEnds(s, s', t);
      SignalMoves(s, s', t, list, left);
    }
  }

  lemma SignalEnds(s: State, s': State, t: Tid)
    requires StepOf(s, s', t) && t in s'.pc && InsideCv(s'.pc[t])
    ensures s.pc[t] != Signal(SCvUnlock)
  {
  }

  /** Thread `t` took the lock for a signal in step `i` and has not given it back in state `j`. */
  ghost predicate SignalSince(tr: seq<State>, i: nat, j: nat, t: Tid)
  {
    && i < j < |tr| && t in tr[i].pc && tr[i].pc[t] == Signal(SCvLock)
    && forall m :: i < m <= j ==> t in tr[m].pc && tr[m].pc[t].Signal? && InsideCv(tr[m].pc[t])
  }

  lemma {:induction false} SignalKeeps(tr: seq<State>, initial: int, i: nat, j: nat, t: Tid)
    requires Run(tr, initial) && initial >= 0 && SignalSince(tr, i, j, t)
    ensures SignalSoFar(tr[j], t, tr[i].m.waiters, tr[i].h.left)
    decreases j
  {
    if j - 1 > i {
      SignalKeeps(tr, initial, i, j - 1, t);
      SignalNext(tr, initial, j - 1, t, tr[i].m.waiters, tr[i].h.left);
    } else {
      assert StepAt(tr, i);
      SignalStarts(tr[i], tr[j], t);
      TakesLock(tr, initial, i, t);
    }
  }

  lemma SignalNext(tr: seq<State>, initial: int, m: nat, t: Tid, list: seq<Tid>, left: multiset<Tid>)
    requires Run(tr, initial) && m + 1 < |tr| && SignalSoFar(tr[m], t, list, left)
    requires t in tr[m + 1].pc && InsideCv(tr[m + 1].pc[t])
    ensures SignalSoFar(tr[m + 1], t, list, left)
  {
    EveryRunLocked(tr, initial, m);
    assert StepAt(tr, m);
    SignalStep(tr[m], tr[m + 1], t, list, left);
  }

  lemma SignalStarts(s: State, s': State, t: Tid)
    requires Step(s, s') && t in s.pc && t in s'.pc && s.pc[t] == Signal(SCvLock) && InsideCv(s'.pc[t])
    ensures s'.pc[t] == Signal(SDequeue)
  {
    var u :| StepOf(s, s', u);
    if u != t { StandsStill(s, s', t, u); }
  }

  /** A signal wakes exactly the thread that was first on the list when it took the lock, if there was one. */
  lemma SignalWakesFirst(tr: seq<State>, initial: int, i: nat, j: nat, t: Tid)
    requires Run(tr, initial) && initial >= 0 && SignalSince(tr, i, j, t) && tr[j].pc[t] == Signal(SCvUnlock)
    ensures var list := tr[i].m.waiters;
      if list == [] then tr[j].m.waiters == [] && tr[j].h.left == tr[i].h.left
      else tr[j].m.waiters == list[1..] && tr[j].h.left == tr[i].h.left + multiset{list[0]}
  {
    SignalKeeps(tr, initial, i, j, t);
  }

  // ----- the mutex's status field

  /** Positions between setting and clearing the status field. */
  predicate Marked(p: PC)
  {
    match p
    case Wait(w) => w.WRead? || w.WTest? || w.WLoad? || w.WStore? || w.WUnStatus?
    case Cond(c) => c.CLock? || c.CStatus?
    case Signal(g) => !(g.SLock? || g.SStatus? || g.SUnspin?)
    case _ => false
  }

  /** The status field says whether some thread is between setting and clearing it. */
  ghost predicate StatusOk(s: State) { s.m.mutexLocked <==> exists t :: t in s.pc && Marked(s.pc[t]) }

  /** Only its own thread moves to or from a marked position, and it sets the field accordingly. */
  ghost predicate MarksItself(s: State, s': State, t: Tid)
  {
    && t in s.pc && s'.pc.Keys == s.pc.Keys && (forall u :: u in s.pc && u != t ==> Marked(s'.pc[u]) == Marked(s.pc[u]))
    && (Marked(s'.pc[t]) == Marked(s.pc[t]) ==> s'.m.mutexLocked == s.m.mutexLocked)
    && (Marked(s'.pc[t]) != Marked(s.pc[t]) ==> s'.m.mutexLocked == Marked(s'.pc[t]) && HoldsMutex(s.pc[t]))
  }

  lemma StepMarks(s: State, s': State, t: Tid)
    requires StepOf(s, s', t)
    ensures MarksItself(s, s', t)
  {
    match s.pc[t]
    case Wait(w) => WaitMarks(s, t, w);
    case Cond(c) => CondMarks(s, t, c);
    case Signal(g) => SignalMarks(s, t, g);
    case Broadcast(b) => BroadcastMarks(s, t, b);
    case Idle =>
  }

  lemma WaitMarks(s: State, t: Tid, w: WaitAt)
    requires t in s.pc && s.pc[t] == Wait(w)
    ensures MarksItself(s, NextWait(s, t, w), t)
  {
  }

  lemma CondMarks(s: State, t: Tid, c: CondAt)
    requires t in s.pc && s.pc[t] == Cond(c)
    ensures MarksItself(s, NextCond(s, t, c), t)
  {
  }

  lemma SignalMarks(s: State, t: Tid, g: SignalAt)
    requires t in s.pc && s.pc[t] == Signal(g)
    ensures MarksItself(s, NextSignal(s, t, g), t)
  {
  }

  lemma BroadcastMarks(s: State, t: Tid, b: BroadcastAt)
    requires t in s.pc && s.pc[t] == Broadcast(b)
    ensures MarksItself(s, NextBroadcast(s, t, b), t)
  {
  }

  lemma MarkedInside(p: PC)
    requires Marked(p)
    ensures HoldsMutex(p)
  {
  }

  lemma StatusKept(s: State, s': State, t: Tid)
    requires MarksItself(s, s', t) && Locked(s) && StatusOk(s)
    ensures StatusOk(s')
  {
    assert Protocol(s).role[t] == RoleOf(s.pc[t]);
    forall u | u in s.pc && u != t && Marked(s.pc[u]) ensures !HoldsMutex(s.pc[t]) {
      assert Protocol(s).role[u] == RoleOf(s.pc[u]);
      MarkedInside(s.pc[u]);
    }
    if s'.m.mutexLocked {
      var u :| u in s.pc && (if s.m.mutexLocked then Marked(s.pc[u]) else u == t);
      assert Marked(s'.pc[u]) || Marked(s'.pc[t]);
    }
  }

  /** In every run the mutex's status field is set exactly while some thread is between lock and unlock. */
  lemma {:induction false} RunStatus(tr: seq<State>, initial: int, n: nat)
    requires Run(tr, initial) && n < |tr|
    ensures StatusOk(tr[n])
  {
    if n > 0 {
      RunStatus(tr, initial, n - 1);
      EveryRunLocked(tr, initial, n - 1);
      assert StepAt(tr, n - 1);
      var t :| StepOf(tr[n - 1], tr[n], t);
      StepMarks(tr[n - 1], tr[n], t);
      StatusKept(tr[n - 1], tr[n], t);
    }
  }

  // ----- nobody is stuck but for want of a count

  ghost predicate Moves(s: State, t: Tid) { exists s' :: StepOf(s, s', t) && s' != s }

  /** Nobody in the middle of an operation can go on. */
  ghost predicate Stuck(s: State) { forall t :: t in s.pc && s.pc[t] != Idle ==> !Moves(s, t) }

  function Next(s: State, t: Tid): State
    requires t in s.pc && s.pc[t] != Idle
  {
    match s.pc[t]
    case Wait(w) => NextWait(s, t, w)
    case Cond(c) => NextCond(s, t, c)
    case Signal(g) => NextSignal(s, t, g)
    case Broadcast(b) => NextBroadcast(s, t, b)
  }

  /** What can keep a thread from going on: a lock, or sleep, its own or that of the one it is waking. */
  predicate Blocked(p: PC, mutexLock: bool, cvLock: bool, asleep: bool)
  {
    match p
    case Wait(w) => (w.WLock? || w.WRelock?) && mutexLock
    case Cond(c) => (c.CLock? && cvLock) || c.Asleep?
    case Signal(g) => (g.SLock? && mutexLock) || (g.SCvLock? && cvLock) || (g.SWake? && !asleep)
    case Broadcast(b) => (b.BLock? && cvLock) || (b.BWake? && !asleep)
    case Idle => false
  }

  /** The thread that `p` is waking is asleep. */
  ghost predicate SleeperAsleep(s: State, t: Tid)
    requires t in s.pc
  {
    Waking(s.pc[t]) && Sleeper(s.pc[t]) in s.pc && Sleeper(s.pc[t]) != t && s.pc[Sleeper(s.pc[t])] == Cond(Asleep)
  }

  lemma StuckBlocked(s: State, t: Tid)
    requires Stuck(s) && t in s.pc && s.pc[t] != Idle
    ensures Blocked(s.pc[t], s.m.mutexLock, s.m.cvLock, SleeperAsleep(s, t))
  {
    assert StepOf(s, Next(s, t), t);
    if !Blocked(s.pc[t], s.m.mutexLock, s.m.cvLock, SleeperAsleep(s, t)) { NextMoves(s, t); }
  }

  lemma NextMoves(s: State, t: Tid)
    requires t in s.pc && s.pc[t] != Idle && !Blocked(s.pc[t], s.m.mutexLock, s.m.cvLock, SleeperAsleep(s, t))
    ensures t in Next(s, t).pc && Next(s, t).pc[t] != s.pc[t]
  {
    match s.pc[t]
    case Wait(w) =>
    case Cond(c) =>
    case Signal(g) =>
    case Broadcast(b) =>
  }

  lemma RolesAre(s: State)
    ensures forall t :: t in s.pc ==> t in Protocol(s).role && Protocol(s).role[t] == RoleOf(s.pc[t])
  {
  }

  /** A thread that is being woken is asleep by then, or still has a step to go. */
  lemma SleeperRests(s: State, t: Tid)
    requires Stuck(s) && P.QueueOk(Protocol(s)) && t in s.pc && Waking(s.pc[t])
    ensures SleeperAsleep(s, t)
  {
    RolesAre(s);
    var u := Sleeper(s.pc[t]);
    assert Protocol(s).role[t].Waker? && Protocol(s).role[u] == P.Rest;
    if s.pc[u] != Cond(Asleep) { StuckBlocked(s, u); }
  }

  lemma CvFree(s: State)
    requires Stuck(s) && P.CvOk(Protocol(s)) && P.QueueOk(Protocol(s))
    ensures !s.m.cvLock
  {
    RolesAre(s);
    if s.m.cvLock {
      var t :| t in Protocol(s).role && P.InCv(Protocol(s).role[t]);
      StuckBlocked(s, t);
      if Waking(s.pc[t]) { SleeperRests(s, t); }
    }
  }

  lemma MutexFree(s: State)
    requires Stuck(s) && P.MutexOk(Protocol(s)) && P.CvOk(Protocol(s)) && P.QueueOk(Protocol(s))
    ensures !s.m.mutexLock
  {
    RolesAre(s);
    CvFree(s);
    if s.m.mutexLock {
      var t :| t in Protocol(s).role && P.InMutex(Protocol(s).role[t]);
      StuckBlocked(s, t);
      if Waking(s.pc[t]) { SleeperRests(s, t); }
    }
  }

  lemma AllAsleep(s: State, t: Tid)
    requires Stuck(s) && P.MutexOk(Protocol(s)) && P.CvOk(Protocol(s)) && P.QueueOk(Protocol(s)) && t in s.pc
    ensures s.pc[t] == Idle || s.pc[t] == Cond(Asleep)
  {
    CvFree(s);
    MutexFree(s);
    if s.pc[t] != Idle {
      StuckBlocked(s, t);
      if Waking(s.pc[t]) { SleeperRests(s, t); }
    }
  }

  lemma AsleepListed(s: State, t: Tid)
    requires Stuck(s) && P.MutexOk(Protocol(s)) && P.CvOk(Protocol(s)) && P.QueueOk(Protocol(s))
    requires t in s.pc && s.pc[t] == Cond(Asleep)
    ensures t in s.m.waiters
  {
    RolesAre(s);
    if t !in s.m.waiters {
      assert P.BeingWoken(Protocol(s), t);
      var u :| u in Protocol(s).role && Protocol(s).role[u].Waker?;
      AllAsleep(s, u);
    }
  }

  /** No wake-up is owed to anyone in such a state, so there is no count either. */
  lemma NothingOwed(s: State)
    requires Stuck(s) && P.Inv(Protocol(s)) && s.m.waiters != []
    ensures s.m.count == 0
  {
    RolesAre(s);
    forall t | t in s.pc ensures s.pc[t] == Idle || s.pc[t] == Cond(Asleep) { AllAsleep(s, t); }
    forall t ensures t !in P.DueSet(Protocol(s)) {
      if t in s.pc && s.pc[t] == Cond(Asleep) { AsleepListed(s, t); }
    }
    assert P.DueSet(Protocol(s)) == {};
    assert !P.SignalPending(Protocol(s));
  }

  /**
   * In every run: when nobody in the middle of an operation can go on, both locks are free, all of
   * them are asleep on the wait list, and if there is any the count is zero.
   */
  lemma RunStuck(tr: seq<State>, initial: int, n: nat)
    requires Run(tr, initial) && initial >= 0 && n < |tr| && Stuck(tr[n])
    ensures !tr[n].m.mutexLock && !tr[n].m.cvLock
    ensures forall t :: t in tr[n].pc && tr[n].pc[t] != Idle ==> tr[n].pc[t] == Cond(Asleep) && t in tr[n].m.waiters
    ensures (exists t :: t in tr[n].pc && tr[n].pc[t] != Idle) ==> tr[n].m.count == 0
  {
    EveryRun(tr, initial, n);
    var s := tr[n];
    CvFree(s);
    MutexFree(s);
    forall t | t in s.pc && s.pc[t] != Idle ensures s.pc[t] == Cond(Asleep) && t in s.m.waiters {
      AllAsleep(s, t);
      AsleepListed(s, t);
    }
    if s.m.waiters != [] { NothingOwed(s); }
  }

  // ----- every operation ends after a bounded number of the thread's own steps, sleep apart

  function Rank(p: PC, waiting: nat): nat
  {
    match p
    case Idle => 0
    case Wait(w) => WaitRank(w)
    case Cond(c) => CondRank(c)
    case Signal(g) => SignalRank(g)
    case Broadcast(b) => BroadcastRank(b, waiting)
  }

  function WaitRank(w: WaitAt): nat
  {
    match w
    case WLock => 16 case WRelock => 16 case WStatus(_) => 15 case WRead(_) => 14 case WTest(_, _) => 13
    case WLoad(_) => 4 case WStore(_, _) => 3 case WUnStatus => 2 case WUnspin => 1
  }

  function CondRank(c: CondAt): nat
  {
    match c
    case CLock => 12 case CStatus => 11 case CUnspin => 10 case CEnqueue => 9 case CInsert(_) => 8
    case CUnlock => 7 case CSleep => 6 case Asleep => 5
  }

  function SignalRank(g: SignalAt): nat
  {
    match g
    case SLock => 11 case SStatus => 10 case SLoad => 9 case SStore(_) => 8 case SCvLock => 7 case SDequeue => 6
    case SRemove(_) => 5 case SWake(_) => 4 case SCvUnlock => 3 case SUnStatus => 2 case SUnspin => 1
  }

  /** A broadcast goes round once for each thread on the list. */
  function BroadcastRank(b: BroadcastAt, waiting: nat): nat
  {
    match b
    case BLock => 3 * waiting + 4 case BDequeue => 3 * waiting + 3 case BRemove(_) => 3 * waiting + 2
    case BWake(_) => 3 * waiting + 4 case BUnlock => 1
  }

  /** A step brings its own thread nearer to its end; another thread is moved only by being woken. */
  ghost predicate Ahead(s: State, s': State, t: Tid)
  {
    && t in s.pc && s'.pc.Keys == s.pc.Keys && Rank(s'.pc[t], |s'.m.waiters|) < Rank(s.pc[t], |s.m.waiters|)
    && forall u :: u in s.pc && u != t ==> s'.pc[u] == s.pc[u] || (s.pc[u] == Cond(Asleep) && s'.pc[u] == Wait(WRelock))
  }

  lemma StepsAhead(s: State, s': State, t: Tid)
    requires StepOf(s, s', t) && s.pc[t] != Idle && s' != s && LocalsOk(s)
    ensures Ahead(s, s', t)
  {
    assert LocalOk(s.pc[t], s.m.count, s.m.waiters);
    match s.pc[t]
    case Wait(w) => WaitAhead(s, t, w);
    case Cond(c) => CondAhead(s, t, c);
    case Signal(g) => SignalAhead(s, t, g);
    case Broadcast(b) => BroadcastAhead(s, t, b);
  }

  lemma WaitAhead(s: State, t: Tid, w: WaitAt)
    requires t in s.pc && s.pc[t] == Wait(w)
    ensures NextWait(s, t, w) != s ==> Ahead(s, NextWait(s, t, w), t)
  {
  }

  lemma CondAhead(s: State, t: Tid, c: CondAt)
    requires t in s.pc && s.pc[t] == Cond(c)
    ensures NextCond(s, t, c) != s ==> Ahead(s, NextCond(s, t, c), t)
  {
  }

  lemma SignalAhead(s: State, t: Tid, g: SignalAt)
    requires t in s.pc && s.pc[t] == Signal(g)
    ensures NextSignal(s, t, g) != s ==> Ahead(s, NextSignal(s, t, g), t)
  {
  }

  lemma BroadcastAhead(s: State, t: Tid, b: BroadcastAt)
    requires t in s.pc && s.pc[t] == Broadcast(b) && LocalOk(Broadcast(b), s.m.count, s.m.waiters)
    ensures NextBroadcast(s, t, b) != s ==> Ahead(s, NextBroadcast(s, t, b), t)
  {
  }

  // ----- what can happen: a thread running alone

  ghost function Last(tr: seq<State>): State
    requires |tr| > 0
  {
    tr[|tr| - 1]
  }

  predicate IsAt(s: State, t: Tid, p: PC) { t in s.pc && s.pc[t] == p }

  /** The others are idle, asleep, or woken and waiting for the mutex. */
  predicate Resting(p: PC) { p == Idle || p == Cond(Asleep) || p == Wait(WRelock) }

  ghost predicate OthersRest(s: State, t: Tid) { forall u :: u in s.pc && u != t ==> Resting(s.pc[u]) }

  datatype Op = Waits | Signals | Broadcasts

  /** How far the operation of thread `t` has got with the count and the wait list that it found. */
  ghost predicate SoFar(s: State, t: Tid, c: int, list: seq<Tid>, op: Op)
  {
    t in s.pc && t !in list && match s.pc[t]
      case Idle => Done(s, c, list, op)
      case Wait(w) => op == Waits && s.m.waiters == list && WaitSoFar(w, s.m.count, c)
      case Cond(k) => op == Waits && c <= 0 && s.m.count == c
                      && s.m.waiters == if k.CUnlock? || k.CSleep? || k.Asleep? then list + [t] else list
      case Signal(g) => op == Signals && SignalledSoFar(s, g, c, list)
      case Broadcast(b) => op == Broadcasts && s.m.count == c && (b.BUnlock? ==> s.m.waiters == [])
  }

  predicate WaitSoFar(w: WaitAt, count: int, c: int)
  {
    if w.WUnStatus? || w.WUnspin? then c > 0 && count == c - 1 else count == c
  }

  ghost predicate SignalledSoFar(s: State, g: SignalAt, c: int, list: seq<Tid>)
  {
    match g
    case SCvLock => s.m.count == c + 1 && s.m.waiters == list
    case SDequeue => s.m.count == c + 1 && s.m.waiters == list
    case SRemove(_) => s.m.count == c + 1 && s.m.waiters == list
    case SWake(u) => s.m.count == c + 1 && list != [] && u == list[0]
    case SCvUnlock => s.m.count == c + 1 && Woke(s, list)
    case SUnStatus => s.m.count == c + 1 && Woke(s, list)
    case SUnspin => s.m.count == c + 1 && Woke(s, list)
    case _ => s.m.count == c && s.m.waiters == list
  }

  /** The first on the list, if any, is woken. */
  ghost predicate Woke(s: State, list: seq<Tid>)
  {
    list != [] ==> list[0] in s.pc && s.pc[list[0]] == Wait(WRelock)
  }

  /** What an operation has done when it comes to its end. */
  ghost predicate Done(s: State, c: int, list: seq<Tid>, op: Op)
  {
    match op
    case Waits => c > 0 && s.m.count == c - 1 && s.m.waiters == list
    case Signals => s.m.count == c + 1 && Woke(s, list)
    case Broadcasts => s.m.count == c && s.m.waiters == []
  }

  lemma SoFarKept(s: State, s': State, t: Tid, c: int, list: seq<Tid>, op: Op)
    requires StepOf(s, s', t) && LocalsOk(s) && SoFar(s, t, c, list, op) && s.pc[t] != Idle
    ensures SoFar(s', t, c, list, op)
  {
    assert LocalOk(s.pc[t], s.m.count, s.m.waiters);
    match s.pc[t]
    case Signal(g) => SignalSoFarKept(s, t, g, c, list);
    case _ =>
  }

  lemma SignalSoFarKept(s: State, t: Tid, g: SignalAt, c: int, list: seq<Tid>)
    requires t in s.pc && s.pc[t] == Signal(g) && LocalOk(Signal(g), s.m.count, s.m.waiters) && SoFar(s, t, c, list, Signals)
    ensures SoFar(NextSignal(s, t, g), t, c, list, Signals)
  {
  }

  /** While the others rest, nothing but sleep keeps a thread from going on. */
  lemma FreeToGo(tr: seq<State>, initial: int, t: Tid)
    requires Run(tr, initial) && initial >= 0 && t in Last(tr).pc && OthersRest(Last(tr), t)
    requires Last(tr).pc[t] != Idle && Last(tr).pc[t] != Cond(Asleep)
    ensures Next(Last(tr), t).pc[t] != Last(tr).pc[t]
  {
    RunLocks(tr, initial, |tr| - 1);
    if Waking(Last(tr).pc[t]) { WokenAsleep(tr, initial, t); }
    NotBlocked(Last(tr), t);
    NextMoves(Last(tr), t);
  }

  lemma WokenAsleep(tr: seq<State>, initial: int, t: Tid)
    requires Run(tr, initial) && initial >= 0 && t in Last(tr).pc && OthersRest(Last(tr), t) && Waking(Last(tr).pc[t])
    ensures SleeperAsleep(Last(tr), t)
  {
    EveryRun(tr, initial, |tr| - 1);
    RestingSleeper(Last(tr), t);
  }

  /** A lock that is set has someone inside, and that can only be the thread itself. */
  lemma NotBlocked(s: State, t: Tid)
    requires t in s.pc && OthersRest(s, t) && s.pc[t] != Idle && s.pc[t] != Cond(Asleep)
    requires s.m.mutexLock ==> exists u :: u in s.pc && HoldsMutex(s.pc[u])
    requires s.m.cvLock ==> exists u :: u in s.pc && InsideCv(s.pc[u])
    requires Waking(s.pc[t]) ==> SleeperAsleep(s, t)
    ensures !Blocked(s.pc[t], s.m.mutexLock, s.m.cvLock, SleeperAsleep(s, t))
  {
    forall u | u in s.pc && u != t ensures !HoldsMutex(s.pc[u]) && !InsideCv(s.pc[u]) {}
  }

  lemma RestingSleeper(s: State, t: Tid)
    requires P.QueueOk(Protocol(s)) && t in s.pc && Waking(s.pc[t]) && OthersRest(s, t)
    ensures SleeperAsleep(s, t)
  {
    RolesAre(s);
    var u := Sleeper(s.pc[t]);
    assert Protocol(s).role[t].Waker? && Protocol(s).role[u] == P.Rest;
  }

  lemma OneMore(tr: seq<State>, initial: int, t: Tid, s': State) returns (tr': seq<State>)
    requires Run(tr, initial) && StepOf(Last(tr), s', t)
    ensures tr' == tr + [s'] && Run(tr', initial)
  {
    tr' := tr + [s'];
    forall i | 0 <= i < |tr'| - 1 ensures StepAt(tr', i) {
      if i < |tr| - 1 { assert StepAt(tr, i); } else { assert Step(tr'[i], tr'[i + 1]); }
    }
  }

  /** The others are as before, or have been woken. */
  ghost predicate OthersWoken(s: State, s': State, t: Tid)
  {
    && s'.pc.Keys == s.pc.Keys
    && forall u :: u in s.pc && u != t ==> s'.pc[u] == s.pc[u] || (s.pc[u] == Cond(Asleep) && s'.pc[u] == Wait(WRelock))
  }

  /** A thread whose fellows rest finishes its operation, or falls asleep over a count that is not positive. */
  lemma {:induction false} RunsAlone(tr: seq<State>, initial: int, t: Tid, c: int, list: seq<Tid>, op: Op) returns (tr': seq<State>)
    requires Run(tr, initial) && initial >= 0 && t in Last(tr).pc && OthersRest(Last(tr), t)
    requires SoFar(Last(tr), t, c, list, op)
    ensures Extends(tr, tr', initial) && OthersWoken(Last(tr), Last(tr'), t)
    ensures SoFar(Last(tr'), t, c, list, op) && (Last(tr').pc[t] == Idle || Last(tr').pc[t] == Cond(Asleep))
    decreases Rank(Last(tr).pc[t], |Last(tr).m.waiters|)
  {
    var s := Last(tr);
    if s.pc[t] == Idle || s.pc[t] == Cond(Asleep) {
      tr' := tr;
    } else {
      var s' := AloneStep(tr, initial, t, c, list, op);
      var next := OneMore(tr, initial, t, s');
      tr' := RunsAlone(next, initial, t, c, list, op);
      assert tr'[..|tr|] == next[..|tr|];
    }
  }

  /** A longer run with the same beginning. */
  ghost predicate Extends(tr: seq<State>, tr': seq<State>, initial: int)
  {
    |tr| > 0 && Run(tr', initial) && |tr| <= |tr'| && tr'[..|tr|] == tr
  }

  lemma AloneStep(tr: seq<State>, initial: int, t: Tid, c: int, list: seq<Tid>, op: Op) returns (s': State)
    requires Run(tr, initial) && initial >= 0 && t in Last(tr).pc && OthersRest(Last(tr), t)
    requires SoFar(Last(tr), t, c, list, op) && Last(tr).pc[t] != Idle && Last(tr).pc[t] != Cond(Asleep)
    ensures StepOf(Last(tr), s', t) && t in s'.pc && OthersRest(s', t) && OthersWoken(Last(tr), s', t)
    ensures SoFar(s', t, c, list, op)
    ensures Rank(s'.pc[t], |s'.m.waiters|) < Rank(Last(tr).pc[t], |Last(tr).m.waiters|)
  {
    var s := Last(tr);
    s' := Next(s, t);
    EveryRunLocked(tr, initial, |tr| - 1);
    FreeToGo(tr, initial, t);
    StepsAhead(s, s', t);
    SoFarKept(s, s', t, c, list, op);
  }

  /** Those on the list are asleep or about to be, so an idle thread is not among them. */
  lemma IdleUnlisted(tr: seq<State>, initial: int, t: Tid)
    requires Run(tr, initial) && initial >= 0 && t in Last(tr).pc && Last(tr).pc[t] == Idle
    ensures t !in Last(tr).m.waiters
  {
    EveryRun(tr, initial, |tr| - 1);
    RolesAre(Last(tr));
  }

  /**
   * An idle thread whose fellows rest calls an operation. sem_wait takes one if there is one and joins
   * the end of the wait list asleep otherwise; sem_signal adds one and wakes the first on the list;
   * cond_broadcast empties the list.
   */
  lemma Called(tr: seq<State>, initial: int, t: Tid, op: Op) returns (tr': seq<State>)
    requires Run(tr, initial) && initial >= 0 && t in Last(tr).pc && Last(tr).pc[t] == Idle && OthersRest(Last(tr), t)
    ensures Extends(tr, tr', initial) && OthersWoken(Last(tr), Last(tr'), t)
    ensures var s, s' := Last(tr), Last(tr');
      match op
      case Waits =>
        if s.m.count > 0 then s'.pc[t] == Idle && s'.m.count == s.m.count - 1 && s'.m.waiters == s.m.waiters
        else s'.pc[t] == Cond(Asleep) && s'.m.count == s.m.count && s'.m.waiters == s.m.waiters + [t]
      case Signals =>
        && s'.pc[t] == Idle && s'.m.count == s.m.count + 1
        && (s.m.waiters != [] ==> s.m.waiters[0] in s'.pc && s'.pc[s.m.waiters[0]] == Wait(WRelock))
      case Broadcasts => s'.pc[t] == Idle && s'.m.count == s.m.count && s'.m.waiters == []
  {
    var s := Last(tr);
    IdleUnlisted(tr, initial, t);
    var p := match op case Waits => Wait(WLock) case Signals => Signal(SLock) case Broadcasts => Broadcast(BLock);
    var next := OneMore(tr, initial, t, Go(s, t, p, s.m));
    tr' := RunsAlone(next, initial, t, s.m.count, s.m.waiters, op);
    assert tr'[..|tr|] == next[..|tr|];
  }

  /** From a free semaphore at zero: one thread waits and sleeps, another signals, and the first gets through. */
  lemma SleeperGetsThrough(tr: seq<State>, initial: int, t: Tid, u: Tid) returns (tr': seq<State>, i: nat)
    requires Run(tr, initial) && initial >= 0 && t in Last(tr).pc && u in Last(tr).pc && t != u
    requires (forall v :: v in Last(tr).pc ==> Last(tr).pc[v] == Idle) && Last(tr).m.count == 0 && Last(tr).m.waiters == []
    ensures Extends(tr, tr', initial) && |tr| <= i < |tr'| && IsAt(tr'[i], t, Cond(Asleep))
    ensures IsAt(Last(tr'), t, Idle) && IsAt(Last(tr'), u, Idle) && Last(tr').m.count == 0
  {
    var tr1 := Called(tr, initial, t, Waits);
    var tr2 := Called(tr1, initial, u, Signals);
    assert Last(tr1).m.waiters == [t];
    Relocked(tr2, initial, t);
    tr' := RunsAlone(tr2, initial, t, 1, Last(tr2).m.waiters, Waits);
    i := |tr1| - 1;
    assert tr'[..|tr2|] == tr2 && tr2[..|tr1|] == tr1 && tr1[..|tr|] == tr;
    assert tr'[i] == tr2[i] == tr1[i];
    assert tr'[..|tr|] == tr2[..|tr|] == tr1[..|tr|];
  }

  lemma Relocked(tr: seq<State>, initial: int, t: Tid)
    requires Run(tr, initial) && initial >= 0 && t in Last(tr).pc && Last(tr).pc[t] == Wait(WRelock)
    ensures t !in Last(tr).m.waiters
  {
    EveryRun(tr, initial, |tr| - 1);
    RolesAre(Last(tr));
  }
}
