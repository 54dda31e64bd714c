/** The counting semaphore users rely on: a value, taken only when positive. */
module AtomicSemaphore {

  type Tid = int

  datatype Phase = Idle | Waiting | Waited | Signalling | Signalled

  datatype State = State(value: int, phase: map<Tid, Phase>)

  ghost predicate Moves(s: State, s': State, t: Tid, from: Phase, to: Phase, change: int)
  {
    && t in s.phase && s.phase[t] == from
    && s' == State(s.value + change, s.phase[t := to])
  }

  ghost predicate StepOf(s: State, s': State, t: Tid)
  {
    || Moves(s, s', t, Idle, Waiting, 0)
    || (s.value > 0 && Moves(s, s', t, Waiting, Waited, -1))
    || Moves(s, s', t, Waited, Idle, 0)
    || Moves(s, s', t, Idle, Signalling, 0)
    || Moves(s, s', t, Signalling, Signalled, 1)
    || Moves(s, s', t, Signalled, Idle, 0)
  }

  /** One step of the semaphore, or none. */
  ghost predicate Step(s: State, s': State)
  {
    s' == s || exists t :: StepOf(s, s', t)
  }
}

/**
 * The user-level semaphore as a step system: any number of threads run sem_wait and sem_signal
 * (and cond_broadcast on the semaphore's condition variable), with mutex, condition variable and
 * spinlocks written out. One step loads or stores one shared field, or is one system call; what was
 * loaded is kept in the thread's own position and may be out of date by the time it is used. The
 * wait list is loaded and stored as a whole. Deschedule, make_runnable and the exchange behind the
 * spinlock are atomic.
 */
module SemaphoreSystem {
  import P = SemaphoreProtocol
  import A = AtomicSemaphore

  type Tid = int

  /**
   * Positions in sem_wait; `woken` says that the thread was woken before. The count is read, the
   * value tested, then loaded again, and the value less one stored.
   */
  datatype WaitAt =
    | WLock | WStatus(woken: bool) | WRead(woken: bool) | WTest(woken: bool, seen: int)
    | WLoad(woken: bool) | WStore(woken: bool, loaded: int) | WUnStatus | WUnspin | WRelock

  /** Positions in cond_wait, called from sem_wait. */
  datatype CondAt = CLock | CStatus | CUnspin | CEnqueue | CInsert(list: seq<Tid>) | CUnlock | CSleep | Asleep

  /** Positions in sem_signal and the cond_signal inside it. */
  datatype SignalAt =
    | SLock | SStatus | SLoad | SStore(loaded: int) | SCvLock | SDequeue | SRemove(list: seq<Tid>)
    | SWake(sleeper: Tid) | SCvUnlock | SUnStatus | SUnspin

  /** Positions in cond_broadcast. */
  datatype BroadcastAt = BLock | BDequeue | BRemove(list: seq<Tid>) | BWake(sleeper: Tid) | BUnlock

  datatype PC = Idle | Wait(w: WaitAt) | Cond(c: CondAt) | Signal(g: SignalAt) | Broadcast(b: BroadcastAt)

  /** The semaphore's fields. */
  datatype Shared = Shared(
    mutexLock: bool,        // the mutex's spinlock
    mutexLocked: bool,      // the mutex's status field
    cvLock: bool,           // the condition variable's spinlock
    waiters: seq<Tid>,      // its wait list
    count: int)

  /** What has happened so far. */
  datatype History = History(
    increments: int,          // sem_signal's increments of the count
    takes: int,               // sem_wait's decrements
    joined: multiset<Tid>,    // threads put on the wait list
    dequeued: multiset<Tid>,  // threads taken off it by a signal or broadcast
    left: multiset<Tid>)      // threads that left deschedule

  datatype State = State(pc: map<Tid, PC>, m: Shared, h: History)

  ghost predicate Init(s: State, initial: int)
  {
    && (forall t :: t in s.pc ==> s.pc[t] == Idle)
    && s.m == Shared(false, false, false, [], initial)
    && s.h == History(0, 0, multiset{}, multiset{}, multiset{})
  }

  function Go(s: State, t: Tid, p: PC, m: Shared): State { State(s.pc[t := p], m, s.h) }

  /** make_runnable: succeeds only on a descheduled thread, otherwise the caller yields and retries. */
  function Wake(s: State, t: Tid, u: Tid, p: PC): State
  {
    if u in s.pc && u != t && s.pc[u] == Cond(Asleep)
    then State(s.pc[u := Wait(WRelock)][t := p], s.m, s.h.(left := s.h.left + multiset{u}))
    else s
  }

  /** Stores the list loaded before without its first element. */
  function Dequeue(s: State, t: Tid, p: PC, list: seq<Tid>): State
    requires list != []
  {
    State(s.pc[t := p], s.m.(waiters := list[1..]), s.h.(dequeued := s.h.dequeued + multiset{list[0]}))
  }

  function NextWait(s: State, t: Tid, w: WaitAt): State
  {
    match w
    case WLock => if s.m.mutexLock then s else Go(s, t, Wait(WStatus(false)), s.m.(mutexLock := true))
    case WRelock => if s.m.mutexLock then s else Go(s, t, Wait(WStatus(true)), s.m.(mutexLock := true))
    case WStatus(k) => Go(s, t, Wait(WRead(k)), s.m.(mutexLocked := true))
    case WRead(k) => Go(s, t, Wait(WTest(k, s.m.count)), s.m)
    case WTest(k, seen) => Go(s, t, if seen <= 0 then Cond(CLock) else Wait(WLoad(k)), s.m)
    case WLoad(k) => Go(s, t, Wait(WStore(k, s.m.count)), s.m)
    case WStore(_, c) => State(s.pc[t := Wait(WUnStatus)], s.m.(count := c - 1), s.h.(takes := s.h.takes + 1))
    case WUnStatus => Go(s, t, Wait(WUnspin), s.m.(mutexLocked := false))
    case WUnspin => Go(s, t, Idle, s.m.(mutexLock := false))
  }

  function NextCond(s: State, t: Tid, c: CondAt): State
  {
    match c
    case CLock => if s.m.cvLock then s else Go(s, t, Cond(CStatus), s.m.(cvLock := true))
    case CStatus => Go(s, t, Cond(CUnspin), s.m.(mutexLocked := false))
    case CUnspin => Go(s, t, Cond(CEnqueue), s.m.(mutexLock := false))
    case CEnqueue => Go(s, t, Cond(CInsert(s.m.waiters)), s.m)
    case CInsert(list) => State(s.pc[t := Cond(CUnlock)], s.m.(waiters := list + [t]),
                                s.h.(joined := s.h.joined + multiset{t}))
    case CUnlock => Go(s, t, Cond(CSleep), s.m.(cvLock := false))
    case CSleep => Go(s, t, Cond(Asleep), s.m)
    case Asleep => s
  }

  function NextSignal(s: State, t: Tid, g: SignalAt): State
  {
    match g
    case SLock => if s.m.mutexLock then s else Go(s, t, Signal(SStatus), s.m.(mutexLock := true))
    case SStatus => Go(s, t, Signal(SLoad), s.m.(mutexLocked := true))
    case SLoad => Go(s, t, Signal(SStore(s.m.count)), s.m)
    case SStore(c) => State(s.pc[t := Signal(SCvLock)], s.m.(count := c + 1), s.h.(increments := s.h.increments + 1))
    case SCvLock => if s.m.cvLock then s else Go(s, t, Signal(SDequeue), s.m.(cvLock := true))
    case SDequeue => Go(s, t, Signal(SRemove(s.m.waiters)), s.m)
    case SRemove(list) => if list == [] then Go(s, t, Signal(SCvUnlock), s.m)
                          else Dequeue(s, t, Signal(SWake(list[0])), list)
    case SWake(u) => Wake(s, t, u, Signal(SCvUnlock))
    case SCvUnlock => Go(s, t, Signal(SUnStatus), s.m.(cvLock := false))
    case SUnStatus => Go(s, t, Signal(SUnspin), s.m.(mutexLocked := false))
    case SUnspin => Go(s, t, Idle, s.m.(mutexLock := false))
  }

  function NextBroadcast(s: State, t: Tid, b: BroadcastAt): State
  {
    match b
    case BLock => if s.m.cvLock then s else Go(s, t, Broadcast(BDequeue), s.m.(cvLock := true))
    case BDequeue => Go(s, t, Broadcast(BRemove(s.m.waiters)), s.m)
    case BRemove(list) => if list == [] then Go(s, t, Broadcast(BUnlock), s.m)
                          else Dequeue(s, t, Broadcast(BWake(list[0])), list)
    case BWake(u) => Wake(s, t, u, Broadcast(BDequeue))
    case BUnlock => Go(s, t, Idle, s.m.(cvLock := false))
  }

  /** An idle thread calls one of the operations. */
  ghost predicate Calls(s: State, s': State, t: Tid)
  {
    s' == Go(s, t, Wait(WLock), s.m) || s' == Go(s, t, Signal(SLock), s.m) || s' == Go(s, t, Broadcast(BLock), s.m)
  }

  /** Thread `t` takes its next step. */
  ghost predicate StepOf(s: State, s': State, t: Tid)
  {
    t in s.pc && match s.pc[t]
      case Idle => Calls(s, s', t)
      case Wait(w) => s' == NextWait(s, t, w)
      case Cond(c) => s' == NextCond(s, t, c)
      case Signal(g) => s' == NextSignal(s, t, g)
      case Broadcast(b) => s' == NextBroadcast(s, t, b)
  }

  ghost predicate Step(s: State, s': State) { exists t :: StepOf(s, s', t) }

  /** The step from state `i` to the next. */
  ghost predicate StepAt(tr: seq<State>, i: int)
    requires 0 <= i < |tr| - 1
  {
    Step(tr[i], tr[i + 1])
  }

  ghost predicate Run(tr: seq<State>, initial: int)
  {
    && |tr| > 0 && Init(tr[0], initial)
    && forall i :: 0 <= i < |tr| - 1 ==> StepAt(tr, i)
  }

  // ----- the protocol behind the code

  function RoleOf(p: PC): P.Role
  {
    match p
    case Idle => P.Out
    case Wait(w) => WaitRole(w)
    case Cond(c) => CondRole(c)
    case Signal(g) => SignalRole(g)
    case Broadcast(b) => BroadcastRole(b)
  }

  function WaitRole(w: WaitAt): P.Role
  {
    match w
    case WLock => P.Out
    case WRelock => P.Woken
    case WStatus(k) => if k then P.MxWoken else P.Mx
    case WRead(k) => if k then P.MxWoken else P.Mx
    case WTest(k, _) => if k then P.MxWoken else P.Mx
    case WLoad(k) => if k then P.MxWoken else P.Mx
    case WStore(k, _) => if k then P.MxWoken else P.Mx
    case WUnStatus => P.Mx
    case WUnspin => P.Mx
  }

  function CondRole(c: CondAt): P.Role
  {
    match c
    case CLock => P.Low
    case CStatus => P.LowCv
    case CUnspin => P.LowCv
    case CEnqueue => P.Enter
    case CInsert(_) => P.Enter
    case CUnlock => P.Fresh
    case CSleep => P.Rest
    case Asleep => P.Rest
  }

  function SignalRole(g: SignalAt): P.Role
  {
    match g
    case SLock => P.Out
    case SCvLock => P.Pend
    case SDequeue => P.PendCv
    case SRemove(_) => P.PendCv
    case SWake(u) => P.Waker(u, true)
    case SCvUnlock => P.MxCv
    case _ => P.Mx
  }

  function BroadcastRole(b: BroadcastAt): P.Role
  {
    match b
    case BLock => P.Out
    case BDequeue => P.Cv
    case BRemove(_) => P.Cv
    case BWake(u) => P.Waker(u, false)
    case BUnlock => P.Cv
  }

  ghost function Roles(pc: map<Tid, PC>): map<Tid, P.Role> { map t | t in pc :: RoleOf(pc[t]) }

  ghost function Protocol(s: State): P.State
  {
    P.State(Roles(s.pc), s.m.mutexLock, s.m.cvLock, s.m.waiters, s.m.count)
  }

  /** Moving one thread moves its role. */
  lemma RolesMove(pc: map<Tid, PC>, t: Tid, p: PC)
    requires t in pc
    ensures Roles(pc[t := p]) == Roles(pc)[t := RoleOf(p)] && Roles(pc)[t] == RoleOf(pc[t])
    ensures RoleOf(p) == RoleOf(pc[t]) ==> Roles(pc[t := p]) == Roles(pc)
  {
  }

  // ----- what threads have loaded

  /** What a thread has loaded, or concluded from it, is still true. */
  predicate LocalOk(p: PC, count: int, waiters: seq<Tid>)
  {
    match p
    case Wait(w) =>
      && (w.WTest? ==> w.seen == count) && (w.WLoad? || w.WStore? ==> count > 0) && (w.WStore? ==> w.loaded == count)
    case Cond(c) => c.CInsert? ==> c.list == waiters
    case Signal(g) => (g.SStore? ==> g.loaded == count) && (g.SRemove? ==> g.list == waiters)
    case Broadcast(b) => b.BRemove? ==> b.list == waiters
    case Idle => true
  }

  ghost predicate LocalsOk(s: State) { forall t :: t in s.pc ==> LocalOk(s.pc[t], s.m.count, s.m.waiters) }

  /** At most one thread inside each lock, and no thread's local copy out of date. */
  ghost predicate Locked(s: State) { P.MutexOk(Protocol(s)) && P.CvOk(Protocol(s)) && LocalsOk(s) }

  /** A code step is a protocol step or invisible to the protocol. */
  ghost predicate Follows(s: State, s': State, t: Tid)
  {
    Protocol(s') == Protocol(s) || P.StepOf(Protocol(s), Protocol(s'), t)
  }

  // Leaf steps, by their effect on the locks.

  lemma Neutral(s: State, t: Tid, p: PC, m: Shared)
    requires t in s.pc && RoleOf(p) == RoleOf(s.pc[t]) && m == s.m.(mutexLocked := m.mutexLocked)
    ensures Follows(s, Go(s, t, p, m), t)
  {
    RolesMove(s.pc, t, p);
    assert Protocol(Go(s, t, p, m)) == Protocol(s);
  }

  lemma TakesMutex(s: State, t: Tid, p: PC)
    requires t in s.pc && !s.m.mutexLock
    requires (RoleOf(s.pc[t]).Out? && RoleOf(p).Mx?) || (RoleOf(s.pc[t]).Woken? && RoleOf(p).MxWoken?)
    ensures Follows(s, Go(s, t, p, s.m.(mutexLock := true)), t)
  {
    RolesMove(s.pc, t, p);
    assert P.TakeMutex(Protocol(s), Protocol(Go(s, t, p, s.m.(mutexLock := true))), t);
  }

  lemma LeavesMutex(s: State, t: Tid, p: PC)
    requires t in s.pc
    requires (RoleOf(s.pc[t]).Mx? && RoleOf(p).Out?) || (RoleOf(s.pc[t]).LowCv? && RoleOf(p).Enter?)
    ensures Follows(s, Go(s, t, p, s.m.(mutexLock := false)), t)
  {
    RolesMove(s.pc, t, p);
    assert P.LeaveMutex(Protocol(s), Protocol(Go(s, t, p, s.m.(mutexLock := false))), t);
  }

  lemma TakesCv(s: State, t: Tid, p: PC)
    requires t in s.pc && !s.m.cvLock
    requires (RoleOf(s.pc[t]).Low? && RoleOf(p).LowCv?) || (RoleOf(s.pc[t]).Pend? && RoleOf(p).PendCv?)
             || (RoleOf(s.pc[t]).Out? && RoleOf(p).Cv?)
    ensures Follows(s, Go(s, t, p, s.m.(cvLock := true)), t)
  {
    RolesMove(s.pc, t, p);
    assert P.TakeCv(Protocol(s), Protocol(Go(s, t, p, s.m.(cvLock := true))), t);
  }

  lemma LeavesCv(s: State, t: Tid, p: PC)
    requires t in s.pc
    requires (RoleOf(s.pc[t]).Fresh? && RoleOf(p).Rest?) || (RoleOf(s.pc[t]).MxCv? && RoleOf(p).Mx?)
             || (RoleOf(s.pc[t]).Cv? && RoleOf(p).Out?)
    ensures Follows(s, Go(s, t, p, s.m.(cvLock := false)), t)
  {
    RolesMove(s.pc, t, p);
    assert P.LeaveCv(Protocol(s), Protocol(Go(s, t, p, s.m.(cvLock := false))), t);
  }

  lemma TestFollows(s: State, t: Tid, k: bool, seen: int)
    requires t in s.pc && s.pc[t] == Wait(WTest(k, seen)) && LocalsOk(s)
    ensures Follows(s, NextWait(s, t, WTest(k, seen)), t)
  {
    var s' := NextWait(s, t, WTest(k, seen));
    RolesMove(s.pc, t, s'.pc[t]);
    assert LocalOk(s.pc[t], s.m.count, s.m.waiters);
    if seen <= 0 {
      assert P.SeeLow(Protocol(s), Protocol(s'), t);
    } else {
      Neutral(s, t, Wait(WLoad(k)), s.m);
    }
  }

  lemma TakeFollows(s: State, t: Tid, k: bool, loaded: int)
    requires t in s.pc && s.pc[t] == Wait(WStore(k, loaded)) && LocalsOk(s)
    ensures Follows(s, NextWait(s, t, WStore(k, loaded)), t)
  {
    RolesMove(s.pc, t, Wait(WUnStatus));
    assert LocalOk(s.pc[t], s.m.count, s.m.waiters);
    assert P.TakeCount(Protocol(s), Protocol(NextWait(s, t, WStore(k, loaded))), t);
  }

  lemma WaitFollows(s: State, t: Tid, w: WaitAt)
    requires t in s.pc && s.pc[t] == Wait(w) && LocalsOk(s)
    ensures Follows(s, NextWait(s, t, w), t)
  {
    match w
    case WLock => if !s.m.mutexLock { TakesMutex(s, t, Wait(WStatus(false))); }
    case WRelock => if !s.m.mutexLock { TakesMutex(s, t, Wait(WStatus(true))); }
    case WStatus(k) => Neutral(s, t, Wait(WRead(k)), s.m.(mutexLocked := true));
    case WRead(k) => Neutral(s, t, Wait(WTest(k, s.m.count)), s.m);
    case WTest(k, seen) => TestFollows(s, t, k, seen);
    case WLoad(k) => Neutral(s, t, Wait(WStore(k, s.m.count)), s.m);
    case WStore(k, loaded) => TakeFollows(s, t, k, loaded);
    case WUnStatus => Neutral(s, t, Wait(WUnspin), s.m.(mutexLocked := false));
    case WUnspin => LeavesMutex(s, t, Idle);
  }

  lemma EnqueueFollows(s: State, t: Tid, list: seq<Tid>)
    requires t in s.pc && s.pc[t] == Cond(CInsert(list)) && LocalsOk(s)
    ensures Follows(s, NextCond(s, t, CInsert(list)), t)
  {
    RolesMove(s.pc, t, Cond(CUnlock));
    assert LocalOk(s.pc[t], s.m.count, s.m.waiters);
    assert P.Enqueue(Protocol(s), Protocol(NextCond(s, t, CInsert(list))), t);
  }

  lemma CondFollows(s: State, t: Tid, c: CondAt)
    requires t in s.pc && s.pc[t] == Cond(c) && LocalsOk(s)
    ensures Follows(s, NextCond(s, t, c), t)
  {
    match c
    case CLock => if !s.m.cvLock { TakesCv(s, t, Cond(CStatus)); }
    case CStatus => Neutral(s, t, Cond(CUnspin), s.m.(mutexLocked := false));
    case CUnspin => LeavesMutex(s, t, Cond(CEnqueue));
    case CEnqueue => Neutral(s, t, Cond(CInsert(s.m.waiters)), s.m);
    case CInsert(list) => EnqueueFollows(s, t, list);
    case CUnlock => LeavesCv(s, t, Cond(CSleep));
    case CSleep => Neutral(s, t, Cond(Asleep), s.m);
    case Asleep =>
  }

  /** The roles after a successful make_runnable. */
  lemma RolesWake(pc: map<Tid, PC>, t: Tid, u: Tid, p: PC)
    requires t in pc && u in pc && u != t
    ensures Roles(pc[u := Wait(WRelock)][t := p]) == Roles(pc)[u := P.Woken][t := RoleOf(p)]
    ensures Roles(pc)[t] == RoleOf(pc[t]) && Roles(pc)[u] == RoleOf(pc[u])
  {
    RolesMove(pc, u, Wait(WRelock));
    RolesMove(pc[u := Wait(WRelock)], t, p);
  }

  lemma WakeFollows(s: State, t: Tid, u: Tid, p: PC, inMutex: bool)
    requires t in s.pc && RoleOf(s.pc[t]) == P.Waker(u, inMutex) && RoleOf(p) == (if inMutex then P.MxCv else P.Cv)
    ensures Follows(s, Wake(s, t, u, p), t)
  {
    if u in s.pc && u != t && s.pc[u] == Cond(Asleep) {
      RolesWake(s.pc, t, u, p);
      assert P.WakeUp(Protocol(s), Protocol(Wake(s, t, u, p)), t);
    }
  }

  lemma DequeueFollows(s: State, t: Tid, p: PC)
    requires t in s.pc && s.m.waiters != []
    requires RoleOf(s.pc[t]).PendCv? || RoleOf(s.pc[t]).Cv?
    requires RoleOf(p) == P.Waker(s.m.waiters[0], RoleOf(s.pc[t]).PendCv?)
    ensures Follows(s, Dequeue(s, t, p, s.m.waiters), t)
  {
    RolesMove(s.pc, t, p);
    assert P.Dequeue(Protocol(s), Protocol(Dequeue(s, t, p, s.m.waiters)), t);
  }

  lemma IncrementFollows(s: State, t: Tid, loaded: int)
    requires t in s.pc && s.pc[t] == Signal(SStore(loaded)) && LocalsOk(s)
    ensures Follows(s, NextSignal(s, t, SStore(loaded)), t)
  {
    RolesMove(s.pc, t, Signal(SCvLock));
    assert LocalOk(s.pc[t], s.m.count, s.m.waiters);
    assert P.AddCount(Protocol(s), Protocol(NextSignal(s, t, SStore(loaded))), t);
  }

  lemma EmptyFollows(s: State, t: Tid)
    requires t in s.pc && RoleOf(s.pc[t]).PendCv? && s.m.waiters == []
    ensures Follows(s, Go(s, t, Signal(SCvUnlock), s.m), t)
  {
    RolesMove(s.pc, t, Signal(SCvUnlock));
    assert P.FindEmpty(Protocol(s), Protocol(Go(s, t, Signal(SCvUnlock), s.m)), t);
  }

  lemma SignalFollows(s: State, t: Tid, g: SignalAt)
    requires t in s.pc && s.pc[t] == Signal(g) && LocalsOk(s)
    ensures Follows(s, NextSignal(s, t, g), t)
  {
    assert LocalOk(s.pc[t], s.m.count, s.m.waiters);
    match g
    case SLock => if !s.m.mutexLock { TakesMutex(s, t, Signal(SStatus)); }
    case SStatus => Neutral(s, t, Signal(SLoad), s.m.(mutexLocked := true));
    case SLoad => Neutral(s, t, Signal(SStore(s.m.count)), s.m);
    case SStore(c) => IncrementFollows(s, t, c);
    case SCvLock => if !s.m.cvLock { TakesCv(s, t, Signal(SDequeue)); }
    case SDequeue => Neutral(s, t, Signal(SRemove(s.m.waiters)), s.m);
    case SRemove(list) =>
      if list == [] { EmptyFollows(s, t); } else { DequeueFollows(s, t, Signal(SWake(list[0]))); }
    case SWake(u) => WakeFollows(s, t, u, Signal(SCvUnlock), true);
    case SCvUnlock => LeavesCv(s, t, Signal(SUnStatus));
    case SUnStatus => Neutral(s, t, Signal(SUnspin), s.m.(mutexLocked := false));
    case SUnspin => LeavesMutex(s, t, Idle);
  }

  lemma BroadcastFollows(s: State, t: Tid, b: BroadcastAt)
    requires t in s.pc && s.pc[t] == Broadcast(b) && LocalsOk(s)
    ensures Follows(s, NextBroadcast(s, t, b), t)
  {
    assert LocalOk(s.pc[t], s.m.count, s.m.waiters);
    match b
    case BLock => if !s.m.cvLock { TakesCv(s, t, Broadcast(BDequeue)); }
    case BDequeue => Neutral(s, t, Broadcast(BRemove(s.m.waiters)), s.m);
    case BRemove(list) =>
      if list == [] { Neutral(s, t, Broadcast(BUnlock), s.m); }
      else { DequeueFollows(s, t, Broadcast(BWake(list[0]))); }
    case BWake(u) => WakeFollows(s, t, u, Broadcast(BDequeue), false);
    case BUnlock => LeavesCv(s, t, Idle);
  }

  lemma CodeFollowsProtocol(s: State, s': State, t: Tid)
    requires StepOf(s, s', t) && LocalsOk(s)
    ensures Follows(s, s', t)
  {
    match s.pc[t]
    case Idle =>
      Neutral(s, t, Wait(WLock), s.m);
      Neutral(s, t, Signal(SLock), s.m);
      Neutral(s, t, Broadcast(BLock), s.m);
    case Wait(w) => WaitFollows(s, t, w);
    case Cond(c) => CondFollows(s, t, c);
    case Signal(g) => SignalFollows(s, t, g);
    case Broadcast(b) => BroadcastFollows(s, t, b);
  }

  // ----- local copies stay up to date

  /** Only positions inside the mutex depend on the count, only those inside the list's lock on the list. */
  lemma LocalsNeedLocks(p: PC, count: int, count': int, list: seq<Tid>, list': seq<Tid>)
    requires LocalOk(p, count, list)
    requires P.InMutex(RoleOf(p)) ==> count' == count
    requires P.InCv(RoleOf(p)) ==> list' == list
    ensures LocalOk(p, count', list')
  {
  }

  /** A step changes the count only inside the mutex and the list only inside its lock. */
  ghost predicate Guarded(s: State, s': State, t: Tid)
  {
    && t in s.pc && (s'.m.count != s.m.count ==> P.InMutex(RoleOf(s.pc[t])))
    && (s'.m.waiters != s.m.waiters ==> P.InCv(RoleOf(s.pc[t])))
    && s'.pc.Keys == s.pc.Keys && LocalOk(s'.pc[t], s'.m.count, s'.m.waiters)
    && forall u :: u in s.pc && u != t ==> s'.pc[u] == s.pc[u] || s'.pc[u] == Wait(WRelock)
  }

  lemma WaitGuarded(s: State, t: Tid, w: WaitAt)
    requires t in s.pc && s.pc[t] == Wait(w) && LocalOk(Wait(w), s.m.count, s.m.waiters)
    ensures Guarded(s, NextWait(s, t, w), t)
  {
  }

  lemma CondGuarded(s: State, t: Tid, c: CondAt)
    requires t in s.pc && s.pc[t] == Cond(c) && LocalOk(Cond(c), s.m.count, s.m.waiters)
    ensures Guarded(s, NextCond(s, t, c), t)
  {
  }

  lemma SignalGuarded(s: State, t: Tid, g: SignalAt)
    requires t in s.pc && s.pc[t] == Signal(g) && LocalOk(Signal(g), s.m.count, s.m.waiters)
    ensures Guarded(s, NextSignal(s, t, g), t)
  {
  }

  lemma BroadcastGuarded(s: State, t: Tid, b: BroadcastAt)
    requires t in s.pc && s.pc[t] == Broadcast(b) && LocalOk(Broadcast(b), s.m.count, s.m.waiters)
    ensures Guarded(s, NextBroadcast(s, t, b), t)
  {
  }

  lemma StepGuarded(s: State, s': State, t: Tid)
    requires StepOf(s, s', t) && LocalsOk(s)
    ensures Guarded(s, s', t)
  {
    assert LocalOk(s.pc[t], s.m.count, s.m.waiters);
    match s.pc[t]
    case Idle =>
    case Wait(w) => WaitGuarded(s, t, w);
    case Cond(c) => CondGuarded(s, t, c);
    case Signal(g) => SignalGuarded(s, t, g);
    case Broadcast(b) => BroadcastGuarded(s, t, b);
  }

  /** Mutual exclusion keeps every copy up to date: no other thread is inside the lock of what changes. */
  lemma LocalsKept(s: State, s': State, t: Tid)
    requires Guarded(s, s', t) && Locked(s)
    ensures LocalsOk(s')
  {
    assert Protocol(s).role[t] == RoleOf(s.pc[t]);
    forall u | u in s'.pc ensures LocalOk(s'.pc[u], s'.m.count, s'.m.waiters) {
      if u != t && s'.pc[u] == s.pc[u] {
        assert Protocol(s).role[u] == RoleOf(s.pc[u]);
        assert LocalOk(s.pc[u], s.m.count, s.m.waiters);
        LocalsNeedLocks(s.pc[u], s.m.count, s'.m.count, s.m.waiters, s'.m.waiters);
      }
    }
  }

  lemma LockedKept(s: State, s': State, t: Tid)
    requires StepOf(s, s', t) && Locked(s)
    ensures Locked(s')
  {
    StepGuarded(s, s', t);
    LocalsKept(s, s', t);
    CodeFollowsProtocol(s, s', t);
    if Protocol(s') != Protocol(s) {
      P.LocksUsed(Protocol(s), Protocol(s'), t);
      P.MutexKept(Protocol(s), Protocol(s'), t);
      P.CvKept(Protocol(s), Protocol(s'), t);
    }
  }

  // ----- accounting

  /** The count is what was put in and not taken out. */
  predicate CountsAddUp(s: State, initial: int) { s.m.count == initial + s.h.increments - s.h.takes }

  /** This rests on the copies that are stored back being up to date. */
  lemma CountsKept(s: State, s': State, t: Tid, initial: int)
    requires StepOf(s, s', t) && LocalsOk(s) && CountsAddUp(s, initial)
    ensures CountsAddUp(s', initial)
  {
    assert LocalOk(s.pc[t], s.m.count, s.m.waiters);
    match s.pc[t]
    case Wait(w) => WaitCounts(s, t, w, initial);
    case Signal(g) => SignalCounts(s, t, g, initial);
    case _ =>
  }

  lemma WaitCounts(s: State, t: Tid, w: WaitAt, initial: int)
    requires t in s.pc && s.pc[t] == Wait(w) && LocalOk(Wait(w), s.m.count, s.m.waiters) && CountsAddUp(s, initial)
    ensures CountsAddUp(NextWait(s, t, w), initial)
  {
  }

  lemma SignalCounts(s: State, t: Tid, g: SignalAt, initial: int)
    requires t in s.pc && s.pc[t] == Signal(g) && LocalOk(Signal(g), s.m.count, s.m.waiters) && CountsAddUp(s, initial)
    ensures CountsAddUp(NextSignal(s, t, g), initial)
  {
  }

  /** Everyone put on the list is on it still or was dequeued once for each time. */
  ghost predicate ListAddsUp(s: State) { s.h.joined == s.h.dequeued + multiset(s.m.waiters) }

  predicate Waking(p: PC) { (p.Signal? && p.g.SWake?) || (p.Broadcast? && p.b.BWake?) }

  function Sleeper(p: PC): Tid
    requires Waking(p)
  {
    if p.Signal? then p.g.sleeper else p.b.sleeper
  }

  /** Everyone dequeued has left deschedule once for each time, except for one who is being woken. */
  ghost predicate WakesAddUp(s: State)
  {
    && ((forall t :: t in s.pc ==> !Waking(s.pc[t])) ==> s.h.dequeued == s.h.left)
    && (forall t :: t in s.pc && Waking(s.pc[t]) ==> s.h.dequeued == s.h.left + multiset{Sleeper(s.pc[t])})
  }

  /** What a step does to the wait list and to the record of it. */
  datatype Effect = Quiet | Joins | Takes(p: PC) | Wakes(p: PC)

  ghost predicate Effects(s: State, s': State, t: Tid, e: Effect)
  {
    match e
    case Quiet =>
      && s'.m.waiters == s.m.waiters && s'.h == s.h.(increments := s'.h.increments, takes := s'.h.takes)
      && t in s.pc && !Waking(s.pc[t]) && t in s'.pc && s'.pc == s.pc[t := s'.pc[t]] && !Waking(s'.pc[t])
    case Joins =>
      && s'.m.waiters == s.m.waiters + [t] && s'.h == s.h.(joined := s.h.joined + multiset{t})
      && t in s.pc && !Waking(s.pc[t]) && s'.pc == s.pc[t := Cond(CUnlock)]
    case Takes(p) =>
      && s.m.waiters != [] && t in s.pc && !Waking(s.pc[t]) && Waking(p) && Sleeper(p) == s.m.waiters[0]
      && P.InCv(RoleOf(s.pc[t])) && s' == Dequeue(s, t, p, s.m.waiters)
    case Wakes(p) =>
      t in s.pc && Waking(s.pc[t]) && !Waking(p) && s' == Wake(s, t, Sleeper(s.pc[t]), p)
  }

  lemma WaitEffect(s: State, t: Tid, w: WaitAt)
    requires t in s.pc && s.pc[t] == Wait(w)
    ensures Effects(s, NextWait(s, t, w), t, Quiet)
  {
    assert s.pc == s.pc[t := s.pc[t]];
  }

  lemma CondEffect(s: State, t: Tid, c: CondAt)
    requires t in s.pc && s.pc[t] == Cond(c) && LocalOk(Cond(c), s.m.count, s.m.waiters)
    ensures Effects(s, NextCond(s, t, c), t, if c.CInsert? then Joins else Quiet)
  {
    assert s.pc == s.pc[t := s.pc[t]];
  }

  lemma SignalEffect(s: State, t: Tid, g: SignalAt)
    requires t in s.pc && s.pc[t] == Signal(g) && LocalOk(Signal(g), s.m.count, s.m.waiters)
    ensures Effects(s, NextSignal(s, t, g), t,
                    if g.SRemove? && s.m.waiters != [] then Takes(Signal(SWake(s.m.waiters[0])))
                    else if g.SWake? then Wakes(Signal(SCvUnlock)) else Quiet)
  {
    assert s.pc == s.pc[t := s.pc[t]];
  }

  lemma BroadcastEffect(s: State, t: Tid, b: BroadcastAt)
    requires t in s.pc && s.pc[t] == Broadcast(b) && LocalOk(Broadcast(b), s.m.count, s.m.waiters)
    ensures Effects(s, NextBroadcast(s, t, b), t,
                    if b.BRemove? && s.m.waiters != [] then Takes(Broadcast(BWake(s.m.waiters[0])))
                    else if b.BWake? then Wakes(Broadcast(BDequeue)) else Quiet)
  {
    assert s.pc == s.pc[t := s.pc[t]];
  }

  lemma StepEffect(s: State, s': State, t: Tid) returns (e: Effect)
    requires StepOf(s, s', t) && LocalsOk(s)
    ensures Effects(s, s', t, e)
  {
    assert LocalOk(s.pc[t], s.m.count, s.m.waiters);
    match s.pc[t]
    case Idle =>
      e := Quiet;
    case Wait(w) =>
      WaitEffect(s, t, w);
      e := Quiet;
    case Cond(c) =>
      CondEffect(s, t, c);
      e := if c.CInsert? then Joins else Quiet;
    case Signal(g) =>
      SignalEffect(s, t, g);
      e := if g.SRemove? && s.m.waiters != [] then Takes(Signal(SWake(s.m.waiters[0])))
           else if g.SWake? then Wakes(Signal(SCvUnlock)) else Quiet;
    case Broadcast(b) =>
      BroadcastEffect(s, t, b);
      e := if b.BRemove? && s.m.waiters != [] then Takes(Broadcast(BWake(s.m.waiters[0])))
           else if b.BWake? then Wakes(Broadcast(BDequeue)) else Quiet;
  }

  lemma ListKept(s: State, s': State, t: Tid, e: Effect)
    requires Effects(s, s', t, e) && ListAddsUp(s)
    ensures ListAddsUp(s')
  {
    if e.Takes? { assert s.m.waiters == [s.m.waiters[0]] + s.m.waiters[1..]; }
  }

  /** At most one thread is inside the condition variable's lock, hence at most one wakes another. */
  lemma OneWaker(s: State, t: Tid)
    requires P.CvOk(Protocol(s)) && t in s.pc && P.InCv(RoleOf(s.pc[t]))
    ensures forall u :: u in s.pc && u != t ==> !Waking(s.pc[u])
  {
    forall u | u in s.pc && u != t ensures !Waking(s.pc[u]) {
      assert Roles(s.pc)[u] == RoleOf(s.pc[u]) && Roles(s.pc)[t] == RoleOf(s.pc[t]);
    }
  }

  /** Who is waking whom, and the record, stay the same. */
  lemma QuietKeepsWakes(s: State, s': State)
    requires WakesAddUp(s) && s'.pc.Keys == s.pc.Keys && s'.h.dequeued == s.h.dequeued && s'.h.left == s.h.left
    requires forall u :: u in s.pc ==> Waking(s'.pc[u]) == Waking(s.pc[u]) && (Waking(s.pc[u]) ==> s'.pc[u] == s.pc[u])
    ensures WakesAddUp(s')
  {
  }

  lemma TakesKeepsWakes(s: State, t: Tid, p: PC)
    requires s.m.waiters != [] && Effects(s, Dequeue(s, t, p, s.m.waiters), t, Takes(p)) && P.CvOk(Protocol(s)) && WakesAddUp(s)
    ensures WakesAddUp(Dequeue(s, t, p, s.m.waiters))
  {
    OneWaker(s, t);
    var s' := Dequeue(s, t, p, s.m.waiters);
    assert s'.pc[t] == p;
    assert forall u :: u in s'.pc && u != t ==> !Waking(s'.pc[u]);
  }

  lemma WakingKeepsWakes(s: State, t: Tid, p: PC)
    requires t in s.pc && Waking(s.pc[t]) && !Waking(p) && P.CvOk(Protocol(s)) && WakesAddUp(s)
    ensures WakesAddUp(Wake(s, t, Sleeper(s.pc[t]), p))
  {
    OneWaker(s, t);
    var s' := Wake(s, t, Sleeper(s.pc[t]), p);
    assert s' == s || forall u :: u in s'.pc ==> !Waking(s'.pc[u]);
  }

  lemma WakesKept(s: State, s': State, t: Tid, e: Effect)
    requires Effects(s, s', t, e) && P.CvOk(Protocol(s)) && WakesAddUp(s)
    ensures WakesAddUp(s')
  {
    match e
    case Quiet => QuietKeepsWakes(s, s');
    case Joins => QuietKeepsWakes(s, s');
    case Takes(p) => TakesKeepsWakes(s, t, p);
    case Wakes(p) => WakingKeepsWakes(s, t, p);
  }

  // ----- runs

  ghost predicate Inv(s: State, initial: int)
  {
    P.Inv(Protocol(s)) && LocalsOk(s) && CountsAddUp(s, initial) && ListAddsUp(s) && WakesAddUp(s)
  }

  lemma InitInv(s: State, initial: int)
    requires Init(s, initial) && initial >= 0
    ensures Inv(s, initial)
  {
    assert forall t :: t in s.pc ==> Roles(s.pc)[t] == P.Out;
    assert !P.SomeoneWaits(Protocol(s));
  }

  lemma StepInv(s: State, s': State, initial: int)
    requires Step(s, s') && Inv(s, initial)
    ensures Inv(s', initial)
  {
    var t :| StepOf(s, s', t);
    LockedKept(s, s', t);
    CodeFollowsProtocol(s, s', t);
    if Protocol(s') != Protocol(s) { P.InvKept(Protocol(s), Protocol(s'), t); }
    CountsKept(s, s', t, initial);
    var e := StepEffect(s, s', t);
    ListKept(s, s', t, e);
    WakesKept(s, s', t, e);
  }

  /**
   * In every state of every run of any number of threads: mutual exclusion, a count that is
   * nonnegative and adds up, no lost wake-up, and one departure from sleep per dequeuing.
   */
  lemma {:induction false} EveryRun(tr: seq<State>, initial: int, n: nat)
    requires Run(tr, initial) && initial >= 0 && n < |tr|
    ensures Inv(tr[n], initial)
  {
    if n == 0 {
      InitInv(tr[0], initial);
    } else {
      EveryRun(tr, initial, n - 1);
      assert StepAt(tr, n - 1);
      StepInv(tr[n - 1], tr[n], initial);
    }
  }

  /** Between mutex_lock and mutex_unlock. */
  predicate HoldsMutex(p: PC) { P.InMutex(RoleOf(p)) }

  /** Has left the mutex and is not yet on the wait list. */
  predicate Joining(p: PC) { p.Cond? && (p.c.CEnqueue? || p.c.CInsert?) }

  /** What the invariant says about the code's own positions. */
  lemma InvMeans(s: State, initial: int)
    requires Inv(s, initial)
    ensures 0 <= s.m.count == initial + s.h.increments - s.h.takes
    ensures forall t, u :: t in s.pc && u in s.pc && HoldsMutex(s.pc[t]) && HoldsMutex(s.pc[u]) ==> t == u
    ensures s.m.waiters != [] || (exists t :: t in s.pc && Joining(s.pc[t])) ==>
              s.m.count <= |P.DueSet(Protocol(s))| + P.Pending(Protocol(s))
  {
    forall t | t in s.pc ensures Roles(s.pc)[t] == RoleOf(s.pc[t]) {}
    if t :| t in s.pc && Joining(s.pc[t]) {
      assert Protocol(s).role[t].Enter?;
    }
  }

  /** A sleeping thread leaves deschedule only through a thread that has dequeued it. */
  lemma WokenByDequeuer(s: State, s': State, t: Tid, u: Tid, initial: int)
    requires Inv(s, initial) && StepOf(s, s', t)
    requires u in s.pc && u in s'.pc && s.pc[u] == Cond(Asleep) && s'.pc[u] != Cond(Asleep)
    ensures Waking(s.pc[t]) && Sleeper(s.pc[t]) == u && u !in s.m.waiters
    ensures s'.h.left == s.h.left + multiset{u} && s.h.dequeued == s.h.left + multiset{u}
  {
    NotByItself(s, s', t, u);
    var e := StepEffect(s, s', t);
    WokenBy(s, s', t, u, e);
    DequeuedOnce(s, t, initial);
  }

  lemma NotByItself(s: State, s': State, t: Tid, u: Tid)
    requires StepOf(s, s', t) && u in s.pc && u in s'.pc && s.pc[u] == Cond(Asleep) && s'.pc[u] != Cond(Asleep)
    ensures t != u
  {
  }

  /** Of all effects only waking moves another thread out of its sleep. */
  lemma WokenBy(s: State, s': State, t: Tid, u: Tid, e: Effect)
    requires Effects(s, s', t, e) && t != u
    requires u in s.pc && u in s'.pc && s.pc[u] == Cond(Asleep) && s'.pc[u] != Cond(Asleep)
    ensures Waking(s.pc[t]) && Sleeper(s.pc[t]) == u && s'.h.left == s.h.left + multiset{u}
  {
  }

  lemma DequeuedOnce(s: State, t: Tid, initial: int)
    requires Inv(s, initial) && t in s.pc && Waking(s.pc[t])
    ensures Sleeper(s.pc[t]) !in s.m.waiters && s.h.dequeued == s.h.left + multiset{Sleeper(s.pc[t])}
  {
    assert Protocol(s).role[t] == RoleOf(s.pc[t]);
  }

  /** Over every run a thread leaves deschedule once for each time a signal or broadcast dequeued it. */
  lemma OneDequeueEach(tr: seq<State>, initial: int, n: nat, u: Tid)
    requires Run(tr, initial) && initial >= 0 && n < |tr|
    ensures var s := tr[n];
      && s.h.dequeued[u] <= s.h.joined[u]
      && s.h.dequeued[u] == s.h.left[u] +
           if exists t :: t in s.pc && Waking(s.pc[t]) && Sleeper(s.pc[t]) == u then 1 else 0
  {
    EveryRun(tr, initial, n);
    var s := tr[n];
    if t :| t in s.pc && Waking(s.pc[t]) {
      assert Roles(s.pc)[t] == RoleOf(s.pc[t]);
      OneWaker(s, t);
    }
  }

  // ----- the semaphore as its users see it

  function PhaseOf(p: PC): A.Phase
  {
    match p
    case Idle => A.Idle
    case Wait(w) => if w.WUnStatus? || w.WUnspin? then A.Waited else A.Waiting
    case Cond(c) => A.Waiting
    case Signal(g) => if g.SLock? || g.SStatus? || g.SLoad? || g.SStore? then A.Signalling else A.Signalled
    case Broadcast(b) => A.Idle
  }

  ghost function Phases(pc: map<Tid, PC>): map<Tid, A.Phase> { map t | t in pc :: PhaseOf(pc[t]) }

  ghost function Atomic(s: State): A.State { A.State(s.m.count, Phases(s.pc)) }

  lemma PhasesMove(pc: map<Tid, PC>, t: Tid, p: PC)
    requires t in pc
    ensures Phases(pc[t := p]) == Phases(pc)[t := PhaseOf(p)] && Phases(pc)[t] == PhaseOf(pc[t])
    ensures PhaseOf(p) == PhaseOf(pc[t]) ==> Phases(pc[t := p]) == Phases(pc)
  {
  }

  lemma PhasesWake(pc: map<Tid, PC>, t: Tid, u: Tid, p: PC)
    requires t in pc && u in pc && u != t && pc[u] == Cond(Asleep) && PhaseOf(p) == PhaseOf(pc[t])
    ensures Phases(pc[u := Wait(WRelock)][t := p]) == Phases(pc)
  {
    PhasesMove(pc, u, Wait(WRelock));
    PhasesMove(pc[u := Wait(WRelock)], t, p);
  }

  /** The store of a decrement is an atomic take, because the value stored is the count less one. */
  lemma WaitRefines(s: State, t: Tid, w: WaitAt)
    requires t in s.pc && s.pc[t] == Wait(w) && LocalOk(Wait(w), s.m.count, s.m.waiters)
    ensures A.Step(Atomic(s), Atomic(NextWait(s, t, w)))
  {
    var s' := NextWait(s, t, w);
    PhasesMove(s.pc, t, s'.pc[t]);
    assert A.StepOf(Atomic(s), Atomic(s'), t) || Atomic(s') == Atomic(s);
  }

  lemma CondRefines(s: State, t: Tid, c: CondAt)
    requires t in s.pc && s.pc[t] == Cond(c)
    ensures Atomic(NextCond(s, t, c)) == Atomic(s)
  {
    PhasesMove(s.pc, t, NextCond(s, t, c).pc[t]);
  }

  lemma WakeRefines(s: State, t: Tid, u: Tid, p: PC)
    requires t in s.pc && PhaseOf(p) == PhaseOf(s.pc[t])
    ensures Atomic(Wake(s, t, u, p)) == Atomic(s)
  {
    if u in s.pc && u != t && s.pc[u] == Cond(Asleep) { PhasesWake(s.pc, t, u, p); }
  }

  lemma SignalRefines(s: State, t: Tid, g: SignalAt)
    requires t in s.pc && s.pc[t] == Signal(g) && LocalOk(Signal(g), s.m.count, s.m.waiters)
    ensures A.Step(Atomic(s), Atomic(NextSignal(s, t, g)))
  {
    var s' := NextSignal(s, t, g);
    if g.SWake? {
      WakeRefines(s, t, g.sleeper, Signal(SCvUnlock));
    } else {
      PhasesMove(s.pc, t, s'.pc[t]);
      assert A.StepOf(Atomic(s), Atomic(s'), t) || Atomic(s') == Atomic(s);
    }
  }

  lemma BroadcastRefines(s: State, t: Tid, b: BroadcastAt)
    requires t in s.pc && s.pc[t] == Broadcast(b)
    ensures Atomic(NextBroadcast(s, t, b)) == Atomic(s)
  {
    if b.BWake? { WakeRefines(s, t, b.sleeper, Broadcast(BDequeue)); }
    else { PhasesMove(s.pc, t, NextBroadcast(s, t, b).pc[t]); }
  }

  lemma CallRefines(s: State, s': State, t: Tid)
    requires t in s.pc && s.pc[t].Idle? && Calls(s, s', t)
    ensures A.Step(Atomic(s), Atomic(s'))
  {
    PhasesMove(s.pc, t, s'.pc[t]);
    assert A.StepOf(Atomic(s), Atomic(s'), t) || Atomic(s') == Atomic(s);
  }

  /** Mutual exclusion and up-to-date copies in every run, whatever the initial value. */
  lemma {:induction false} EveryRunLocked(tr: seq<State>, initial: int, n: nat)
    requires Run(tr, initial) && n < |tr|
    ensures Locked(tr[n]) && CountsAddUp(tr[n], initial)
  {
    if n == 0 {
      assert forall t :: t in tr[0].pc ==> Roles(tr[0].pc)[t] == P.Out;
    } else {
      EveryRunLocked(tr, initial, n - 1);
      assert StepAt(tr, n - 1);
      var t :| StepOf(tr[n - 1], tr[n], t);
      LockedKept(tr[n - 1], tr[n], t);
      CountsKept(tr[n - 1], tr[n], t, initial);
    }
  }

  lemma StepRefines(s: State, s': State, t: Tid)
    requires StepOf(s, s', t) && Locked(s)
    ensures A.Step(Atomic(s), Atomic(s'))
  {
    assert LocalOk(s.pc[t], s.m.count, s.m.waiters);
    match s.pc[t]
    case Idle => CallRefines(s, s', t);
    case Wait(w) => WaitRefines(s, t, w);
    case Cond(c) => CondRefines(s, t, c);
    case Signal(g) => SignalRefines(s, t, g);
    case Broadcast(b) => BroadcastRefines(s, t, b);
  }

  /** Every run of the code, seen from outside, is a run of the atomic semaphore. */
  lemma RefinesAtomic(tr: seq<State>, initial: int, i: nat)
    requires Run(tr, initial) && i + 1 < |tr|
    ensures Atomic(tr[0]).value == initial && forall t :: t in Atomic(tr[0]).phase ==> Atomic(tr[0]).phase[t].Idle?
    ensures A.Step(Atomic(tr[i]), Atomic(tr[i + 1]))
  {
    EveryRunLocked(tr, initial, i);
    assert StepAt(tr, i);
    var t :| StepOf(tr[i], tr[i + 1], t);
    StepRefines(tr[i], tr[i + 1], t);
  }
}
