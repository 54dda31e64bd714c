/**
 * The semaphore protocol with the bookkeeping of its code forgotten: which locks each thread is
 * inside, whether it is on its way to sleep, asleep, woken, or waking another, and the shared
 * wait list and count. The code-level system in SemaphoreSystem moves through these roles.
 */
module SemaphoreProtocol {

  type Tid = int

  datatype Role =
    | Out                   // inside neither lock, not waiting
    | Mx                    // inside the mutex
    | MxWoken               // inside the mutex, about to look at the count again after a wake-up
    | Woken                 // woken, not yet inside the mutex again
    | Low                   // inside the mutex, has seen that the count is not positive
    | LowCv                 // the same, and inside the condition variable's lock
    | Enter                 // has left the mutex, about to join the wait list
    | Fresh                 // has joined, still inside the condition variable's lock
    | Rest                  // has left that lock, descheduled or about to be
    | Pend                  // inside the mutex, has incremented the count, no one dequeued for it yet
    | PendCv                // the same, and inside the condition variable's lock
    | Waker(sleeper: Tid, inMutex: bool)  // inside the condition variable's lock, waking a dequeued thread
    | MxCv                  // inside both locks
    | Cv                    // inside the condition variable's lock only

  datatype State = State(role: map<Tid, Role>, mutex: bool, cv: bool, waiters: seq<Tid>, count: int)

  predicate InMutex(r: Role)
  {
    r.Mx? || r.MxWoken? || r.Low? || r.LowCv? || r.Pend? || r.PendCv? || r.MxCv? || (r.Waker? && r.inMutex)
  }

  predicate InCv(r: Role)
  {
    r.LowCv? || r.Enter? || r.Fresh? || r.PendCv? || r.Waker? || r.MxCv? || r.Cv?
  }

  // ----- steps

  function To(s: State, t: Tid, r: Role): State { s.(role := s.role[t := r]) }

  ghost predicate TakeMutex(s: State, s': State, t: Tid)
  {
    && t in s.role && !s.mutex
    && ( || (s.role[t] == Out && s' == To(s, t, Mx).(mutex := true))
         || (s.role[t] == Woken && s' == To(s, t, MxWoken).(mutex := true)))
  }

  ghost predicate LeaveMutex(s: State, s': State, t: Tid)
  {
    && t in s.role
    && ( || (s.role[t] == Mx && s' == To(s, t, Out).(mutex := false))
         || (s.role[t] == LowCv && s' == To(s, t, Enter).(mutex := false)))
  }

  ghost predicate TakeCv(s: State, s': State, t: Tid)
  {
    && t in s.role && !s.cv
    && ( || (s.role[t] == Low && s' == To(s, t, LowCv).(cv := true))
         || (s.role[t] == Pend && s' == To(s, t, PendCv).(cv := true))
         || (s.role[t] == Out && s' == To(s, t, Cv).(cv := true)))
  }

  ghost predicate LeaveCv(s: State, s': State, t: Tid)
  {
    && t in s.role
    && ( || (s.role[t] == Fresh && s' == To(s, t, Rest).(cv := false))
         || (s.role[t] == MxCv && s' == To(s, t, Mx).(cv := false))
         || (s.role[t] == Cv && s' == To(s, t, Out).(cv := false)))
  }

  /** A waiter finds the count positive and takes one. */
  ghost predicate TakeCount(s: State, s': State, t: Tid)
  {
    t in s.role && s.role[t] in {Mx, MxWoken} && s.count > 0 && s' == To(s, t, Mx).(count := s.count - 1)
  }

  /** A waiter finds the count not positive. */
  ghost predicate SeeLow(s: State, s': State, t: Tid)
  {
    t in s.role && s.role[t] in {Mx, MxWoken} && s.count <= 0 && s' == To(s, t, Low)
  }

  ghost predicate AddCount(s: State, s': State, t: Tid)
  {
    t in s.role && s.role[t] == Mx && s' == To(s, t, Pend).(count := s.count + 1)
  }

  ghost predicate Enqueue(s: State, s': State, t: Tid)
  {
    t in s.role && s.role[t] == Enter && s' == To(s, t, Fresh).(waiters := s.waiters + [t])
  }

  ghost predicate Dequeue(s: State, s': State, t: Tid)
  {
    && t in s.role && s.waiters != [] && s.role[t] in {PendCv, Cv}
    && s' == To(s, t, Waker(s.waiters[0], s.role[t] == PendCv)).(waiters := s.waiters[1..])
  }

  ghost predicate FindEmpty(s: State, s': State, t: Tid)
  {
    t in s.role && s.waiters == [] && s.role[t] == PendCv && s' == To(s, t, MxCv)
  }

  ghost predicate WakeUp(s: State, s': State, t: Tid)
  {
    && t in s.role && s.role[t].Waker?
    && var u := s.role[t].sleeper;
       u != t && u in s.role && s.role[u] == Rest
       && s' == To(To(s, u, Woken), t, if s.role[t].inMutex then MxCv else Cv)
  }

  ghost predicate Step(s: State, s': State)
  {
    exists t :: StepOf(s, s', t)
  }

  ghost predicate StepOf(s: State, s': State, t: Tid)
  {
    || TakeMutex(s, s', t) || LeaveMutex(s, s', t) || TakeCv(s, s', t) || LeaveCv(s, s', t)
    || TakeCount(s, s', t) || SeeLow(s, s', t) || AddCount(s, s', t)
    || Enqueue(s, s', t) || Dequeue(s, s', t) || FindEmpty(s, s', t) || WakeUp(s, s', t)
  }

  // ----- the invariant

  /** The lock is set exactly while a thread is inside, and at most one is. */
  ghost predicate MutexOk(s: State)
  {
    && (forall t :: t in s.role && InMutex(s.role[t]) ==> s.mutex)
    && (s.mutex ==> exists t :: t in s.role && InMutex(s.role[t]))
    && (forall t, u :: t in s.role && u in s.role && InMutex(s.role[t]) && InMutex(s.role[u]) ==> t == u)
  }

  ghost predicate CvOk(s: State)
  {
    && (forall t :: t in s.role && InCv(s.role[t]) ==> s.cv)
    && (s.cv ==> exists t :: t in s.role && InCv(s.role[t]))
    && (forall t, u :: t in s.role && u in s.role && InCv(s.role[t]) && InCv(s.role[u]) ==> t == u)
  }

  /** The count is only ever changed inside the mutex, and never below zero. */
  ghost predicate CountOk(s: State)
  {
    && s.count >= 0
    && (forall t :: t in s.role && (s.role[t].Low? || s.role[t].LowCv?) ==> s.count == 0)
  }

  predicate Waiting(r: Role) { r.Fresh? || r.Rest? }

  /**
   * The wait list has no repetition; its members wait; a thread being woken waits, off the list,
   * outside the lock; and whoever waits off the list is being woken.
   */
  ghost predicate QueueOk(s: State)
  {
    && (forall i, j :: 0 <= i < j < |s.waiters| ==> s.waiters[i] != s.waiters[j])
    && (forall u :: u in s.waiters ==> u in s.role && Waiting(s.role[u]))
    && (forall t :: t in s.role && s.role[t].Waker? ==>
          s.role[t].sleeper in s.role && s.role[t].sleeper !in s.waiters && s.role[s.role[t].sleeper] == Rest)
    && (forall u :: u in s.role && Waiting(s.role[u]) && u !in s.waiters ==> BeingWoken(s, u))
  }

  ghost predicate BeingWoken(s: State, u: Tid)
  {
    exists t :: t in s.role && s.role[t].Waker? && s.role[t].sleeper == u
  }

  /** Dequeued by some signal or broadcast, and not yet back at the count. */
  ghost predicate Due(s: State, u: Tid)
  {
    u in s.role && (s.role[u].Woken? || s.role[u].MxWoken? || (s.role[u].Rest? && u !in s.waiters))
  }

  ghost function DueSet(s: State): set<Tid> { set u | u in s.role && Due(s, u) }

  /** Some signaller has incremented the count and not yet looked at the wait list. */
  ghost predicate SignalPending(s: State)
  {
    exists t :: t in s.role && (s.role[t].Pend? || s.role[t].PendCv?)
  }

  /** Someone is on the wait list, or has left the mutex to join it. */
  ghost predicate SomeoneWaits(s: State)
  {
    s.waiters != [] || exists t :: t in s.role && s.role[t].Enter?
  }

  ghost function Pending(s: State): int { if SignalPending(s) then 1 else 0 }

  /** No wake-up is lost: whatever count there is while someone waits is already spoken for. */
  ghost predicate NoLostWakeup(s: State)
  {
    SomeoneWaits(s) ==> s.count <= |DueSet(s)| + Pending(s)
  }

  ghost predicate Inv(s: State)
  {
    MutexOk(s) && CvOk(s) && CountOk(s) && QueueOk(s) && NoLostWakeup(s)
  }

  // ----- locks

  /** A step moves its own thread; another thread at most from rest to woken. */
  ghost predicate OthersStay(s: State, s': State, t: Tid)
  {
    && t in s.role && s'.role.Keys == s.role.Keys
    && forall u :: u in s.role && u != t ==> s'.role[u] == s.role[u] || (s.role[u] == Rest && s'.role[u] == Woken)
  }

  predicate LockUse(lock: bool, lock': bool, inside: bool, inside': bool)
  {
    (lock' == lock && inside' == inside) || (!lock && lock' && !inside && inside') || (inside && !inside' && lock && !lock')
  }

  lemma LocksUsed(s: State, s': State, t: Tid)
    requires StepOf(s, s', t) && MutexOk(s) && CvOk(s)
    ensures OthersStay(s, s', t)
    ensures LockUse(s.mutex, s'.mutex, InMutex(s.role[t]), InMutex(s'.role[t]))
    ensures LockUse(s.cv, s'.cv, InCv(s.role[t]), InCv(s'.role[t]))
  {
    OthersUsed(s, s', t);
    MutexUsed(s, s', t);
    CvUsed(s, s', t);
  }

  lemma OthersUsed(s: State, s': State, t: Tid)
    requires StepOf(s, s', t)
    ensures OthersStay(s, s', t)
  {
  }

  lemma MutexUsed(s: State, s': State, t: Tid)
    requires StepOf(s, s', t) && MutexOk(s)
    ensures t in s.role && t in s'.role && LockUse(s.mutex, s'.mutex, InMutex(s.role[t]), InMutex(s'.role[t]))
  {
  }

  lemma CvUsed(s: State, s': State, t: Tid)
    requires StepOf(s, s', t) && CvOk(s)
    ensures t in s.role && t in s'.role && LockUse(s.cv, s'.cv, InCv(s.role[t]), InCv(s'.role[t]))
  {
  }

  lemma MutexKept(s: State, s': State, t: Tid)
    requires MutexOk(s) && OthersStay(s, s', t)
    requires LockUse(s.mutex, s'.mutex, InMutex(s.role[t]), InMutex(s'.role[t]))
    ensures MutexOk(s')
  {
    if s'.mutex {
      var u :| u in s'.role && (if s.mutex then u in s.role && InMutex(s.role[u]) else u == t);
      assert InMutex(s'.role[u]);
    }
  }

  lemma CvKept(s: State, s': State, t: Tid)
    requires CvOk(s) && OthersStay(s, s', t)
    requires LockUse(s.cv, s'.cv, InCv(s.role[t]), InCv(s'.role[t]))
    ensures CvOk(s')
  {
    if s'.cv {
      var u :| u in s'.role && (if s.cv then u in s.role && InCv(s.role[u]) else u == t);
      assert InCv(s'.role[u]);
    }
  }

  lemma CountKept(s: State, s': State, t: Tid)
    requires StepOf(s, s', t) && MutexOk(s) && CountOk(s) && OthersStay(s, s', t)
    ensures CountOk(s')
  {
    forall u | u in s'.role && (s'.role[u].Low? || s'.role[u].LowCv?) ensures s'.count == 0 {
      if u != t { assert s'.role[u] == s.role[u]; }
    }
  }

  // ----- the wait list

  /** Steps that change neither the wait list nor any thread's part in waiting and waking. */
  ghost predicate QueueQuiet(s: State, s': State)
  {
    && s'.waiters == s.waiters && s'.role.Keys == s.role.Keys
    && (forall u :: u in s.role ==>
          && (Waiting(s'.role[u]) <==> Waiting(s.role[u])) && (s'.role[u].Rest? <==> s.role[u].Rest?)
          && (s'.role[u].Waker? <==> s.role[u].Waker?)
          && (s.role[u].Waker? ==> s'.role[u].sleeper == s.role[u].sleeper))
  }

  lemma QueueQuietKept(s: State, s': State)
    requires QueueOk(s) && QueueQuiet(s, s')
    ensures QueueOk(s')
  {
    forall t | t in s'.role && s'.role[t].Waker?
      ensures s'.role[t].sleeper in s'.role && s'.role[t].sleeper !in s'.waiters && s'.role[s'.role[t].sleeper] == Rest
    {
      assert s.role[t].Waker?;
    }
    forall u | u in s'.role && Waiting(s'.role[u]) && u !in s'.waiters ensures BeingWoken(s', u) {
      assert BeingWoken(s, u);
      var t :| t in s.role && s.role[t].Waker? && s.role[t].sleeper == u;
      assert s'.role[t].Waker?;
    }
  }

  /** While a thread is inside the condition variable's lock, no other thread is waking anyone. */
  lemma NoOtherWaker(s: State, t: Tid)
    requires CvOk(s) && t in s.role && InCv(s.role[t]) && !s.role[t].Waker?
    ensures forall u :: u in s.role ==> !s.role[u].Waker?
  {
  }

  /** In that case everyone who waits is on the list. */
  lemma AllListed(s: State, t: Tid)
    requires CvOk(s) && QueueOk(s) && t in s.role && InCv(s.role[t]) && !s.role[t].Waker?
    ensures forall u :: u in s.role && Waiting(s.role[u]) ==> u in s.waiters
    ensures forall u :: u in s.role ==> !s.role[u].Waker?
  {
    NoOtherWaker(s, t);
    assert forall u :: !BeingWoken(s, u);
  }

  /** A waker's sleeper is the only thread that waits off the list. */
  lemma OnlySleeper(s: State, t: Tid)
    requires CvOk(s) && QueueOk(s) && t in s.role && s.role[t].Waker?
    ensures forall u :: u in s.role && Waiting(s.role[u]) && u !in s.waiters ==> u == s.role[t].sleeper
    ensures forall u :: u in s.role && u != t ==> !s.role[u].Waker?
  {
    forall u | BeingWoken(s, u) ensures u == s.role[t].sleeper {
    }
  }

  lemma EnqueueKeepsQueue(s: State, s': State, t: Tid)
    requires Enqueue(s, s', t) && CvOk(s) && QueueOk(s)
    ensures QueueOk(s')
  {
    AllListed(s, t);
    assert t !in s.waiters;
  }

  lemma HeadRests(s: State, t: Tid)
    requires CvOk(s) && QueueOk(s) && t in s.role && InCv(s.role[t]) && !Waiting(s.role[t]) && s.waiters != []
    ensures s.waiters[0] in s.role && s.waiters[0] != t && s.role[s.waiters[0]] == Rest
    ensures s.waiters[0] !in s.waiters[1..]
  {
    assert s.waiters[0] in s.waiters;
  }

  lemma DequeueKeepsQueue(s: State, s': State, t: Tid)
    requires Dequeue(s, s', t) && CvOk(s) && QueueOk(s)
    ensures QueueOk(s')
  {
    HeadRests(s, t);
    AllListed(s, t);
    assert s.waiters == [s.waiters[0]] + s.waiters[1..];
    assert BeingWoken(s', s.waiters[0]) by { assert s'.role[t].Waker?; }
  }

  lemma WakeKeepsQueue(s: State, s': State, t: Tid)
    requires WakeUp(s, s', t) && CvOk(s) && QueueOk(s)
    ensures QueueOk(s')
  {
    OnlySleeper(s, t);
  }

  lemma LeaveCvKeepsQueue(s: State, s': State, t: Tid)
    requires LeaveCv(s, s', t) && CvOk(s) && QueueOk(s)
    ensures QueueOk(s')
  {
    AllListed(s, t);
    assert s'.waiters == s.waiters && forall u :: u in s'.role ==> !s'.role[u].Waker?;
  }

  lemma QueueKept(s: State, s': State, t: Tid)
    requires StepOf(s, s', t) && CvOk(s) && QueueOk(s)
    ensures QueueOk(s')
  {
    if Enqueue(s, s', t) { EnqueueKeepsQueue(s, s', t); }
    else if Dequeue(s, s', t) { DequeueKeepsQueue(s, s', t); }
    else if WakeUp(s, s', t) { WakeKeepsQueue(s, s', t); }
    else if LeaveCv(s, s', t) { LeaveCvKeepsQueue(s, s', t); }
    else { QuietSteps(s, s', t); QueueQuietKept(s, s'); }
  }

  lemma QuietSteps(s: State, s': State, t: Tid)
    requires StepOf(s, s', t) && !Enqueue(s, s', t) && !Dequeue(s, s', t) && !WakeUp(s, s', t) && !LeaveCv(s, s', t)
    ensures QueueQuiet(s, s')
  {
  }

  // ----- no lost wake-up

  /** Nothing that matters to the wake-up count changes, except that it may fall. */
  lemma QuietKeepsWakeups(s: State, s': State)
    requires NoLostWakeup(s) && s'.count <= s.count && (SomeoneWaits(s') ==> SomeoneWaits(s))
    requires DueSet(s') == DueSet(s) && (SignalPending(s) ==> SignalPending(s'))
    ensures NoLostWakeup(s')
  {
  }

  lemma LockStepsKeepWakeups(s: State, s': State, t: Tid)
    requires TakeMutex(s, s', t) || TakeCv(s, s', t)
    requires NoLostWakeup(s)
    ensures NoLostWakeup(s')
  {
    SameDue(s, s', t);
    StillPending(s, s', t);
    StillWaits(s, s', t);
    QuietKeepsWakeups(s, s');
  }

  /** Due threads are the same when the list is and the moving thread's dueness is. */
  lemma SameDue(s: State, s': State, t: Tid)
    requires t in s.role && t in s'.role && s'.waiters == s.waiters && s'.role == s.role[t := s'.role[t]]
    requires Due(s', t) <==> Due(s, t)
    ensures DueSet(s') == DueSet(s)
  {
    assert forall u :: u in s.role && u != t ==> (Due(s', u) <==> Due(s, u));
  }

  predicate PendingRole(r: Role) { r.Pend? || r.PendCv? }

  lemma StillPending(s: State, s': State, t: Tid)
    requires t in s.role && t in s'.role && s'.role == s.role[t := s'.role[t]]
    requires PendingRole(s.role[t]) ==> PendingRole(s'.role[t])
    ensures SignalPending(s) ==> SignalPending(s')
  {
    if SignalPending(s) {
      var u :| u in s.role && PendingRole(s.role[u]);
      assert u in s'.role && PendingRole(s'.role[u]);
    }
  }

  lemma StillWaits(s: State, s': State, t: Tid)
    requires t in s.role && t in s'.role && s'.role == s.role[t := s'.role[t]]
    requires s'.waiters == s.waiters && (s'.role[t].Enter? ==> s.role[t].Enter?)
    ensures SomeoneWaits(s') ==> SomeoneWaits(s)
  {
    if u :| u in s'.role && s'.role[u].Enter? { assert u in s.role && s.role[u].Enter?; }
  }

  lemma LeaveStepsKeepWakeups(s: State, s': State, t: Tid)
    requires LeaveMutex(s, s', t) || LeaveCv(s, s', t)
    requires Inv(s)
    ensures NoLostWakeup(s')
  {
    if s.role[t].LowCv? {
      assert s'.count == 0;
    } else {
      if s.role[t].Fresh? { AllListed(s, t); }
      SameDue(s, s', t);
      StillPending(s, s', t);
      StillWaits(s, s', t);
      QuietKeepsWakeups(s, s');
    }
  }

  lemma TakeKeepsWakeups(s: State, s': State, t: Tid)
    requires TakeCount(s, s', t) && Inv(s)
    ensures NoLostWakeup(s')
  {
    StillPending(s, s', t);
    StillWaits(s, s', t);
    if s.role[t].MxWoken? {
      LessDue(s, s', t);
    } else {
      SameDue(s, s', t);
    }
  }

  lemma LessDue(s: State, s': State, t: Tid)
    requires t in s.role && t in s'.role && s'.waiters == s.waiters && s'.role == s.role[t := s'.role[t]]
    requires Due(s, t) && !Due(s', t)
    ensures |DueSet(s')| == |DueSet(s)| - 1
  {
    assert forall u :: u in s.role && u != t ==> (Due(s', u) <==> Due(s, u));
    assert DueSet(s) == DueSet(s') + {t};
  }

  lemma AddKeepsWakeups(s: State, s': State, t: Tid)
    requires AddCount(s, s', t) && Inv(s)
    ensures NoLostWakeup(s')
  {
    StillWaits(s, s', t);
    SameDue(s, s', t);
    assert !SignalPending(s);
    assert SignalPending(s') by { assert s'.role[t].Pend?; }
  }

  lemma EnqueueKeepsWakeups(s: State, s': State, t: Tid)
    requires Enqueue(s, s', t) && Inv(s)
    ensures NoLostWakeup(s')
  {
    assert forall u :: u in s.role && u != t ==> (Due(s', u) <==> Due(s, u));
    assert DueSet(s') == DueSet(s);
    StillPending(s, s', t);
    assert SomeoneWaits(s);
  }

  lemma DequeueKeepsWakeups(s: State, s': State, t: Tid)
    requires Dequeue(s, s', t) && Inv(s)
    ensures NoLostWakeup(s')
  {
    DequeuedIsDue(s, s', t);
    if s.role[t].Cv? { StillPending(s, s', t); }
  }

  lemma DequeuedIsDue(s: State, s': State, t: Tid)
    requires Dequeue(s, s', t) && CvOk(s) && QueueOk(s)
    ensures |DueSet(s')| == |DueSet(s)| + 1
  {
    HeadRests(s, t);
    var u := s.waiters[0];
    OneMoreDue(s, s', t, u);
    assert DueSet(s') == DueSet(s) + {u} && u !in DueSet(s);
  }

  lemma OneMoreDue(s: State, s': State, t: Tid, u: Tid)
    requires Dequeue(s, s', t) && u == s.waiters[0] && u in s.role && u != t && s.role[u] == Rest && u !in s.waiters[1..]
    ensures !Due(s, u) && Due(s', u) && forall v :: v in s.role && v != u ==> (Due(s', v) <==> Due(s, v))
  {
    assert s.waiters == [u] + s.waiters[1..];
  }

  lemma EmptyKeepsWakeups(s: State, s': State, t: Tid)
    requires FindEmpty(s, s', t) && Inv(s)
    ensures NoLostWakeup(s')
  {
    assert !SomeoneWaits(s');
  }

  lemma WakeKeepsWakeups(s: State, s': State, t: Tid)
    requires WakeUp(s, s', t) && Inv(s)
    ensures NoLostWakeup(s')
  {
    var u := s.role[t].sleeper;
    assert forall v :: v in s.role ==> (Due(s', v) <==> Due(s, v));
    assert DueSet(s') == DueSet(s);
    var m := To(s, u, Woken);
    StillPending(s, m, u);
    StillPending(m, s', t);
    StillWaits(s, m, u);
    StillWaits(m, s', t);
    QuietKeepsWakeups(s, s');
  }

  lemma WakeupsKept(s: State, s': State, t: Tid)
    requires StepOf(s, s', t) && Inv(s)
    ensures NoLostWakeup(s')
  {
    if TakeMutex(s, s', t) || TakeCv(s, s', t) { LockStepsKeepWakeups(s, s', t); }
    else if LeaveMutex(s, s', t) || LeaveCv(s, s', t) { LeaveStepsKeepWakeups(s, s', t); }
    else if TakeCount(s, s', t) { TakeKeepsWakeups(s, s', t); }
    else if SeeLow(s, s', t) { assert s'.count == 0; }
    else if AddCount(s, s', t) { AddKeepsWakeups(s, s', t); }
    else if Enqueue(s, s', t) { EnqueueKeepsWakeups(s, s', t); }
    else if Dequeue(s, s', t) { DequeueKeepsWakeups(s, s', t); }
    else if FindEmpty(s, s', t) { EmptyKeepsWakeups(s, s', t); }
    else { WakeKeepsWakeups(s, s', t); }
  }

  lemma InvKept(s: State, s': State, t: Tid)
    requires StepOf(s, s', t) && Inv(s)
    ensures Inv(s')
  {
    LocksUsed(s, s', t);
    MutexKept(s, s', t);
    CvKept(s, s', t);
    CountKept(s, s', t);
    QueueKept(s, s', t);
    WakeupsKept(s, s', t);
  }
}
