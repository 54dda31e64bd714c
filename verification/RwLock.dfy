/**
 * The reader/writer lock as a step system over five atomic semaphores: any number of threads lock
 * for reading or writing, unlock, and downgrade. One step is one operation on a semaphore, or one
 * load or store of a counter: a thread that changes a counter loads it into its own position first
 * and stores the changed value afterwards. A thread that has to wait for a semaphore does not move.
 */
module RwLock {

  type Tid = int

  /** The semaphores other than `w`, which readers hold as a group. */
  datatype Sem = Gen | R | RCnt | WCnt

  /** rwlock_lock for reading. */
  datatype ReadAt = WaitGen | WaitR | WaitRCnt | Count | Add(seen: int) | First | WaitW | FreeRCnt | FreeR | FreeGen

  /** rwlock_lock for writing. */
  datatype WriteAt = WWaitWCnt | WCount | WAdd(seen: int) | WWaitR | WWaitW | WFreeWCnt

  /** The two branches of rwlock_unlock. */
  datatype LeaveAt = LWaitRCnt | LUncount | LSub(seen: int) | LLast | LFreeW | LFreeRCnt
  datatype QuitAt = QWaitWCnt | QUncount | QSub(seen: int) | QLast | QFreeR | QFreeWCnt

  /** rwlock_downgrade. */
  datatype DownAt =
    | DWaitWCnt | DWaitRCnt | DUncount | DSub(seen: int) | DCount | DAdd(seen: int) | DFreeRCnt | DFreeWCnt | DFreeR

  /** Unlock(reader) is about to read the reader count without holding anything. */
  datatype PC =
    | Idle | Read(r: ReadAt) | Write(w: WriteAt) | Reading | Writing
    | Unlock(reader: bool) | Leave(l: LeaveAt) | Quit(q: QuitAt) | Down(d: DownAt)

  datatype State = State(pc: map<Tid, PC>, sem: map<Sem, int>, w: int, readcnt: int, writecnt: int)

  predicate HasSems(s: State) { Gen in s.sem && R in s.sem && RCnt in s.sem && WCnt in s.sem }

  ghost predicate Init(s: State)
  {
    && (forall t :: t in s.pc ==> s.pc[t] == Idle)
    && s.sem == map[Gen := 1, R := 1, RCnt := 1, WCnt := 1] && s.w == 1 && s.readcnt == 0 && s.writecnt == 0
  }

  // ----- steps

  function Go(s: State, t: Tid, p: PC): State { s.(pc := s.pc[t := p]) }

  /** sem_wait: goes on when the semaphore is positive. */
  function Acquire(s: State, t: Tid, x: Sem, p: PC): State
    requires x in s.sem
  {
    if s.sem[x] > 0 then s.(pc := s.pc[t := p], sem := s.sem[x := s.sem[x] - 1]) else s
  }

  /** sem_signal. */
  function Release(s: State, t: Tid, x: Sem, p: PC): State
    requires x in s.sem
  {
    s.(pc := s.pc[t := p], sem := s.sem[x := s.sem[x] + 1])
  }

  function AcquireW(s: State, t: Tid, p: PC): State
  {
    if s.w > 0 then s.(pc := s.pc[t := p], w := s.w - 1) else s
  }

  function NextRead(s: State, t: Tid, r: ReadAt): State
    requires HasSems(s)
  {
    match r
    case WaitGen => Acquire(s, t, Gen, Read(WaitR))
    case WaitR => Acquire(s, t, R, Read(WaitRCnt))
    case WaitRCnt => Acquire(s, t, RCnt, Read(Count))
    case Count => Go(s, t, Read(Add(s.readcnt)))
    case Add(c) => Go(s, t, Read(First)).(readcnt := c + 1)
    case First => Go(s, t, if s.readcnt == 1 then Read(WaitW) else Read(FreeRCnt))
    case WaitW => AcquireW(s, t, Read(FreeRCnt))
    case FreeRCnt => Release(s, t, RCnt, Read(FreeR))
    case FreeR => Release(s, t, R, Read(FreeGen))
    case FreeGen => Release(s, t, Gen, Reading)
  }

  function NextWrite(s: State, t: Tid, w: WriteAt): State
    requires HasSems(s)
  {
    match w
    case WWaitWCnt => Acquire(s, t, WCnt, Write(WCount))
    case WCount => Go(s, t, Write(WAdd(s.writecnt)))
    case WAdd(c) => Go(s, t, Write(WWaitR)).(writecnt := c + 1)
    case WWaitR => Acquire(s, t, R, Write(WWaitW))
    case WWaitW => AcquireW(s, t, Write(WFreeWCnt))
    case WFreeWCnt => Release(s, t, WCnt, Writing)
  }

  function NextLeave(s: State, t: Tid, l: LeaveAt): State
    requires HasSems(s)
  {
    match l
    case LWaitRCnt => Acquire(s, t, RCnt, Leave(LUncount))
    case LUncount => Go(s, t, Leave(LSub(s.readcnt)))
    case LSub(c) => Go(s, t, Leave(LLast)).(readcnt := c - 1)
    case LLast => Go(s, t, if s.readcnt == 0 then Leave(LFreeW) else Leave(LFreeRCnt))
    case LFreeW => Go(s, t, Leave(LFreeRCnt)).(w := s.w + 1)
    case LFreeRCnt => Release(s, t, RCnt, Idle)
  }

  function NextQuit(s: State, t: Tid, q: QuitAt): State
    requires HasSems(s)
  {
    match q
    case QWaitWCnt => Acquire(s, t, WCnt, Quit(QUncount))
    case QUncount => Go(s, t, Quit(QSub(s.writecnt)))
    case QSub(c) => Go(s, t, Quit(QLast)).(writecnt := c - 1)
    case QLast => Go(s, t, if s.writecnt == 0 then Quit(QFreeR) else Quit(QFreeWCnt))
    case QFreeR => Release(s, t, R, Quit(QFreeWCnt))
    case QFreeWCnt => Release(s, t, WCnt, Idle)
  }

  function NextDown(s: State, t: Tid, d: DownAt): State
    requires HasSems(s)
  {
    match d
    case DWaitWCnt => Acquire(s, t, WCnt, Down(DWaitRCnt))
    case DWaitRCnt => Acquire(s, t, RCnt, Down(DUncount))
    case DUncount => Go(s, t, Down(DSub(s.writecnt)))
    case DSub(c) => Go(s, t, Down(DCount)).(writecnt := c - 1)
    case DCount => Go(s, t, Down(DAdd(s.readcnt)))
    case DAdd(c) => Go(s, t, Down(DFreeRCnt)).(readcnt := c + 1)
    case DFreeRCnt => Release(s, t, RCnt, Down(DFreeWCnt))
    case DFreeWCnt => Release(s, t, WCnt, Down(DFreeR))
    case DFreeR => Release(s, t, R, Reading)
  }

  /** Thread `t` takes its next step; idle and inside threads choose what to call. */
  ghost predicate StepOf(s: State, s': State, t: Tid)
  {
    HasSems(s) && t in s.pc && match s.pc[t]
      case Idle => s' == Go(s, t, Read(WaitGen)) || s' == Go(s, t, Write(WWaitWCnt))
      case Read(r) => s' == NextRead(s, t, r)
      case Write(w) => s' == NextWrite(s, t, w)
      case Reading => s' == Go(s, t, Unlock(true))
      case Writing => s' == Go(s, t, Unlock(false)) || s' == Go(s, t, Down(DWaitWCnt))
      case Unlock(_) => s' == Go(s, t, if s.readcnt > 0 then Leave(LWaitRCnt) else Quit(QWaitWCnt))
      case Leave(l) => s' == NextLeave(s, t, l)
      case Quit(q) => s' == NextQuit(s, t, q)
      case Down(d) => s' == NextDown(s, t, d)
  }

  ghost predicate Step(s: State, s': State) { exists t :: StepOf(s, s', t) }

  /** The step from state `i` to the next. */
  ghost predicate StepAt(tr: seq<State>, i: int)
    requires 0 <= i < |tr| - 1
  {
    Step(tr[i], tr[i + 1])
  }

  ghost predicate Run(tr: seq<State>)
  {
    |tr| > 0 && Init(tr[0]) && forall i :: 0 <= i < |tr| - 1 ==> StepAt(tr, i)
  }

  // ----- who holds what

  predicate Holds(x: Sem, p: PC)
  {
    match x
    case Gen => p.Read? && !p.r.WaitGen?
    case R => HoldsR(p)
    case RCnt => HoldsRCnt(p)
    case WCnt => HoldsWCnt(p)
  }

  predicate HoldsR(p: PC)
  {
    || (p.Read? && !p.r.WaitGen? && !p.r.WaitR? && !p.r.FreeGen?)
    || (p.Write? && (p.w.WWaitW? || p.w.WFreeWCnt?)) || p.Writing? || (p.Unlock? && !p.reader)
    || (p.Quit? && !p.q.QFreeWCnt?) || p.Down?
  }

  predicate HoldsRCnt(p: PC)
  {
    || (p.Read? && (p.r.Count? || p.r.Add? || p.r.First? || p.r.WaitW? || p.r.FreeRCnt?))
    || (p.Leave? && !p.l.LWaitRCnt?)
    || (p.Down? && (p.d.DUncount? || p.d.DSub? || p.d.DCount? || p.d.DAdd? || p.d.DFreeRCnt?))
  }

  predicate HoldsWCnt(p: PC)
  {
    || (p.Write? && !p.w.WWaitWCnt?) || (p.Quit? && !p.q.QWaitWCnt?)
    || (p.Down? && !p.d.DWaitWCnt? && !p.d.DFreeR?)
  }

  /** A writer that has taken `w`; unlocking never gives it back, downgrading hands it to the readers. */
  predicate HoldsW(p: PC)
  {
    || (p.Write? && p.w.WFreeWCnt?) || p.Writing? || (p.Unlock? && !p.reader) || p.Quit?
    || (p.Down? && (p.d.DWaitWCnt? || p.d.DWaitRCnt? || p.d.DUncount? || p.d.DSub? || p.d.DCount? || p.d.DAdd?))
  }

  /** Counted in readcnt. */
  predicate CountedReader(p: PC)
  {
    || (p.Read? && (p.r.First? || p.r.WaitW? || p.r.FreeRCnt? || p.r.FreeR? || p.r.FreeGen?))
    || p.Reading? || (p.Unlock? && p.reader) || (p.Leave? && (p.l.LWaitRCnt? || p.l.LUncount? || p.l.LSub?))
    || (p.Down? && (p.d.DFreeRCnt? || p.d.DFreeWCnt? || p.d.DFreeR?))
  }

  /** Counted in writecnt. */
  predicate CountedWriter(p: PC)
  {
    || (p.Write? && (p.w.WWaitR? || p.w.WWaitW? || p.w.WFreeWCnt?)) || p.Writing? || (p.Unlock? && !p.reader)
    || (p.Quit? && (p.q.QWaitWCnt? || p.q.QUncount? || p.q.QSub?))
    || (p.Down? && (p.d.DWaitWCnt? || p.d.DWaitRCnt? || p.d.DUncount? || p.d.DSub?))
  }

  /** Inside as a reader: counted, and past the point where the first reader waits for `w`. */
  predicate ReaderInside(p: PC) { CountedReader(p) && !(p.Read? && (p.r.First? || p.r.WaitW?)) }

  /** Inside as a writer: from taking `w` until `r` is given back or readcnt is raised. */
  predicate WriterInside(p: PC) { HoldsW(p) && HoldsR(p) }

  // ----- the invariant

  /** A binary semaphore: zero exactly while someone holds it, and at most one thread does. */
  ghost predicate TokenOk(s: State, x: Sem)
  {
    && x in s.sem && 0 <= s.sem[x] <= 1
    && (forall t :: t in s.pc && Holds(x, s.pc[t]) ==> s.sem[x] == 0)
    && (s.sem[x] == 0 ==> Held(s, x))
    && (forall t, u :: t in s.pc && u in s.pc && Holds(x, s.pc[t]) && Holds(x, s.pc[u]) ==> t == u)
  }

  ghost predicate Held(s: State, x: Sem) { exists t :: t in s.pc && Holds(x, s.pc[t]) }

  ghost function Readers(s: State): set<Tid> { set t | t in s.pc && CountedReader(s.pc[t]) }

  ghost function Writers(s: State): set<Tid> { set t | t in s.pc && CountedWriter(s.pc[t]) }

  ghost predicate CountsOk(s: State) { s.readcnt == |Readers(s)| && s.writecnt == |Writers(s)| }

  /** A first reader that has counted itself but not yet taken `w`. */
  ghost predicate FirstPending(s: State)
  {
    exists t :: t in s.pc && FirstAt(s.pc[t], s.readcnt)
  }

  predicate FirstAt(p: PC, readcnt: int) { p.Read? && (p.r.WaitW? || (p.r.First? && readcnt == 1)) }

  /** A last reader that has uncounted itself but not yet given `w` back. */
  ghost predicate LastPending(s: State)
  {
    exists t :: t in s.pc && LastAt(s.pc[t], s.readcnt)
  }

  predicate LastAt(p: PC, readcnt: int) { p.Leave? && (p.l.LFreeW? || (p.l.LLast? && readcnt == 0)) }

  /** The readers as a group hold `w`. */
  ghost predicate GroupHoldsW(s: State)
  {
    (s.readcnt > 0 && !FirstPending(s)) || LastPending(s)
  }

  ghost predicate WOk(s: State)
  {
    && 0 <= s.w <= 1
    && (GroupHoldsW(s) ==> s.w == 0)
    && (forall t :: t in s.pc && HoldsW(s.pc[t]) ==> s.w == 0 && !GroupHoldsW(s))
    && (forall t, u :: t in s.pc && u in s.pc && HoldsW(s.pc[t]) && HoldsW(s.pc[u]) ==> t == u)
  }

  /** What the tests of the two counters have established. */
  ghost predicate TestsOk(s: State)
  {
    && (forall t :: t in s.pc && s.pc[t] == Read(WaitW) ==> s.readcnt == 1)
    && (forall t :: t in s.pc && s.pc[t] == Leave(LFreeW) ==> s.readcnt == 0)
  }

  /** A counter value that a thread has loaded is still the counter's. */
  predicate LocalOk(p: PC, readcnt: int, writecnt: int)
  {
    && (p.Read? && p.r.Add? ==> p.r.seen == readcnt) && (p.Leave? && p.l.LSub? ==> p.l.seen == readcnt)
    && (p.Write? && p.w.WAdd? ==> p.w.seen == writecnt) && (p.Quit? && p.q.QSub? ==> p.q.seen == writecnt)
    && (p.Down? && p.d.DSub? ==> p.d.seen == writecnt) && (p.Down? && p.d.DAdd? ==> p.d.seen == readcnt)
  }

  ghost predicate LocalsOk(s: State) { forall t :: t in s.pc ==> LocalOk(s.pc[t], s.readcnt, s.writecnt) }

  ghost predicate Inv(s: State)
  {
    (forall x :: TokenOk(s, x)) && LocalsOk(s) && CountsOk(s) && WOk(s) && TestsOk(s)
  }

  // ----- the shape of a step

  datatype Delta = Same | SemDown(x: Sem) | SemUp(x: Sem) | WDown | WUp | ReadUp | ReadDown | WriteUp | WriteDown

  function SemChange(d: Delta, x: Sem): int
  {
    if d == SemDown(x) then -1 else if d == SemUp(x) then 1 else 0
  }

  /** Thread `t` moves to `p` and one semaphore or counter changes by one, or none does. */
  ghost predicate Shape(s: State, s': State, t: Tid, p: PC, d: Delta)
  {
    && HasSems(s) && HasSems(s') && t in s.pc && s'.pc == s.pc[t := p]
    && (forall x :: x in s.sem && x in s'.sem ==> s'.sem[x] == s.sem[x] + SemChange(d, x))
    && (forall x :: d == SemDown(x) ==> x in s.sem && s.sem[x] > 0)
    && s'.w == s.w + (if d.WDown? then -1 else if d.WUp? then 1 else 0) && (d.WDown? ==> s.w > 0)
    && s'.readcnt == s.readcnt + (if d.ReadUp? then 1 else if d.ReadDown? then -1 else 0)
    && s'.writecnt == s.writecnt + (if d.WriteUp? then 1 else if d.WriteDown? then -1 else 0)
  }

  /** The thread comes to hold the semaphore by taking it, and no longer holds it by giving it back. */
  ghost predicate Passes(x: Sem, p: PC, p': PC, d: Delta)
  {
    if d == SemDown(x) then !Holds(x, p) && Holds(x, p')
    else if d == SemUp(x) then Holds(x, p) && !Holds(x, p')
    else Holds(x, p') == Holds(x, p)
  }

  lemma PassesAny(x: Sem, p: PC, p': PC, d: Delta)
    requires Consistent(p, p', d)
    ensures Passes(x, p, p', d)
  {
    match x case Gen => case R => case RCnt => case WCnt =>
  }

  /** What the thread holds and is counted for changes as the semaphores and counters do. */
  ghost predicate Consistent(p: PC, p': PC, d: Delta)
  {
    && Passes(Gen, p, p', d) && Passes(R, p, p', d) && Passes(RCnt, p, p', d) && Passes(WCnt, p, p', d)
    && (CountedReader(p) == CountedReader(p') <==> !d.ReadUp? && !d.ReadDown?)
    && (d.ReadUp? ==> CountedReader(p')) && (d.ReadDown? ==> CountedReader(p))
    && (CountedWriter(p) == CountedWriter(p') <==> !d.WriteUp? && !d.WriteDown?)
    && (d.WriteUp? ==> CountedWriter(p')) && (d.WriteDown? ==> CountedWriter(p))
    && (d.ReadUp? || d.ReadDown? ==> HoldsRCnt(p)) && (d.WriteUp? || d.WriteDown? ==> HoldsWCnt(p))
    && (p'.Read? && p'.r.WaitW? ==> HoldsRCnt(p)) && (p'.Leave? && p'.l.LFreeW? ==> HoldsRCnt(p))
  }

  ghost predicate Explained(s: State, s': State, t: Tid, p: PC, d: Delta)
  {
    s' == s || (Shape(s, s', t, p, d) && Consistent(s.pc[t], p, d))
  }

  lemma AcquireShape(s: State, t: Tid, x: Sem, p: PC)
    requires HasSems(s) && t in s.pc && Consistent(s.pc[t], p, SemDown(x))
    ensures Explained(s, Acquire(s, t, x, p), t, p, SemDown(x))
  {
  }

  lemma ReleaseShape(s: State, t: Tid, x: Sem, p: PC)
    requires HasSems(s) && t in s.pc && Consistent(s.pc[t], p, SemUp(x))
    ensures Explained(s, Release(s, t, x, p), t, p, SemUp(x))
  {
  }

  lemma GoShape(s: State, t: Tid, p: PC)
    requires HasSems(s) && t in s.pc && Consistent(s.pc[t], p, Same)
    ensures Explained(s, Go(s, t, p), t, p, Same)
  {
  }

  lemma ReadWaitShape(s: State, t: Tid, r: ReadAt) returns (p: PC, d: Delta)
    requires HasSems(s) && t in s.pc && s.pc[t] == Read(r) && (r.WaitGen? || r.WaitR? || r.WaitRCnt?)
    ensures Explained(s, NextRead(s, t, r), t, p, d)
  {
    match r
    case WaitGen => AcquireShape(s, t, Gen, Read(WaitR)); p, d := Read(WaitR), SemDown(Gen);
    case WaitR => AcquireShape(s, t, R, Read(WaitRCnt)); p, d := Read(WaitRCnt), SemDown(R);
    case WaitRCnt => AcquireShape(s, t, RCnt, Read(Count)); p, d := Read(Count), SemDown(RCnt);
  }

  lemma ReadCountShape(s: State, t: Tid, r: ReadAt) returns (p: PC, d: Delta)
    requires HasSems(s) && t in s.pc && s.pc[t] == Read(r) && LocalOk(s.pc[t], s.readcnt, s.writecnt)
    requires r.Count? || r.Add? || r.First? || r.WaitW?
    ensures Explained(s, NextRead(s, t, r), t, p, d)
  {
    match r
    case Count => p, d := Read(Add(s.readcnt)), Same; GoShape(s, t, p);
    case Add(_) => p, d := Read(First), ReadUp;
    case First => p, d := if s.readcnt == 1 then Read(WaitW) else Read(FreeRCnt), Same; GoShape(s, t, p);
    case WaitW => p, d := Read(FreeRCnt), WDown;
  }

  lemma ReadShape(s: State, t: Tid, r: ReadAt) returns (p: PC, d: Delta)
    requires HasSems(s) && t in s.pc && s.pc[t] == Read(r) && LocalOk(s.pc[t], s.readcnt, s.writecnt)
    ensures Explained(s, NextRead(s, t, r), t, p, d)
  {
    match r
    case FreeRCnt => ReleaseShape(s, t, RCnt, Read(FreeR)); p, d := Read(FreeR), SemUp(RCnt);
    case FreeR => ReleaseShape(s, t, R, Read(FreeGen)); p, d := Read(FreeGen), SemUp(R);
    case FreeGen => ReleaseShape(s, t, Gen, Reading); p, d := Reading, SemUp(Gen);
    case _ => if r.WaitGen? || r.WaitR? || r.WaitRCnt? { p, d := ReadWaitShape(s, t, r); }
              else { p, d := ReadCountShape(s, t, r); }
  }

  lemma WriteEntryShape(s: State, t: Tid, w: WriteAt) returns (p: PC, d: Delta)
    requires HasSems(s) && t in s.pc && s.pc[t] == Write(w) && LocalOk(s.pc[t], s.readcnt, s.writecnt)
    requires w.WWaitWCnt? || w.WCount? || w.WAdd?
    ensures Explained(s, NextWrite(s, t, w), t, p, d)
  {
    match w
    case WWaitWCnt => AcquireShape(s, t, WCnt, Write(WCount)); p, d := Write(WCount), SemDown(WCnt);
    case WCount => p, d := Write(WAdd(s.writecnt)), Same; GoShape(s, t, p);
    case WAdd(_) => p, d := Write(WWaitR), WriteUp;
  }

  lemma WriteShape(s: State, t: Tid, w: WriteAt) returns (p: PC, d: Delta)
    requires HasSems(s) && t in s.pc && s.pc[t] == Write(w) && LocalOk(s.pc[t], s.readcnt, s.writecnt)
    ensures Explained(s, NextWrite(s, t, w), t, p, d)
  {
    match w
    case WWaitR => AcquireShape(s, t, R, Write(WWaitW)); p, d := Write(WWaitW), SemDown(R);
    case WWaitW => p, d := Write(WFreeWCnt), WDown;
    case WFreeWCnt => ReleaseShape(s, t, WCnt, Writing); p, d := Writing, SemUp(WCnt);
    case _ => p, d := WriteEntryShape(s, t, w);
  }

  lemma LeaveEntryShape(s: State, t: Tid, l: LeaveAt) returns (p: PC, d: Delta)
    requires HasSems(s) && t in s.pc && s.pc[t] == Leave(l) && LocalOk(s.pc[t], s.readcnt, s.writecnt)
    requires l.LWaitRCnt? || l.LUncount? || l.LSub?
    ensures Explained(s, NextLeave(s, t, l), t, p, d)
  {
    match l
    case LWaitRCnt => AcquireShape(s, t, RCnt, Leave(LUncount)); p, d := Leave(LUncount), SemDown(RCnt);
    case LUncount => p, d := Leave(LSub(s.readcnt)), Same; GoShape(s, t, p);
    case LSub(_) => p, d := Leave(LLast), ReadDown;
  }

  lemma LeaveShape(s: State, t: Tid, l: LeaveAt) returns (p: PC, d: Delta)
    requires HasSems(s) && t in s.pc && s.pc[t] == Leave(l) && LocalOk(s.pc[t], s.readcnt, s.writecnt)
    ensures Explained(s, NextLeave(s, t, l), t, p, d)
  {
    match l
    case LLast => p, d := if s.readcnt == 0 then Leave(LFreeW) else Leave(LFreeRCnt), Same;
    case LFreeW => p, d := Leave(LFreeRCnt), WUp;
    case LFreeRCnt => ReleaseShape(s, t, RCnt, Idle); p, d := Idle, SemUp(RCnt);
    case _ => p, d := LeaveEntryShape(s, t, l);
  }

  lemma QuitEntryShape(s: State, t: Tid, q: QuitAt) returns (p: PC, d: Delta)
    requires HasSems(s) && t in s.pc && s.pc[t] == Quit(q) && LocalOk(s.pc[t], s.readcnt, s.writecnt)
    requires q.QWaitWCnt? || q.QUncount? || q.QSub?
    ensures Explained(s, NextQuit(s, t, q), t, p, d)
  {
    match q
    case QWaitWCnt => AcquireShape(s, t, WCnt, Quit(QUncount)); p, d := Quit(QUncount), SemDown(WCnt);
    case QUncount => p, d := Quit(QSub(s.writecnt)), Same; GoShape(s, t, p);
    case QSub(_) => p, d := Quit(QLast), WriteDown;
  }

  lemma QuitShape(s: State, t: Tid, q: QuitAt) returns (p: PC, d: Delta)
    requires q == QLast ==> s.writecnt == 0
    requires HasSems(s) && t in s.pc && s.pc[t] == Quit(q) && LocalOk(s.pc[t], s.readcnt, s.writecnt)
    ensures Explained(s, NextQuit(s, t, q), t, p, d)
  {
    match q
    case QLast => p, d := Quit(QFreeR), Same;
    case QFreeR => ReleaseShape(s, t, R, Quit(QFreeWCnt)); p, d := Quit(QFreeWCnt), SemUp(R);
    case QFreeWCnt => ReleaseShape(s, t, WCnt, Idle); p, d := Idle, SemUp(WCnt);
    case _ => p, d := QuitEntryShape(s, t, q);
  }

  lemma DownEntryShape(s: State, t: Tid, k: DownAt) returns (p: PC, d: Delta)
    requires HasSems(s) && t in s.pc && s.pc[t] == Down(k) && LocalOk(s.pc[t], s.readcnt, s.writecnt)
    requires k.DWaitWCnt? || k.DWaitRCnt?
    ensures Explained(s, NextDown(s, t, k), t, p, d)
  {
    match k
    case DWaitWCnt => AcquireShape(s, t, WCnt, Down(DWaitRCnt)); p, d := Down(DWaitRCnt), SemDown(WCnt);
    case DWaitRCnt => AcquireShape(s, t, RCnt, Down(DUncount)); p, d := Down(DUncount), SemDown(RCnt);
  }

  lemma DownCountShape(s: State, t: Tid, k: DownAt) returns (p: PC, d: Delta)
    requires HasSems(s) && t in s.pc && s.pc[t] == Down(k) && LocalOk(s.pc[t], s.readcnt, s.writecnt)
    requires k.DUncount? || k.DSub? || k.DCount? || k.DAdd?
    ensures Explained(s, NextDown(s, t, k), t, p, d)
  {
    match k
    case DUncount => p, d := Down(DSub(s.writecnt)), Same; GoShape(s, t, p);
    case DSub(_) => p, d := Down(DCount), WriteDown;
    case DCount => p, d := Down(DAdd(s.readcnt)), Same; GoShape(s, t, p);
    case DAdd(_) => p, d := Down(DFreeRCnt), ReadUp;
  }

  lemma DownShape(s: State, t: Tid, k: DownAt) returns (p: PC, d: Delta)
    requires HasSems(s) && t in s.pc && s.pc[t] == Down(k) && LocalOk(s.pc[t], s.readcnt, s.writecnt)
    ensures Explained(s, NextDown(s, t, k), t, p, d)
  {
    match k
    case DFreeRCnt => ReleaseShape(s, t, RCnt, Down(DFreeWCnt)); p, d := Down(DFreeWCnt), SemUp(RCnt);
    case DFreeWCnt => ReleaseShape(s, t, WCnt, Down(DFreeR)); p, d := Down(DFreeR), SemUp(WCnt);
    case DFreeR => ReleaseShape(s, t, R, Reading); p, d := Reading, SemUp(R);
    case _ => if k.DWaitWCnt? || k.DWaitRCnt? { p, d := DownEntryShape(s, t, k); } else { p, d := DownCountShape(s, t, k); }
  }

  /** The unlocked read of readcnt picks the branch for the caller's own mode. */
  ghost predicate BranchRight(s: State)
  {
    forall t :: t in s.pc && s.pc[t].Unlock? ==> (s.readcnt > 0 <==> s.pc[t].reader)
  }

  /** A writer that has uncounted itself finds the count zero. */
  ghost predicate LastRight(s: State) { forall t :: t in s.pc && s.pc[t] == Quit(QLast) ==> s.writecnt == 0 }

  lemma StepShape(s: State, s': State, t: Tid) returns (p: PC, d: Delta)
    requires StepOf(s, s', t) && BranchRight(s) && LastRight(s) && LocalsOk(s)
    ensures Explained(s, s', t, p, d)
  {
    assert LocalOk(s.pc[t], s.readcnt, s.writecnt);
    match s.pc[t]
    case Read(r) => p, d := ReadShape(s, t, r);
    case Write(w) => p, d := WriteShape(s, t, w);
    case Leave(l) => p, d := LeaveShape(s, t, l);
    case Quit(q) => p, d := QuitShape(s, t, q);
    case Down(k) => p, d := DownShape(s, t, k);
    case _ => p, d := CallShape(s, s', t);
  }

  /** An idle or inside thread calls something, or unlocking picks its branch. */
  lemma CallShape(s: State, s': State, t: Tid) returns (p: PC, d: Delta)
    requires StepOf(s, s', t) && BranchRight(s) && (s.pc[t].Idle? || s.pc[t].Reading? || s.pc[t].Writing? || s.pc[t].Unlock?)
    ensures Explained(s, s', t, p, d)
  {
    p, d := s'.pc[t], Same;
    CallMoves(s, s', t);
    CallConsistent(s.pc[t], p);
    GoShape(s, t, p);
  }

  /** The positions between which a call or the choice of a branch moves a thread. */
  predicate CallsTo(p: PC, p': PC)
  {
    || (p == Idle && (p' == Read(WaitGen) || p' == Write(WWaitWCnt))) || (p == Reading && p' == Unlock(true))
    || (p == Writing && (p' == Unlock(false) || p' == Down(DWaitWCnt)))
    || (p == Unlock(true) && p' == Leave(LWaitRCnt)) || (p == Unlock(false) && p' == Quit(QWaitWCnt))
  }

  lemma CallConsistent(p: PC, p': PC)
    requires CallsTo(p, p')
    ensures Consistent(p, p', Same)
  {
  }

  lemma CallMoves(s: State, s': State, t: Tid)
    requires StepOf(s, s', t) && BranchRight(s) && (s.pc[t].Idle? || s.pc[t].Reading? || s.pc[t].Writing? || s.pc[t].Unlock?)
    ensures t in s'.pc && s' == Go(s, t, s'.pc[t]) && CallsTo(s.pc[t], s'.pc[t])
  {
  }
  // ----- semaphores and counters

  lemma TokenKept(s: State, s': State, t: Tid, p: PC, d: Delta, x: Sem)
    requires Shape(s, s', t, p, d) && Passes(x, s.pc[t], p, d) && TokenOk(s, x)
    ensures TokenOk(s', x)
  {
    assert forall u :: u in s.pc && u != t ==> s'.pc[u] == s.pc[u];
    assert s'.pc[t] == p;
    if s'.sem[x] == 0 { StillHeldBy(s, s', t, p, d, x); }
  }

  lemma StillHeldBy(s: State, s': State, t: Tid, p: PC, d: Delta, x: Sem)
    requires Shape(s, s', t, p, d) && Passes(x, s.pc[t], p, d) && TokenOk(s, x) && x in s'.sem && s'.sem[x] == 0
    ensures Held(s', x)
  {
    if d == SemDown(x) {
      assert t in s'.pc && Holds(x, s'.pc[t]);
    } else {
      var u :| u in s.pc && Holds(x, s.pc[u]);
      assert u in s'.pc && Holds(x, s'.pc[u]);
    }
  }

  lemma ReadersMove(s: State, s': State, t: Tid, p: PC)
    requires t in s.pc && s'.pc == s.pc[t := p]
    ensures Readers(s') == if CountedReader(p) then Readers(s) + {t} else Readers(s) - {t}
    ensures t in Readers(s) <==> CountedReader(s.pc[t])
  {
  }

  lemma WritersMove(s: State, s': State, t: Tid, p: PC)
    requires t in s.pc && s'.pc == s.pc[t := p]
    ensures Writers(s') == if CountedWriter(p) then Writers(s) + {t} else Writers(s) - {t}
    ensures t in Writers(s) <==> CountedWriter(s.pc[t])
  {
  }

  lemma CountsKept(s: State, s': State, t: Tid, p: PC, d: Delta)
    requires Shape(s, s', t, p, d) && Consistent(s.pc[t], p, d) && CountsOk(s)
    ensures CountsOk(s')
  {
    ReadersMove(s, s', t, p);
    SizeMove(Readers(s), t, CountedReader(p));
    WritersMove(s, s', t, p);
    SizeMove(Writers(s), t, CountedWriter(p));
  }

  lemma SizeMove(a: set<Tid>, t: Tid, now: bool)
    ensures |if now then a + {t} else a - {t}| == |a| + (if now && t !in a then 1 else if !now && t in a then -1 else 0)
  {
    if now && t in a { assert a + {t} == a; }
    if !now && t !in a { assert a - {t} == a; }
  }

  /** Only a holder of rcnt_mutex changes readcnt, so what the others tested stays true. */
  lemma TestsKept(s: State, s': State, t: Tid, p: PC, d: Delta)
    requires Shape(s, s', t, p, d) && Consistent(s.pc[t], p, d) && TokenOk(s, RCnt) && TestsOk(s)
    requires p == Read(WaitW) ==> s'.readcnt == 1
    requires p == Leave(LFreeW) ==> s'.readcnt == 0
    ensures TestsOk(s')
  {
    assert Holds(RCnt, s.pc[t]) == HoldsRCnt(s.pc[t]);
    forall u | u in s.pc && u != t && (s.pc[u] == Read(WaitW) || s.pc[u] == Leave(LFreeW))
      ensures s'.readcnt == s.readcnt
    {
      assert Holds(RCnt, s.pc[u]);
    }
    assert forall u :: u in s'.pc && u != t ==> s'.pc[u] == s.pc[u];
  }

  lemma TestsEstablished(s: State, s': State, t: Tid)
    requires StepOf(s, s', t) && t in s'.pc && s'.pc[t] != s.pc[t]
    ensures s'.pc[t] == Read(WaitW) ==> s'.readcnt == 1
    ensures s'.pc[t] == Leave(LFreeW) ==> s'.readcnt == 0
  {
  }

  // ----- loaded values

  /** Only a holder of rcnt_mutex relies on readcnt, and only a holder of wcnt_mutex on writecnt. */
  lemma LocalsNeedTokens(p: PC, readcnt: int, readcnt': int, writecnt: int, writecnt': int)
    requires LocalOk(p, readcnt, writecnt)
    requires HoldsRCnt(p) ==> readcnt' == readcnt
    requires HoldsWCnt(p) ==> writecnt' == writecnt
    ensures LocalOk(p, readcnt', writecnt')
  {
  }

  lemma LocalsKept(s: State, s': State, t: Tid, p: PC, d: Delta)
    requires Shape(s, s', t, p, d) && Consistent(s.pc[t], p, d) && TokenOk(s, RCnt) && TokenOk(s, WCnt) && LocalsOk(s)
    requires LocalOk(p, s'.readcnt, s'.writecnt)
    ensures LocalsOk(s')
  {
    assert Holds(RCnt, s.pc[t]) == HoldsRCnt(s.pc[t]) && Holds(WCnt, s.pc[t]) == HoldsWCnt(s.pc[t]);
    forall u | u in s'.pc ensures LocalOk(s'.pc[u], s'.readcnt, s'.writecnt) {
      if u != t {
        assert Holds(RCnt, s.pc[u]) == HoldsRCnt(s.pc[u]) && Holds(WCnt, s.pc[u]) == HoldsWCnt(s.pc[u]);
        LocalsNeedTokens(s.pc[u], s.readcnt, s'.readcnt, s.writecnt, s'.writecnt);
      }
    }
  }

  lemma LocalEstablished(s: State, s': State, t: Tid)
    requires StepOf(s, s', t) && s' != s
    ensures t in s'.pc && LocalOk(s'.pc[t], s'.readcnt, s'.writecnt)
  {
    match s.pc[t]
    case Read(r) => ReadLocal(s, t, r);
    case Write(w) => WriteLocal(s, t, w);
    case Leave(l) => LeaveLocal(s, t, l);
    case Quit(q) => QuitLocal(s, t, q);
    case Down(d) => DownLocal(s, t, d);
    case _ =>
  }

  lemma ReadLocal(s: State, t: Tid, r: ReadAt)
    requires HasSems(s) && t in s.pc && s.pc[t] == Read(r)
    ensures var s' := NextRead(s, t, r); s' != s ==> t in s'.pc && LocalOk(s'.pc[t], s'.readcnt, s'.writecnt)
  {
  }

  lemma WriteLocal(s: State, t: Tid, w: WriteAt)
    requires HasSems(s) && t in s.pc && s.pc[t] == Write(w)
    ensures var s' := NextWrite(s, t, w); s' != s ==> t in s'.pc && LocalOk(s'.pc[t], s'.readcnt, s'.writecnt)
  {
  }

  lemma LeaveLocal(s: State, t: Tid, l: LeaveAt)
    requires HasSems(s) && t in s.pc && s.pc[t] == Leave(l)
    ensures var s' := NextLeave(s, t, l); s' != s ==> t in s'.pc && LocalOk(s'.pc[t], s'.readcnt, s'.writecnt)
  {
  }

  lemma QuitLocal(s: State, t: Tid, q: QuitAt)
    requires HasSems(s) && t in s.pc && s.pc[t] == Quit(q)
    ensures var s' := NextQuit(s, t, q); s' != s ==> t in s'.pc && LocalOk(s'.pc[t], s'.readcnt, s'.writecnt)
  {
  }

  lemma DownLocal(s: State, t: Tid, d: DownAt)
    requires HasSems(s) && t in s.pc && s.pc[t] == Down(d)
    ensures var s' := NextDown(s, t, d); s' != s ==> t in s'.pc && LocalOk(s'.pc[t], s'.readcnt, s'.writecnt)
  {
  }

  // ----- the semaphore w

  /** Steps that matter neither to who holds `w` nor to readcnt. */
  ghost predicate WQuiet(s: State, s': State, t: Tid, p: PC)
  {
    && t in s.pc && s'.pc == s.pc[t := p] && s'.w == s.w && s'.readcnt == s.readcnt
    && HoldsW(p) == HoldsW(s.pc[t])
    && FirstAt(p, s.readcnt) == FirstAt(s.pc[t], s.readcnt) && LastAt(p, s.readcnt) == LastAt(s.pc[t], s.readcnt)
  }

  lemma GroupSame(s: State, s': State, t: Tid, p: PC)
    requires WQuiet(s, s', t, p)
    ensures GroupHoldsW(s') == GroupHoldsW(s)
  {
    forall u | u in s.pc ensures FirstAt(s'.pc[u], s.readcnt) == FirstAt(s.pc[u], s.readcnt)
                              && LastAt(s'.pc[u], s.readcnt) == LastAt(s.pc[u], s.readcnt) {
    }
    assert FirstPending(s') == FirstPending(s);
    assert LastPending(s') == LastPending(s);
  }

  lemma WQuietKept(s: State, s': State, t: Tid, p: PC)
    requires WQuiet(s, s', t, p) && WOk(s)
    ensures WOk(s')
  {
    GroupSame(s, s', t, p);
    assert forall u :: u in s.pc ==> HoldsW(s'.pc[u]) == HoldsW(s.pc[u]);
  }

  /** While `t` holds rcnt_mutex, no other thread is a pending first or last reader. */
  lemma OnlyPending(s: State, t: Tid)
    requires TokenOk(s, RCnt) && t in s.pc && HoldsRCnt(s.pc[t])
    ensures FirstPending(s) <==> FirstAt(s.pc[t], s.readcnt)
    ensures LastPending(s) <==> LastAt(s.pc[t], s.readcnt)
  {
    assert Holds(RCnt, s.pc[t]);
    forall u | u in s.pc && u != t ensures !FirstAt(s.pc[u], s.readcnt) && !LastAt(s.pc[u], s.readcnt) {
      assert !Holds(RCnt, s.pc[u]);
    }
  }

  /** A reader counts itself: the first one is pending, the others join a group that holds `w`. */
  lemma CountKeepsW(s: State, s': State, t: Tid)
    requires Inv(s) && t in s.pc && s.pc[t] == Read(Add(s.readcnt)) && s' == Go(s, t, Read(First)).(readcnt := s.readcnt + 1)
    ensures WOk(s')
  {
    OnlyPending(s, t);
    AfterRCnt(s, s', t);
  }

  /** The same about the state after the step: the other threads are still not pending. */
  lemma AfterRCnt(s: State, s': State, t: Tid)
    requires TokenOk(s, RCnt) && t in s.pc && HoldsRCnt(s.pc[t]) && t in s'.pc && s'.pc == s.pc[t := s'.pc[t]]
    ensures FirstPending(s') <==> FirstAt(s'.pc[t], s'.readcnt)
    ensures LastPending(s') <==> LastAt(s'.pc[t], s'.readcnt)
  {
    assert Holds(RCnt, s.pc[t]);
    forall u | u in s'.pc && u != t ensures !FirstAt(s'.pc[u], s'.readcnt) && !LastAt(s'.pc[u], s'.readcnt) {
      assert !Holds(RCnt, s.pc[u]);
    }
  }

  /** The reader-count tests and the first reader's wait for `w`. */
  lemma FirstKeepsW(s: State, s': State, t: Tid)
    requires Inv(s) && t in s.pc && s.pc[t] == Read(First)
    requires s' == Go(s, t, if s.readcnt == 1 then Read(WaitW) else Read(FreeRCnt))
    ensures WOk(s')
  {
    WQuietKept(s, s', t, s'.pc[t]);
  }

  lemma WaitWKeepsW(s: State, s': State, t: Tid)
    requires Inv(s) && t in s.pc && s.pc[t] == Read(WaitW) && s' == AcquireW(s, t, Read(FreeRCnt))
    ensures WOk(s')
  {
    OnlyPending(s, t);
    AfterRCnt(s, s', t);
    assert forall u :: u in s.pc && s.w > 0 ==> !HoldsW(s'.pc[u]);
  }

  lemma UncountKeepsW(s: State, s': State, t: Tid)
    requires Inv(s) && t in s.pc && s.pc[t] == Leave(LSub(s.readcnt)) && s' == Go(s, t, Leave(LLast)).(readcnt := s.readcnt - 1)
    ensures WOk(s')
  {
    OnlyPending(s, t);
    AfterRCnt(s, s', t);
    assert t in Readers(s);
    assert GroupHoldsW(s) && GroupHoldsW(s');
    assert forall u :: u in s.pc ==> HoldsW(s'.pc[u]) == HoldsW(s.pc[u]);
  }

  lemma LastKeepsW(s: State, s': State, t: Tid)
    requires Inv(s) && t in s.pc && s.pc[t] == Leave(LLast)
    requires s' == Go(s, t, if s.readcnt == 0 then Leave(LFreeW) else Leave(LFreeRCnt))
    ensures WOk(s')
  {
    WQuietKept(s, s', t, s'.pc[t]);
  }

  lemma FreeWKeepsW(s: State, s': State, t: Tid)
    requires Inv(s) && t in s.pc && s.pc[t] == Leave(LFreeW) && s' == Go(s, t, Leave(LFreeRCnt)).(w := s.w + 1)
    ensures WOk(s')
  {
    OnlyPending(s, t);
    AfterRCnt(s, s', t);
    assert GroupHoldsW(s) && !GroupHoldsW(s');
    assert forall u :: u in s.pc ==> !HoldsW(s'.pc[u]);
  }

  lemma WriterTakesW(s: State, s': State, t: Tid)
    requires Inv(s) && t in s.pc && s.pc[t] == Write(WWaitW) && s' == AcquireW(s, t, Write(WFreeWCnt))
    ensures WOk(s')
  {
    if s.w > 0 {
      WritersGroup(s, s', t, Write(WFreeWCnt));
      assert forall u :: u in s.pc && u != t ==> !HoldsW(s'.pc[u]);
    }
  }

  /** The pending readers are the same when a thread that is none of them moves. */
  lemma WritersGroup(s: State, s': State, t: Tid, p: PC)
    requires t in s.pc && s'.pc == s.pc[t := p] && s'.readcnt == s.readcnt
    requires !FirstAt(p, s.readcnt) && !FirstAt(s.pc[t], s.readcnt) && !LastAt(p, s.readcnt) && !LastAt(s.pc[t], s.readcnt)
    ensures GroupHoldsW(s') == GroupHoldsW(s)
  {
    forall u | u in s.pc ensures FirstAt(s'.pc[u], s.readcnt) == FirstAt(s.pc[u], s.readcnt)
                              && LastAt(s'.pc[u], s.readcnt) == LastAt(s.pc[u], s.readcnt) {
    }
    assert FirstPending(s') == FirstPending(s);
    assert LastPending(s') == LastPending(s);
  }

  /** The writer's unlock ends without giving `w` back. */
  lemma QuitKeepsW(s: State, s': State, t: Tid)
    requires Inv(s) && t in s.pc && s.pc[t] == Quit(QFreeWCnt)
    requires s'.pc == s.pc[t := Idle] && s'.w == s.w && s'.readcnt == s.readcnt
    ensures WOk(s')
  {
    WritersGroup(s, s', t, Idle);
    assert forall u :: u in s.pc && u != t ==> HoldsW(s'.pc[u]) == HoldsW(s.pc[u]);
  }

  /** Downgrading hands `w` from the writer to the readers. */
  lemma DowngradeKeepsW(s: State, s': State, t: Tid)
    requires Inv(s) && t in s.pc && s.pc[t] == Down(DAdd(s.readcnt)) && s' == Go(s, t, Down(DFreeRCnt)).(readcnt := s.readcnt + 1)
    ensures WOk(s')
  {
    AfterRCnt(s, s', t);
    assert forall u :: u in s.pc ==> !HoldsW(s'.pc[u]);
  }

  // Dispatch: every other step is quiet as far as `w` is concerned.

  lemma ReadKeepsW(s: State, t: Tid, r: ReadAt)
    requires Inv(s) && HasSems(s) && t in s.pc && s.pc[t] == Read(r)
    ensures WOk(NextRead(s, t, r))
  {
    var s' := NextRead(s, t, r);
    assert LocalOk(s.pc[t], s.readcnt, s.writecnt);
    match r
    case Add(_) => CountKeepsW(s, s', t);
    case First => FirstKeepsW(s, s', t);
    case WaitW => WaitWKeepsW(s, s', t);
    case _ => ReadQuiet(s, t, r);
  }

  lemma ReadQuiet(s: State, t: Tid, r: ReadAt)
    requires WOk(s) && HasSems(s) && t in s.pc && s.pc[t] == Read(r) && !r.Add? && !r.First? && !r.WaitW?
    ensures WOk(NextRead(s, t, r))
  {
    var s' := NextRead(s, t, r);
    if s' != s { WQuietKept(s, s', t, s'.pc[t]); }
  }

  lemma WriteKeepsW(s: State, t: Tid, w: WriteAt)
    requires Inv(s) && HasSems(s) && t in s.pc && s.pc[t] == Write(w)
    ensures WOk(NextWrite(s, t, w))
  {
    var s' := NextWrite(s, t, w);
    assert LocalOk(s.pc[t], s.readcnt, s.writecnt);
    if w.WWaitW? { WriterTakesW(s, s', t); }
    else if s' != s { WQuietKept(s, s', t, s'.pc[t]); }
  }

  lemma LeaveKeepsW(s: State, t: Tid, l: LeaveAt)
    requires Inv(s) && HasSems(s) && t in s.pc && s.pc[t] == Leave(l)
    ensures WOk(NextLeave(s, t, l))
  {
    var s' := NextLeave(s, t, l);
    assert LocalOk(s.pc[t], s.readcnt, s.writecnt);
    match l
    case LSub(_) => UncountKeepsW(s, s', t);
    case LLast => LastKeepsW(s, s', t);
    case LFreeW => FreeWKeepsW(s, s', t);
    case _ => if s' != s { WQuietKept(s, s', t, s'.pc[t]); }
  }

  lemma UnlockWriterKeepsW(s: State, t: Tid, q: QuitAt)
    requires Inv(s) && HasSems(s) && t in s.pc && s.pc[t] == Quit(q)
    ensures WOk(NextQuit(s, t, q))
  {
    var s' := NextQuit(s, t, q);
    assert LocalOk(s.pc[t], s.readcnt, s.writecnt);
    if q.QFreeWCnt? { QuitKeepsW(s, s', t); }
    else if s' != s { WQuietKept(s, s', t, s'.pc[t]); }
  }

  lemma DownKeepsW(s: State, t: Tid, d: DownAt)
    requires Inv(s) && HasSems(s) && t in s.pc && s.pc[t] == Down(d)
    ensures WOk(NextDown(s, t, d))
  {
    var s' := NextDown(s, t, d);
    assert LocalOk(s.pc[t], s.readcnt, s.writecnt);
    if d.DAdd? { DowngradeKeepsW(s, s', t); }
    else if s' != s { WQuietKept(s, s', t, s'.pc[t]); }
  }

  lemma WKept(s: State, s': State, t: Tid)
    requires StepOf(s, s', t) && Inv(s) && BranchRight(s)
    ensures WOk(s')
  {
    match s.pc[t]
    case Read(r) => ReadKeepsW(s, t, r);
    case Write(w) => WriteKeepsW(s, t, w);
    case Leave(l) => LeaveKeepsW(s, t, l);
    case Quit(q) => UnlockWriterKeepsW(s, t, q);
    case Down(d) => DownKeepsW(s, t, d);
    case _ => WQuietKept(s, s', t, s'.pc[t]);
  }

  // ----- what the invariant means

  /** A writer inside shuts out first readers, so no reader is counted at all. */
  lemma WriterAlone(s: State, t: Tid)
    requires Inv(s) && t in s.pc && WriterInside(s.pc[t])
    ensures s.readcnt == 0
  {
    assert TokenOk(s, R) && Holds(R, s.pc[t]);
    forall u | u in s.pc ensures !FirstAt(s.pc[u], s.readcnt) {
      if u != t { assert !Holds(R, s.pc[u]); }
    }
    assert !FirstPending(s);
    assert s.readcnt == |Readers(s)|;
  }

  /** A reader inside is one of a group that holds `w`. */
  lemma ReaderInGroup(s: State, t: Tid)
    requires Inv(s) && t in s.pc && ReaderInside(s.pc[t])
    ensures s.readcnt > 0 && GroupHoldsW(s)
  {
    assert t in Readers(s);
    NonEmpty(Readers(s), t);
    forall u | u in s.pc ensures !FirstAt(s.pc[u], s.readcnt) {
      if FirstAt(s.pc[u], s.readcnt) {
        assert u in Readers(s) && s.readcnt == 1;
        OnlyOne(Readers(s), t, u);
      }
    }
    assert !FirstPending(s);
  }

  lemma NonEmpty(a: set<Tid>, t: Tid)
    requires t in a
    ensures |a| > 0
  {
  }

  lemma OnlyOne(a: set<Tid>, t: Tid, u: Tid)
    requires t in a && u in a && |a| == 1
    ensures t == u
  {
    assert |a - {t}| == 0;
    assert u !in a - {t};
  }

  /** Mutual exclusion: a writer inside excludes every other writer and every reader. */
  lemma Excludes(s: State, t: Tid, u: Tid)
    requires Inv(s) && t in s.pc && u in s.pc && t != u && WriterInside(s.pc[t])
    ensures !WriterInside(s.pc[u]) && !ReaderInside(s.pc[u])
  {
    if ReaderInside(s.pc[u]) { ReaderInGroup(s, u); }
  }

  lemma BranchIsRight(s: State)
    requires Inv(s)
    ensures BranchRight(s)
  {
    forall t | t in s.pc && s.pc[t].Unlock? ensures s.readcnt > 0 <==> s.pc[t].reader {
      if s.pc[t].reader { ReaderInGroup(s, t); } else { WriterAlone(s, t); }
    }
  }

  /** A writer that has uncounted itself always finds the count zero, so `r` is given back. */
  lemma LastWriter(s: State, t: Tid)
    requires Inv(s) && t in s.pc && s.pc[t] == Quit(QLast)
    ensures s.writecnt == 0
  {
    assert TokenOk(s, WCnt) && Holds(WCnt, s.pc[t]);
    forall u | u in s.pc ensures !CountedWriter(s.pc[u]) {
      if u != t { assert !Holds(WCnt, s.pc[u]) && !HoldsW(s.pc[u]); }
    }
    assert Writers(s) == {};
  }

  lemma LastIsRight(s: State)
    requires Inv(s)
    ensures LastRight(s)
  {
    forall t | t in s.pc && s.pc[t] == Quit(QLast) ensures s.writecnt == 0 { LastWriter(s, t); }
  }

  // ----- runs

  lemma InitInv(s: State)
    requires Init(s)
    ensures Inv(s)
  {
    forall t | t in s.pc ensures IdleHoldsNothing(s.pc[t], s.readcnt) {
    }
    assert Readers(s) == {} && Writers(s) == {};
    assert !FirstPending(s) && !LastPending(s);
    forall x ensures TokenOk(s, x) {
      InitToken(s, x);
    }
  }

  ghost predicate IdleHoldsNothing(p: PC, readcnt: int)
  {
    !HoldsW(p) && !CountedReader(p) && !CountedWriter(p) && !FirstAt(p, readcnt) && !LastAt(p, readcnt)
  }

  lemma InitToken(s: State, x: Sem)
    requires Init(s)
    ensures TokenOk(s, x)
  {
    assert !Holds(x, Idle);
  }

  lemma StepInv(s: State, s': State)
    requires Step(s, s') && Inv(s)
    ensures Inv(s')
  {
    var t :| StepOf(s, s', t);
    BranchIsRight(s);
    LastIsRight(s);
    var p, d := StepShape(s, s', t);
    if s' != s {
      assert TokenOk(s, RCnt);
      forall x ensures TokenOk(s', x) {
        assert TokenOk(s, x);
        PassesAny(x, s.pc[t], p, d);
        TokenKept(s, s', t, p, d, x);
      }
      assert TokenOk(s, WCnt);
      LocalEstablished(s, s', t);
      LocalsKept(s, s', t, p, d);
      CountsKept(s, s', t, p, d);
      MovedTests(s, s', t, p, d);
      WKept(s, s', t);
    }
  }

  lemma MovedTests(s: State, s': State, t: Tid, p: PC, d: Delta)
    requires StepOf(s, s', t) && Shape(s, s', t, p, d) && Consistent(s.pc[t], p, d) && TokenOk(s, RCnt) && TestsOk(s)
    ensures TestsOk(s')
  {
    assert s'.pc[t] == p;
    if p != s.pc[t] {
      TestsEstablished(s, s', t);
      TestsKept(s, s', t, p, d);
    } else {
      TestsKept(s, s', t, p, d);
    }
  }

  /** Every state of every run satisfies the invariant. */
  lemma {:induction false} EveryRun(tr: seq<State>, n: nat)
    requires Run(tr) && n < |tr|
    ensures Inv(tr[n])
  {
    if n == 0 {
      InitInv(tr[0]);
    } else {
      EveryRun(tr, n - 1);
      assert StepAt(tr, n - 1);
      StepInv(tr[n - 1], tr[n]);
    }
  }

  /** In every run a writer inside excludes every other writer and every reader. */
  lemma RunExcludes(tr: seq<State>, n: nat, t: Tid, u: Tid)
    requires Run(tr) && n < |tr| && t in tr[n].pc && u in tr[n].pc && t != u
    ensures WriterInside(tr[n].pc[t]) ==> !WriterInside(tr[n].pc[u]) && !ReaderInside(tr[n].pc[u])
  {
    EveryRun(tr, n);
    if WriterInside(tr[n].pc[t]) { Excludes(tr[n], t, u); }
  }

  /** In every run both counters are the numbers of threads counted, and unlocking takes the right branch. */
  lemma RunCounts(tr: seq<State>, n: nat)
    requires Run(tr) && n < |tr|
    ensures tr[n].readcnt == |Readers(tr[n])| && tr[n].writecnt == |Writers(tr[n])|
    ensures forall t :: t in tr[n].pc && tr[n].pc[t].Unlock? ==> (tr[n].readcnt > 0 <==> tr[n].pc[t].reader)
  {
    EveryRun(tr, n);
    BranchIsRight(tr[n]);
  }

  // ----- a writer's unlock leaves the lock unusable

  /** `w` is taken but neither a writer nor the readers have it. */
  ghost predicate Leaked(s: State)
  {
    s.w == 0 && !GroupHoldsW(s) && forall t :: t in s.pc ==> !HoldsW(s.pc[t])
  }

  /** All that a thread can be doing once `w` is lost. */
  predicate Outside(p: PC)
  {
    match p
    case Idle => true
    case Read(r) => !(r.FreeRCnt? || r.FreeR? || r.FreeGen?)
    case Write(w) => !w.WFreeWCnt?
    case Leave(l) => l.LFreeRCnt?
    case _ => false
  }

  lemma LeakedOutside(s: State, t: Tid)
    requires Inv(s) && Leaked(s) && t in s.pc
    ensures Outside(s.pc[t])
  {
    assert s.readcnt == |Readers(s)|;
    if ReaderInside(s.pc[t]) { ReaderInGroup(s, t); }
    if s.pc[t].Leave? && !s.pc[t].l.LWaitRCnt? {
      assert TokenOk(s, RCnt);
      OnlyPending(s, t);
    }
  }

  /** The last step of a writer's unlock loses `w`. */
  lemma UnlockLeaks(s: State, s': State, t: Tid)
    requires Inv(s) && StepOf(s, s', t) && s.pc[t] == Quit(QFreeWCnt)
    ensures s'.pc[t] == Idle && Leaked(s')
  {
    WritersGroup(s, s', t, Idle);
    assert forall u :: u in s.pc && u != t ==> s'.pc[u] == s.pc[u] && !HoldsW(s.pc[u]);
  }

  lemma CountStaysLeaked(s: State, s': State, t: Tid)
    requires Inv(s) && Leaked(s) && t in s.pc && s.pc[t] == Read(Add(s.readcnt))
    requires s' == Go(s, t, Read(First)).(readcnt := s.readcnt + 1)
    ensures Leaked(s')
  {
    assert TokenOk(s, RCnt);
    OnlyPending(s, t);
    AfterRCnt(s, s', t);
    assert s.readcnt == |Readers(s)|;
    assert forall u :: u in s.pc ==> !HoldsW(s'.pc[u]);
  }

  lemma QuietStaysLeaked(s: State, s': State, t: Tid, p: PC)
    requires Leaked(s) && WQuiet(s, s', t, p)
    ensures Leaked(s')
  {
    GroupSame(s, s', t, p);
    assert forall u :: u in s.pc ==> HoldsW(s'.pc[u]) == HoldsW(s.pc[u]);
  }

  lemma ReadStaysLeaked(s: State, t: Tid, r: ReadAt)
    requires Inv(s) && HasSems(s) && Leaked(s) && t in s.pc && s.pc[t] == Read(r) && Outside(s.pc[t])
    ensures Leaked(NextRead(s, t, r))
  {
    var s' := NextRead(s, t, r);
    assert LocalOk(s.pc[t], s.readcnt, s.writecnt);
    if r.Add? { CountStaysLeaked(s, s', t); }
    else if s' != s { QuietStaysLeaked(s, s', t, s'.pc[t]); }
  }

  lemma WriteStaysLeaked(s: State, t: Tid, w: WriteAt)
    requires HasSems(s) && Leaked(s) && t in s.pc && s.pc[t] == Write(w) && Outside(s.pc[t])
    ensures Leaked(NextWrite(s, t, w))
  {
    var s' := NextWrite(s, t, w);
    if s' != s { QuietStaysLeaked(s, s', t, s'.pc[t]); }
  }

  lemma StaysLeaked(s: State, s': State, t: Tid)
    requires Inv(s) && Leaked(s) && StepOf(s, s', t)
    ensures Leaked(s')
  {
    LeakedOutside(s, t);
    assert LocalOk(s.pc[t], s.readcnt, s.writecnt);
    match s.pc[t]
    case Read(r) => ReadStaysLeaked(s, t, r);
    case Idle => QuietStaysLeaked(s, s', t, s'.pc[t]);
    case Write(w) => WriteStaysLeaked(s, t, w);
    case Leave(_) => QuietStaysLeaked(s, s', t, s'.pc[t]);
  }

  lemma StateStaysLeaked(s: State, s': State)
    requires Step(s, s') && Inv(s) && Leaked(s)
    ensures Leaked(s')
  {
    var t :| StepOf(s, s', t);
    StaysLeaked(s, s', t);
  }

  lemma StepLeaked(tr: seq<State>, n: nat)
    requires Run(tr) && n + 1 < |tr| && Leaked(tr[n])
    ensures Leaked(tr[n + 1])
  {
    EveryRun(tr, n);
    assert StepAt(tr, n);
    StateStaysLeaked(tr[n], tr[n + 1]);
  }

  /** Once lost, `w` stays lost. */
  lemma {:induction false} LeakedFrom(tr: seq<State>, k: nat, n: nat)
    requires Run(tr) && k <= n < |tr| && Leaked(tr[k])
    ensures Leaked(tr[n])
  {
    if k < n {
      LeakedFrom(tr, k, n - 1);
      StepLeaked(tr, n - 1);
    }
  }

  lemma LeakedAfter(tr: seq<State>, k: nat, t: Tid)
    requires Run(tr) && k + 1 < |tr| && StepOf(tr[k], tr[k + 1], t) && tr[k].pc[t] == Quit(QFreeWCnt)
    ensures Leaked(tr[k + 1])
  {
    EveryRun(tr, k);
    UnlockLeaks(tr[k], tr[k + 1], t);
  }

  /**
   * Progress fails: in every run, once some thread has finished unlocking as a writer, no thread
   * is ever inside again, in either mode, however long the run.
   */
  lemma NeverInsideAgain(tr: seq<State>, k: nat, n: nat, t: Tid, u: Tid)
    requires Run(tr) && k < n < |tr|
    requires StepOf(tr[k], tr[k + 1], t) && tr[k].pc[t] == Quit(QFreeWCnt)
    ensures u in tr[n].pc ==> !ReaderInside(tr[n].pc[u]) && !WriterInside(tr[n].pc[u])
  {
    LeakedAfter(tr, k, t);
    LeakedFrom(tr, k + 1, n);
    NobodyInside(tr, n, u);
  }

  lemma NobodyInside(tr: seq<State>, n: nat, u: Tid)
    requires Run(tr) && n < |tr| && Leaked(tr[n])
    ensures u in tr[n].pc ==> !ReaderInside(tr[n].pc[u]) && !WriterInside(tr[n].pc[u])
  {
    EveryRun(tr, n);
    if u in tr[n].pc { LeakedOutside(tr[n], u); }
  }

  // Only that step loses `w`.

  lemma QuietStaysHeld(s: State, s': State, t: Tid, p: PC)
    requires !Leaked(s) && WQuiet(s, s', t, p)
    ensures !Leaked(s')
  {
    GroupSame(s, s', t, p);
    assert forall u :: u in s.pc ==> HoldsW(s'.pc[u]) == HoldsW(s.pc[u]);
  }

  /** A reader that counts itself either joins a group that holds `w` or changes nothing about it. */
  lemma CountStaysHeld(s: State, s': State, t: Tid)
    requires Inv(s) && !Leaked(s) && t in s.pc && s.pc[t] == Read(Add(s.readcnt))
    requires s' == Go(s, t, Read(First)).(readcnt := s.readcnt + 1)
    ensures !Leaked(s')
  {
    assert TokenOk(s, RCnt);
    OnlyPending(s, t);
    AfterRCnt(s, s', t);
    assert s.readcnt == |Readers(s)|;
    assert forall u :: u in s.pc ==> HoldsW(s'.pc[u]) == HoldsW(s.pc[u]);
  }

  lemma ReadStaysHeld(s: State, t: Tid, r: ReadAt)
    requires Inv(s) && HasSems(s) && !Leaked(s) && t in s.pc && s.pc[t] == Read(r)
    ensures !Leaked(NextRead(s, t, r))
  {
    var s' := NextRead(s, t, r);
    assert LocalOk(s.pc[t], s.readcnt, s.writecnt) && TokenOk(s, RCnt);
    if r.Add? {
      CountStaysHeld(s, s', t);
    } else if r.WaitW? {
      AfterRCnt(s, s', t);
    } else if s' != s {
      QuietStaysHeld(s, s', t, s'.pc[t]);
    }
  }

  lemma LeaveStaysHeld(s: State, t: Tid, l: LeaveAt)
    requires Inv(s) && HasSems(s) && !Leaked(s) && t in s.pc && s.pc[t] == Leave(l)
    ensures !Leaked(NextLeave(s, t, l))
  {
    var s' := NextLeave(s, t, l);
    assert LocalOk(s.pc[t], s.readcnt, s.writecnt) && TokenOk(s, RCnt);
    if l.LSub? {
      assert t in Readers(s);
      OnlyPending(s, t);
      AfterRCnt(s, s', t);
    } else if !l.LFreeW? && s' != s {
      QuietStaysHeld(s, s', t, s'.pc[t]);
    }
  }

  lemma DownStaysHeld(s: State, t: Tid, d: DownAt)
    requires Inv(s) && HasSems(s) && !Leaked(s) && t in s.pc && s.pc[t] == Down(d)
    ensures !Leaked(NextDown(s, t, d))
  {
    var s' := NextDown(s, t, d);
    assert LocalOk(s.pc[t], s.readcnt, s.writecnt) && TokenOk(s, RCnt);
    if d.DAdd? {
      AfterRCnt(s, s', t);
      assert s.readcnt == |Readers(s)|;
    } else if s' != s {
      QuietStaysHeld(s, s', t, s'.pc[t]);
    }
  }

  lemma WriteStaysHeld(s: State, t: Tid, w: WriteAt)
    requires HasSems(s) && !Leaked(s) && t in s.pc && s.pc[t] == Write(w)
    ensures !Leaked(NextWrite(s, t, w))
  {
    var s' := NextWrite(s, t, w);
    if w.WWaitW? && s.w > 0 {
      assert HoldsW(s'.pc[t]);
    } else if s' != s {
      QuietStaysHeld(s, s', t, s'.pc[t]);
    }
  }

  lemma QuitStaysHeld(s: State, t: Tid, q: QuitAt)
    requires HasSems(s) && !Leaked(s) && t in s.pc && s.pc[t] == Quit(q) && !q.QFreeWCnt?
    ensures !Leaked(NextQuit(s, t, q))
  {
    var s' := NextQuit(s, t, q);
    if s' != s { QuietStaysHeld(s, s', t, s'.pc[t]); }
  }

  lemma LostOnlyByUnlock(s: State, s': State, t: Tid)
    requires Inv(s) && StepOf(s, s', t) && !Leaked(s) && s.pc[t] != Quit(QFreeWCnt)
    ensures !Leaked(s')
  {
    BranchIsRight(s);
    match s.pc[t]
    case Read(r) => ReadStaysHeld(s, t, r);
    case Leave(l) => LeaveStaysHeld(s, t, l);
    case Down(d) => DownStaysHeld(s, t, d);
    case Write(w) => WriteStaysHeld(s, t, w);
    case Quit(q) => QuitStaysHeld(s, t, q);
    case _ => QuietStaysHeld(s, s', t, s'.pc[t]);
  }

  /** Some thread has finished unlocking as a writer before state `n`. */
  ghost predicate WriterUnlocked(tr: seq<State>, n: nat)
    requires n < |tr|
  {
    exists k, t :: 0 <= k < n && UnlocksAt(tr, k, t)
  }

  ghost predicate UnlocksAt(tr: seq<State>, k: int, t: Tid)
    requires 0 <= k < |tr| - 1
  {
    StepOf(tr[k], tr[k + 1], t) && tr[k].pc[t] == Quit(QFreeWCnt)
  }

  /** The exact condition: in every run `w` is lost if and only if some writer has unlocked before. */
  lemma {:induction false} LostExactly(tr: seq<State>, n: nat)
    requires Run(tr) && n < |tr|
    ensures Leaked(tr[n]) <==> WriterUnlocked(tr, n)
  {
    if WriterUnlocked(tr, n) {
      LostAfter(tr, n);
    } else if n > 0 {
      LostExactly(tr, n - 1);
      StillHeld(tr, n - 1);
    }
  }

  lemma LostAfter(tr: seq<State>, n: nat)
    requires Run(tr) && n < |tr| && WriterUnlocked(tr, n)
    ensures Leaked(tr[n])
  {
    var k, t :| 0 <= k < n && UnlocksAt(tr, k, t);
    LeakedAfter(tr, k, t);
    LeakedFrom(tr, k + 1, n);
  }

  lemma StillHeld(tr: seq<State>, n: nat)
    requires Run(tr) && n + 1 < |tr| && !Leaked(tr[n]) && !WriterUnlocked(tr, n + 1)
    ensures !Leaked(tr[n + 1])
  {
    EveryRun(tr, n);
    assert StepAt(tr, n);
    var t :| StepOf(tr[n], tr[n + 1], t);
    assert !UnlocksAt(tr, n, t);
    LostOnlyByUnlock(tr[n], tr[n + 1], t);
  }

  /** One thread alone, with the values of `r`, wcnt_mutex, `w` and writecnt. */
  function Solo(p: PC, r: int, wcnt: int, w: int, writecnt: int): State
  {
    State(map[0 := p], map[Gen := 1, R := r, RCnt := 1, WCnt := wcnt], w, 0, writecnt)
  }

  /** The case does arise: a single thread that locks for writing and unlocks. */
  function OnceAt(i: int): State
  {
    match i
    case 0 => Solo(Idle, 1, 1, 1, 0)
    case 1 => Solo(Write(WWaitWCnt), 1, 1, 1, 0)
    case 2 => Solo(Write(WCount), 1, 0, 1, 0)
    case 3 => Solo(Write(WAdd(0)), 1, 0, 1, 0)
    case 4 => Solo(Write(WWaitR), 1, 0, 1, 1)
    case 5 => Solo(Write(WWaitW), 0, 0, 1, 1)
    case 6 => Solo(Write(WFreeWCnt), 0, 0, 0, 1)
    case 7 => Solo(Writing, 0, 1, 0, 1)
    case 8 => Solo(Unlock(false), 0, 1, 0, 1)
    case 9 => Solo(Quit(QWaitWCnt), 0, 1, 0, 1)
    case 10 => Solo(Quit(QUncount), 0, 0, 0, 1)
    case 11 => Solo(Quit(QSub(1)), 0, 0, 0, 1)
    case 12 => Solo(Quit(QLast), 0, 0, 0, 0)
    case 13 => Solo(Quit(QFreeR), 0, 0, 0, 0)
    case 14 => Solo(Quit(QFreeWCnt), 1, 0, 0, 0)
    case _ => Solo(Idle, 1, 1, 0, 0)
  }

  function WriteOnce(): seq<State> { seq(16, i => OnceAt(i)) }

  lemma SoloMoves(p: PC, q: PC, r: int, wcnt: int, w: int, writecnt: int)
    ensures var s := Solo(p, r, wcnt, w, writecnt);
      && Go(s, 0, q) == Solo(q, r, wcnt, w, writecnt)
      && (w > 0 ==> AcquireW(s, 0, q) == Solo(q, r, wcnt, w - 1, writecnt))
  {
    assert Solo(p, r, wcnt, w, writecnt).pc[0 := q] == map[0 := q];
  }

  lemma SoloR(p: PC, q: PC, r: int, wcnt: int, w: int, writecnt: int)
    ensures var s := Solo(p, r, wcnt, w, writecnt);
      && (r > 0 ==> Acquire(s, 0, R, q) == Solo(q, r - 1, wcnt, w, writecnt))
      && Release(s, 0, R, q) == Solo(q, r + 1, wcnt, w, writecnt)
  {
    var s := Solo(p, r, wcnt, w, writecnt);
    assert s.pc[0 := q] == map[0 := q];
    assert s.sem[R := r - 1] == Solo(q, r - 1, wcnt, w, writecnt).sem;
    assert s.sem[R := r + 1] == Solo(q, r + 1, wcnt, w, writecnt).sem;
  }

  lemma SoloWCnt(p: PC, q: PC, r: int, wcnt: int, w: int, writecnt: int)
    ensures var s := Solo(p, r, wcnt, w, writecnt);
      && (wcnt > 0 ==> Acquire(s, 0, WCnt, q) == Solo(q, r, wcnt - 1, w, writecnt))
      && Release(s, 0, WCnt, q) == Solo(q, r, wcnt + 1, w, writecnt)
  {
    var s := Solo(p, r, wcnt, w, writecnt);
    assert s.pc[0 := q] == map[0 := q];
    assert s.sem[WCnt := wcnt - 1] == Solo(q, r, wcnt - 1, w, writecnt).sem;
    assert s.sem[WCnt := wcnt + 1] == Solo(q, r, wcnt + 1, w, writecnt).sem;
  }

  lemma SoloStep(s: State, s': State)
    requires StepOf(s, s', 0)
    ensures Step(s, s')
  {
  }

  lemma SoloWrite(s: State, s': State, w: WriteAt)
    requires HasSems(s) && 0 in s.pc && s.pc[0] == Write(w) && s' == NextWrite(s, 0, w)
    ensures Step(s, s')
  {
    SoloStep(s, s');
  }

  lemma SoloQuit(s: State, s': State, q: QuitAt)
    requires HasSems(s) && 0 in s.pc && s.pc[0] == Quit(q) && s' == NextQuit(s, 0, q)
    ensures Step(s, s')
  {
    SoloStep(s, s');
  }

  lemma OnceAsks()
    ensures Step(OnceAt(0), OnceAt(1))
    ensures Step(OnceAt(1), OnceAt(2))
  {
    SoloMoves(Idle, Write(WWaitWCnt), 1, 1, 1, 0);
    SoloStep(OnceAt(0), OnceAt(1));
    SoloWCnt(Write(WWaitWCnt), Write(WCount), 1, 1, 1, 0);
    SoloWrite(OnceAt(1), OnceAt(2), WWaitWCnt);
  }

  lemma OnceCounts()
    ensures Step(OnceAt(2), OnceAt(3))
    ensures Step(OnceAt(3), OnceAt(4))
  {
    SoloMoves(Write(WCount), Write(WAdd(0)), 1, 0, 1, 0);
    SoloWrite(OnceAt(2), OnceAt(3), WCount);
    SoloMoves(Write(WAdd(0)), Write(WWaitR), 1, 0, 1, 0);
    SoloWrite(OnceAt(3), OnceAt(4), WAdd(0));
  }

  lemma OnceEnters()
    ensures Step(OnceAt(4), OnceAt(5))
    ensures Step(OnceAt(5), OnceAt(6))
  {
    SoloR(Write(WWaitR), Write(WWaitW), 1, 0, 1, 1);
    SoloWrite(OnceAt(4), OnceAt(5), WWaitR);
    SoloMoves(Write(WWaitW), Write(WFreeWCnt), 0, 0, 1, 1);
    SoloWrite(OnceAt(5), OnceAt(6), WWaitW);
  }

  lemma OnceTurns()
    ensures Step(OnceAt(6), OnceAt(7))
    ensures Step(OnceAt(7), OnceAt(8))
  {
    SoloWCnt(Write(WFreeWCnt), Writing, 0, 0, 0, 1);
    SoloWrite(OnceAt(6), OnceAt(7), WFreeWCnt);
    SoloMoves(Writing, Unlock(false), 0, 1, 0, 1);
    SoloStep(OnceAt(7), OnceAt(8));
  }

  lemma OnceLeaves()
    ensures Step(OnceAt(8), OnceAt(9))
    ensures Step(OnceAt(9), OnceAt(10))
  {
    SoloMoves(Unlock(false), Quit(QWaitWCnt), 0, 1, 0, 1);
    SoloStep(OnceAt(8), OnceAt(9));
    SoloWCnt(Quit(QWaitWCnt), Quit(QUncount), 0, 1, 0, 1);
    SoloQuit(OnceAt(9), OnceAt(10), QWaitWCnt);
  }

  lemma OnceUncounts()
    ensures Step(OnceAt(10), OnceAt(11))
    ensures Step(OnceAt(11), OnceAt(12))
  {
    SoloMoves(Quit(QUncount), Quit(QSub(1)), 0, 0, 0, 1);
    SoloQuit(OnceAt(10), OnceAt(11), QUncount);
    SoloMoves(Quit(QSub(1)), Quit(QLast), 0, 0, 0, 1);
    SoloQuit(OnceAt(11), OnceAt(12), QSub(1));
  }

  lemma OnceTests()
    ensures Step(OnceAt(12), OnceAt(13))
  {
    SoloMoves(Quit(QLast), Quit(QFreeR), 0, 0, 0, 0);
    SoloQuit(OnceAt(12), OnceAt(13), QLast);
  }

  lemma OnceGivesR()
    ensures Step(OnceAt(13), OnceAt(14))
  {
    SoloR(Quit(QFreeR), Quit(QFreeWCnt), 0, 0, 0, 0);
    SoloQuit(OnceAt(13), OnceAt(14), QFreeR);
  }

  lemma OnceLast()
    ensures StepOf(OnceAt(14), OnceAt(15), 0) && Step(OnceAt(14), OnceAt(15))
  {
    SoloWCnt(Quit(QFreeWCnt), Idle, 1, 0, 0, 0);
    SoloQuit(OnceAt(14), OnceAt(15), QFreeWCnt);
  }

  lemma OnceRuns(i: nat)
    requires i < 15
    ensures Step(OnceAt(i), OnceAt(i + 1))
  {
    if i < 2 { OnceAsks(); }
    else if i < 4 { OnceCounts(); }
    else if i < 6 { OnceEnters(); }
    else if i < 8 { OnceTurns(); }
    else if i < 10 { OnceLeaves(); }
    else if i < 12 { OnceUncounts(); }
    else if i < 13 { OnceTests(); }
    else if i < 14 { OnceGivesR(); }
    else { OnceLast(); }
  }

  lemma WriteOnceIsStuck()
    ensures Run(WriteOnce()) && StepOf(WriteOnce()[14], WriteOnce()[15], 0)
    ensures WriteOnce()[14].pc[0] == Quit(QFreeWCnt)
  {
    OnceLast();
    forall i | 0 <= i < 15 ensures StepAt(WriteOnce(), i) {
      OnceRuns(i);
    }
  }
}
