/** Threads never wait for each other's locks in a circle: an acquire that would close one spins
    in the donation loop instead. */
module Deadlock {

  import opened Lists
  import opened Threads
  import opened Synch
  import opened Invariant
  import opened Donation
  import opened KernelSteps
  import opened StepsKeep
  import opened SchedulerRuns

  /** The holder of the lock that a thread waits for. */
  function WaitsFor(s: State, t: Tid): Option<Tid> {
    if t in s.threads && s.threads[t].waitingLock.Some? && s.threads[t].waitingLock.value in s.locks
    then s.locks[s.threads[t].waitingLock.value].holder else None
  }

  /** Every thread of the set waits for another of them. */
  ghost predicate Circle(s: State, c: set<Tid>) {
    c != {} && forall t :: t in c ==> WaitsFor(s, t).Some? && WaitsFor(s, t).value in c
  }

  ghost predicate NoCircle(s: State) {
    forall c: set<Tid> :: !Circle(s, c)
  }

  // ----- Changes to who waits for whom -----

  /** Nobody waits for a thread that it did not wait for before. */
  ghost predicate FewerWaits(s: State, n: State) {
    forall t :: WaitsFor(n, t).Some? ==> WaitsFor(n, t) == WaitsFor(s, t)
  }

  lemma FewerTrans(a: State, b: State, c: State)
    requires FewerWaits(a, b) && FewerWaits(b, c)
    ensures FewerWaits(a, c)
  {
    hide WaitsFor;
  }

  lemma FewerKeeps(s: State, n: State)
    requires NoCircle(s) && FewerWaits(s, n)
    ensures NoCircle(n)
  {
    hide WaitsFor;
    forall c: set<Tid> ensures !Circle(n, c) {
      assert !Circle(s, c);
    }
  }

  /** A new holder that waits for nobody closes no circle. */
  lemma NewHolderKeeps(s: State, n: State, u: Tid)
    requires NoCircle(s) && WaitsFor(n, u).None?
    requires forall t :: WaitsFor(n, t).Some? ==> WaitsFor(n, t) == WaitsFor(s, t) || WaitsFor(n, t) == Some(u)
    ensures NoCircle(n)
  {
    hide WaitsFor;
    forall c: set<Tid> ensures !Circle(n, c) {
      assert !Circle(s, c);
    }
  }

  /** No holder on a chain of threads below u is in a circle that only u could have closed. */
  lemma {:induction false} ChainOutside(s: State, n: State, at: Option<SemaId>, p: int, seen: set<Tid>, c: set<Tid>,
                                        u: Tid)
    requires ChainBelow(s, at, p, seen) && !Finished(Walk(s, at)) && Circle(n, c)
    requires u in s.threads && s.threads[u].priority >= p
    requires forall t :: t != u && WaitsFor(n, t).Some? ==> WaitsFor(n, t) == WaitsFor(s, t)
    ensures s.locks[at.value].holder.value !in c
    decreases s.threads.Keys - seen
  {
    var h := s.locks[at.value].holder.value;
    if h in c {
      var next := s.threads[h].waitingLock;
      assert WaitsFor(n, h) == WaitsFor(s, h);
      assert !Finished(Walk(s, next)) && s.locks[next.value].holder.value in c;
      ChainOutside(s, n, next, p, seen + {h}, c, u);
    }
  }

  /** A thread that starts to wait for lock x after its donation walk ended closes no circle. */
  lemma NewWaiterKeeps(s: State, n: State, x: SemaId, u: Tid)
    requires NoCircle(s) && u in s.threads && ChainBelow(s, Some(x), s.threads[u].priority, {})
    requires forall t :: t != u && WaitsFor(n, t).Some? ==> WaitsFor(n, t) == WaitsFor(s, t)
    requires WaitsFor(n, u).Some? ==> x in s.locks && WaitsFor(n, u) == s.locks[x].holder
    ensures NoCircle(n)
  {
    hide WaitsFor, ChainBelow;
    forall c: set<Tid> ensures !Circle(n, c) {
      assert !Circle(s, c);
      if Circle(n, c) && u in c {
        ChainOutside(s, n, Some(x), s.threads[u].priority, {}, c, u);
      }
    }
  }

  // ----- The operations -----

  /** The threads of `n` wait for the locks they waited for before, whose holders are the same. */
  ghost predicate SameWaits(s: State, n: State) {
    && (forall t :: t in n.threads && n.threads[t].waitingLock.Some? ==>
          t in s.threads && n.threads[t].waitingLock == s.threads[t].waitingLock)
    && n.locks.Keys == s.locks.Keys
    && (forall x :: x in s.locks && n.locks[x].holder.Some? ==> n.locks[x].holder == s.locks[x].holder)
  }

  lemma SameIsFewer(s: State, n: State)
    requires SameWaits(s, n)
    ensures FewerWaits(s, n)
  {
  }

  lemma ScheduleWaits(w: State)
    requires Linked(w)
    ensures SameWaits(w, Schedule(w))
  {
    hide WakeSleepers, RemoveAt, FirstMax, SwitchTo;
    WakeSleepersLinks(w);
    var v := WakeSleepers(w);
    assert v.locks == w.locks && v.cur == w.cur && v.idle == w.idle by { SweptQueue(w); }
    var (r, next) := TakeNext(v);
    SwitchWaits(r, next);
  }

  lemma SweptQueue(w: State)
    ensures var v := WakeSleepers(w); v.locks == w.locks && v.cur == w.cur && v.idle == w.idle
  {
  }

  lemma SwitchWaits(r: State, next: Tid)
    requires r.cur in r.threads && next in r.threads
    ensures SameWaits(r, SwitchTo(r, next))
  {
  }

  /** A step that ends with schedule(). */
  lemma ThenSchedules(s: State, w: State)
    requires Linked(w) && SameWaits(s, w)
    ensures FewerWaits(s, Schedule(w))
  {
    hide Schedule, WaitsFor;
    ScheduleWaits(w);
    SameIsFewer(s, w);
    SameIsFewer(w, Schedule(w));
    FewerTrans(s, w, Schedule(w));
  }

  lemma ThenYields(s: State, w: State)
    requires Linked(w) && SameWaits(s, w)
    ensures FewerWaits(s, YieldCpu(w))
  {
    hide Schedule, WaitsFor, FewerWaits;
    ThenSchedules(s, Requeue(w));
  }

  lemma UpWaits(s: State, v: State, x: SemaId)
    requires WellFormed(v) && x in v.semas && SameWaits(s, v)
    ensures FewerWaits(s, UpFrom(v, x))
  {
    hide WakeAndRaise, YieldCpu, WaitsFor, FewerWaits;
    WakeShape(v, x);
    WakeLinked(v, x);
    ThenYields(s, WakeAndRaise(v, x));
  }

  lemma WakeLinked(v: State, x: SemaId)
    requires WellFormed(v) && x in v.semas
    ensures Linked(WakeAndRaise(v, x))
  {
    hide WakeAndRaise;
    WakeShape(v, x);
  }

  lemma JoinLinked(v: State, x: SemaId)
    requires WellFormed(v) && x in v.semas
    ensures Linked(JoinWaiters(v, x))
  {
    hide JoinWaiters;
    JoinShape(v, x);
  }

  /** A down on a semaphore that is no lock's. */
  lemma PlainDownWaits(s: State, x: SemaId)
    requires WellFormed(s) && x in s.semas && x !in s.locks
    ensures FewerWaits(s, DownFrom(s, x))
  {
    hide Schedule, WaitsFor, FewerWaits;
    if s.semas[x].value == 0 {
      JoinLinked(s, x);
      ThenSchedules(s, JoinWaiters(s, x));
    } else {
      SameIsFewer(s, TakeDown(s, x));
    }
  }

  /** The state in which the caller of a down on lock x has to wait. */
  lemma LockWaits(v: State, x: SemaId)
    requires WellFormed(v) && x in v.locks && v.semas[x].value == 0
    ensures var n := DownFrom(v, x);
            && (forall t :: t != v.cur && WaitsFor(n, t).Some? ==> WaitsFor(n, t) == WaitsFor(v, t))
            && (WaitsFor(n, v.cur).Some? ==> WaitsFor(n, v.cur) == v.locks[x].holder)
  {
    hide Schedule, MaxPriority;
    JoinLinked(v, x);
    ScheduleWaits(JoinWaiters(v, x));
  }

  /** The caller gets lock x. */
  lemma LockTaken(v: State, x: SemaId)
    requires WellFormed(v) && x in v.locks && v.semas[x].value > 0 && v.threads[v.cur].waitingLock.None?
    ensures var n := DownFrom(v, x);
            && WaitsFor(n, v.cur).None?
            && (forall t :: WaitsFor(n, t).Some? ==> WaitsFor(n, t) == WaitsFor(v, t) || WaitsFor(n, t) == Some(v.cur))
  {
  }

  lemma AcquireKeeps(s: State, x: SemaId)
    requires Inv(s) && WellFormed(s) && Legal(s, LockAcquire(x)) && NoCircle(s)
    ensures NoCircle(AcquireFrom(s, x))
  {
    hide Inv, DownFrom, ChainBelow, Chain, DonationWalk, NoCircle, WaitsFor, LockInv;
    var p := s.threads[s.cur].priority;
    var v := AfterDonation(s, x);
    RaisedWellFormed(s, v, Chain(s, Some(x), p, {}), p);
    RaisedWaits(s, v, Chain(s, Some(x), p, {}), p);
    CallerFree(s);
    if v.semas[x].value == 0 {
      LockWaits(v, x);
      NewWaiterKeeps(s, DownFrom(v, x), x, s.cur);
    } else {
      LockTaken(v, x);
      NewHolderKeeps(s, DownFrom(v, x), s.cur);
    }
  }

  lemma RaisedWaits(s: State, v: State, raised: set<Tid>, p: int)
    requires RaisedTo(s, v, raised, p)
    ensures forall t :: WaitsFor(v, t) == WaitsFor(s, t)
    ensures s.cur in s.threads ==> v.threads[s.cur].waitingLock == s.threads[s.cur].waitingLock
  {
  }

  /** A thread in client code waits for no lock. */
  lemma CallerFree(s: State)
    requires Inv(s) && !s.threads[s.cur].pc.InDown?
    ensures s.threads[s.cur].waitingLock.None?
  {
    hide Links, LockInv, NoLostWakeup, PriorityInv, DyingInv, MaxWaiterInv, SleepBound, StrictPriority;
  }

  lemma ResumeKeeps(s: State)
    requires Inv(s) && WellFormed(s) && Legal(s, Resume) && NoCircle(s)
    ensures NoCircle(ResumeFrom(s))
  {
    hide Inv, DownFrom, NoCircle, WaitsFor, FewerWaits;
    var x := s.threads[s.cur].pc.sema;
    var v := LeaveBlock(s, x);
    LeaveBlockWellFormed(s, x);
    LeaveWaits(s, x);
    if x !in s.locks {
      PlainDownWaits(v, x);
      FewerTrans(s, v, DownFrom(v, x));
      FewerKeeps(s, DownFrom(v, x));
    } else if v.semas[x].value == 0 {
      LockWaits(v, x);
      StillWaits(s, v, DownFrom(v, x));
      FewerKeeps(s, DownFrom(v, x));
    } else {
      LockTaken(v, x);
      FewerKeeps(s, v);
      NewHolderKeeps(v, DownFrom(v, x), s.cur);
    }
  }

  /** Leaving thread_block() the caller stops waiting; before that it waited for lock x. */
  lemma LeaveWaits(s: State, x: SemaId)
    requires Inv(s) && s.threads[s.cur].pc == InDown(x)
    ensures FewerWaits(s, LeaveBlock(s, x))
    ensures x in s.locks ==>
            LeaveBlock(s, x).threads[s.cur].waitingLock.None? && WaitsFor(s, s.cur) == s.locks[x].holder
  {
    hide Links, LockInv, NoLostWakeup, PriorityInv, DyingInv, MaxWaiterInv, SleepBound, StrictPriority;
  }

  lemma StillWaits(s: State, v: State, n: State)
    requires FewerWaits(s, v) && v.cur == s.cur
    requires forall t :: t != s.cur && WaitsFor(n, t).Some? ==> WaitsFor(n, t) == WaitsFor(v, t)
    requires WaitsFor(n, s.cur).Some? ==> WaitsFor(n, s.cur) == WaitsFor(s, s.cur)
    ensures FewerWaits(s, n)
  {
    hide WaitsFor;
  }

  lemma ReleaseWaits(s: State, x: SemaId)
    requires WellFormed(s) && x in s.locks
    ensures FewerWaits(s, ReleaseFrom(s, x))
  {
    hide UpFrom, DropLock, FewerWaits, SameWaits;
    DropLockWellFormed(s, x);
    DropLockSame(s, x);
    UpWaits(s, DropLock(s, x), x);
  }

  lemma DropLockSame(s: State, x: SemaId)
    requires WellFormed(s) && x in s.locks
    ensures SameWaits(s, DropLock(s, x)) && DropLock(s, x).semas == s.semas
  {
    hide DropLock;
    DropLockShape(s, x);
  }

  /** Changing one thread, but not what it waits for, and its place in the lists. */
  lemma OneThread(s: State, w: State, u: Tid, th: Thread)
    requires Linked(s) && w == s.(threads := s.threads[u := th], ready := w.ready, sleeping := w.sleeping)
    requires th.waitingLock == if u in s.threads then s.threads[u].waitingLock else None
    requires (forall t :: t in w.ready ==> t in s.ready || t == u)
             && (forall t :: t in w.sleeping ==> t in s.sleeping || t == u)
    ensures Linked(w) && SameWaits(s, w)
  {
  }

  lemma ThreadOpWaits(s: State, op: Op)
    requires WellFormed(s) && Legal(s, op) && !IsSynchOp(op)
    ensures FewerWaits(s, Step(s, op))
  {
    hide WellFormed, Linked, Schedule, YieldCpu, WaitsFor, FewerWaits, SameWaits, ChainBelow;
    WellFormedLinked(s);
    match op
    case SleepUntil(end) =>
      var w := PutToSleep(s, end);
      OneThread(s, w, s.cur, w.threads[s.cur]);
      ThenSchedules(s, w);
    case SetPriority(p) =>
      var w := WithPriority(s, p);
      OneThread(s, w, s.cur, w.threads[s.cur]);
      ThenYields(s, w);
    case InitThread(t, p) =>
      OneThread(s, Step(s, op), t, FreshThread(p));
      SameIsFewer(s, Step(s, op));
    case StartThread(t) =>
      var w := MakeReady(s, t);
      OneThread(s, w, t, w.threads[t]);
      ThenYields(s, w);
    case Yield =>
      SameRefl(s);
      ThenYields(s, s);
    case Exit => LeaveWaitsSame(s, Dying);
    case IdleBlock => LeaveWaitsSame(s, Blocked);
    case TimerTick => TickWaits(s);
  }

  lemma SameRefl(s: State)
    ensures SameWaits(s, s)
  {
  }

  lemma LeaveWaitsSame(s: State, status: Status)
    requires Linked(s)
    ensures FewerWaits(s, LeaveCpu(s, status))
  {
    hide Schedule, FewerWaits, SameWaits;
    var w := SetStatus(s, status);
    OneThread(s, w, s.cur, w.threads[s.cur]);
    ThenSchedules(s, w);
  }

  lemma TickWaits(s: State)
    requires Linked(s)
    ensures FewerWaits(s, Tick(s))
  {
    hide YieldCpu, WaitsFor, FewerWaits;
    var ticked := s.(ticks := s.ticks + 1, slice := s.slice + 1);
    SameIsFewer(s, ticked);
    if ticked.slice >= TIME_SLICE {
      ThenYields(s, ticked);
    }
  }

  /** No operation closes a circle. */
  lemma StepKeepsNoCircle(s: State, op: Op)
    requires Inv(s) && WellFormed(s) && Legal(s, op) && NoCircle(s)
    ensures NoCircle(Step(s, op))
  {
    hide Inv, WellFormed, NoCircle, FewerWaits, DownFrom, UpFrom, AcquireFrom, ReleaseFrom, ResumeFrom;
    if !IsSynchOp(op) {
      ThreadOpWaits(s, op);
      FewerKeeps(s, Step(s, op));
    } else {
      SynchOpKeeps(s, op);
    }
  }

  lemma SynchOpKeeps(s: State, op: Op)
    requires Inv(s) && WellFormed(s) && Legal(s, op) && NoCircle(s) && IsSynchOp(op)
    ensures NoCircle(Step(s, op))
  {
    hide Inv, WellFormed, NoCircle, FewerWaits, DownFrom, UpFrom, AcquireFrom, ReleaseFrom, ResumeFrom, WaitsFor;
    hide ChainBelow;
    match op
    case SemaDown(x) =>
      PlainDownWaits(s, x);
      FewerKeeps(s, Step(s, op));
    case SemaTryDown(x) =>
      TryWaits(s, x);
      FewerKeeps(s, Step(s, op));
    case SemaUp(x) =>
      UpWaits(s, s, x);
      FewerKeeps(s, Step(s, op));
    case LockAcquire(x) => AcquireKeeps(s, x);
    case LockRelease(x) =>
      ReleaseWaits(s, x);
      FewerKeeps(s, Step(s, op));
    case Resume => ResumeKeeps(s);
  }

  lemma TryWaits(s: State, x: SemaId)
    requires WellFormed(s) && Legal(s, SemaTryDown(x))
    ensures FewerWaits(s, Step(s, SemaTryDown(x)))
  {
    hide FewerWaits, WaitsFor;
    SameIsFewer(s, Step(s, SemaTryDown(x)));
  }

  // ----- Runs -----

  /** In no reachable state do threads wait for each other in a circle. */
  lemma NoCircleAlways(r: Run, i: nat, c: set<Tid>)
    requires IsRun(r) && i < |r.states|
    ensures !Circle(r.states[i], c)
  {
    hide Inv, Step, Legal, WellFormed;
    NoCircleIn(r, i);
  }

  lemma {:induction false} NoCircleIn(r: Run, i: nat)
    requires IsRun(r) && i < |r.states|
    ensures NoCircle(r.states[i])
  {
    hide Inv, Step, Legal, WellFormed, NoCircle;
    if i == 0 {
      var values, lockIds :| r.states[0] == Boot(values, lockIds);
      BootHasNoCircle(values, lockIds);
    } else {
      NoCircleIn(r, i - 1);
      InvAlways(r, i - 1);
      StepKeepsNoCircle(r.states[i - 1], r.ops[i - 1]);
    }
  }

  lemma BootHasNoCircle(values: map<SemaId, nat>, lockIds: set<SemaId>)
    ensures NoCircle(Boot(values, lockIds))
  {
    var s := Boot(values, lockIds);
    forall c: set<Tid> ensures !Circle(s, c) {
      if c != {} {
        var t :| t in c;
        assert WaitsFor(s, t).None?;
      }
    }
  }

  /** Following holder and waiting_lock from `at` ends. */
  predicate ChainEnds(s: State, at: Option<SemaId>, seen: set<Tid>)
    decreases s.threads.Keys - seen
  {
    Finished(Walk(s, at)) ||
    (var h := s.locks[at.value].holder.value;
     h in s.threads && h !in seen && ChainEnds(s, s.threads[h].waitingLock, seen + {h}))
  }

  /** The holders met on the way. */
  function HoldersOn(s: State, at: Option<SemaId>, seen: set<Tid>): set<Tid>
    requires ChainEnds(s, at, seen)
    decreases s.threads.Keys - seen
  {
    if Finished(Walk(s, at)) then {}
    else
      var h := s.locks[at.value].holder.value;
      {h} + HoldersOn(s, s.threads[h].waitingLock, seen + {h})
  }

  /** Threads met so far wait for each other or for the next holder, so a holder met twice
      closes a circle. */
  lemma {:induction false} EndsWithoutCircle(s: State, at: Option<SemaId>, seen: set<Tid>)
    requires NoCircle(s) && HoldersExist(s)
    requires !Finished(Walk(s, at)) ==>
               forall t :: t in seen ==>
                 WaitsFor(s, t).Some? && (WaitsFor(s, t).value in seen || WaitsFor(s, t) == s.locks[at.value].holder)
    ensures ChainEnds(s, at, seen)
    decreases s.threads.Keys - seen
  {
    if !Finished(Walk(s, at)) {
      var h := s.locks[at.value].holder.value;
      if h in seen {
        assert Circle(s, seen);
        assert false;
      } else {
        EndsWithoutCircle(s, s.threads[h].waitingLock, seen + {h});
      }
    }
  }

  lemma {:induction false} BelowIff(s: State, at: Option<SemaId>, p: int, seen: set<Tid>)
    requires ChainEnds(s, at, seen)
    ensures ChainBelow(s, at, p, seen) <==>
            forall t :: t in HoldersOn(s, at, seen) ==> t in s.threads && s.threads[t].priority < p
    decreases s.threads.Keys - seen
  {
    if !Finished(Walk(s, at)) {
      var h := s.locks[at.value].holder.value;
      BelowIff(s, s.threads[h].waitingLock, p, seen + {h});
    }
  }

  /** In a reachable state the donation loop of lock_acquire() on any lock ends if and only if
      every holder on the chain, which always ends, is below the caller. */
  lemma AcquireReturnsIff(r: Run, i: nat, x: SemaId)
    requires IsRun(r) && i < |r.states|
    ensures var s := r.states[i];
            && s.cur in s.threads && ChainEnds(s, Some(x), {})
            && ((exists n: nat :: Finished(Iterate(Walk(s, Some(x)), s.threads[s.cur].priority, n))) <==>
                forall t :: t in HoldersOn(s, Some(x), {}) ==>
                    t in s.threads && s.threads[t].priority < s.threads[s.cur].priority)
  {
    hide Inv, IsRun, NoCircle, ChainBelow, ChainEnds, HoldersOn;
    var s := r.states[i];
    InvAlways(r, i);
    RunningPc(s);
    NoCircleIn(r, i);
    EndsWithoutCircle(s, Some(x), {});
    BelowIff(s, Some(x), s.threads[s.cur].priority, {});
    DonationTerminatesIff(s, x, s.threads[s.cur].priority);
  }
}
