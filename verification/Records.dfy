/** What a lock records about its waiters: max_waiter_priority is the largest of their priorities,
    and which acquires of other locks make it wrong. */
module Records {

  import opened Lists
  import opened Threads
  import opened Synch
  import opened Invariant
  import opened Donation
  import opened KernelSteps
  import opened SchedulerRuns

  /** The lock records the largest priority of its waiters, and -1 when nobody waits. */
  ghost predicate Recorded(s: State, x: SemaId)
    requires x in s.locks && x in s.semas
  {
    && (s.semas[x].waiters == [] ==> s.locks[x].maxWaiterPriority == -1)
    && (s.semas[x].waiters != [] ==>
          exists t :: t in s.semas[x].waiters && t in s.threads
            && s.threads[t].priority == s.locks[x].maxWaiterPriority)
    && (forall t :: t in s.semas[x].waiters && t in s.threads ==> s.threads[t].priority <= s.locks[x].maxWaiterPriority)
  }

  /** The lock, its waiters and their priorities are the same. */
  ghost predicate SameRecord(s: State, n: State, x: SemaId)
    requires x in s.locks && x in s.semas
  {
    && x in n.locks && x in n.semas
    && n.locks[x].maxWaiterPriority == s.locks[x].maxWaiterPriority
    && n.semas[x].waiters == s.semas[x].waiters
    && (forall t :: t in s.semas[x].waiters ==>
          t in s.threads && t in n.threads && n.threads[t].priority == s.threads[t].priority)
  }

  lemma SameRecorded(s: State, n: State, x: SemaId)
    requires x in s.locks && x in s.semas && SameRecord(s, n, x)
    ensures Recorded(n, x) <==> Recorded(s, x)
  {
  }

  lemma SameTrans(a: State, b: State, c: State, x: SemaId)
    requires x in a.locks && x in a.semas && SameRecord(a, b, x) && SameRecord(b, c, x)
    ensures SameRecord(a, c, x)
  {
  }

  // ----- schedule() -----

  /** The waiters of a lock are known, and the caller is none of them if it is dying. */
  ghost predicate WaitersStay(w: State, x: SemaId) {
    && x in w.locks && x in w.semas
    && (forall t :: t in w.semas[x].waiters ==> t in w.threads)
    && (w.cur in w.threads && w.threads[w.cur].status == Dying ==> w.cur !in w.semas[x].waiters)
  }

  lemma ScheduleRecord(w: State, x: SemaId)
    requires Linked(w) && WaitersStay(w, x)
    ensures SameRecord(w, Schedule(w), x)
  {
    hide WakeSleepers, RemoveAt, FirstMax, SwitchTo, SameRecord, DueIn, NotDueIn;
    WakeSleepersLinks(w);
    var v := WakeSleepers(w);
    SweepRecord(w, x);
    var (r, next) := TakeNext(v);
    SwitchRecord(r, next, x);
    SameReady(v, r, x);
    SameTrans(w, v, r, x);
    SameTrans(w, r, SwitchTo(r, next), x);
  }

  lemma SweepRecord(w: State, x: SemaId)
    requires Linked(w) && WaitersStay(w, x)
    ensures var v := WakeSleepers(w);
            && SameRecord(w, v, x) && WaitersStay(v, x)
            && v.cur == w.cur && v.idle == w.idle && v.locks == w.locks && v.semas == w.semas
  {
    WakeSleepersLinks(w);
  }

  lemma SameReady(v: State, r: State, x: SemaId)
    requires WaitersStay(v, x) && r == v.(ready := r.ready)
    ensures SameRecord(v, r, x)
  {
  }

  lemma SwitchRecord(r: State, next: Tid, x: SemaId)
    requires r.cur in r.threads && next in r.threads && WaitersStay(r, x)
    ensures SameRecord(r, SwitchTo(r, next), x)
  {
  }

  lemma YieldRecord(w: State, x: SemaId)
    requires Linked(w) && WaitersStay(w, x)
    ensures SameRecord(w, YieldCpu(w), x)
  {
    hide Schedule;
    ScheduleRecord(Requeue(w), x);
  }

  // ----- sema_down_internal() and sema_up_internal() -----

  /** A new waiter: the lock records the largest priority of all of them. */
  lemma JoinRecords(v: State, x: SemaId)
    requires WellFormed(v) && x in v.locks && forall t :: t in v.threads ==> v.threads[t].priority >= PRI_MIN
    ensures Recorded(JoinWaiters(v, x), x) && WaitersStay(JoinWaiters(v, x), x)
  {
    hide MaxPriority;
    var n := JoinWaiters(v, x);
    assert v.cur in n.semas[x].waiters;
  }

  lemma JoinOthers(v: State, x: SemaId, y: SemaId)
    requires WellFormed(v) && x in v.semas && y in v.locks && y != x
    ensures SameRecord(v, JoinWaiters(v, x), y) && WaitersStay(JoinWaiters(v, x), y)
  {
    JoinElsewhere(v, x, y);
    hide JoinWaiters, WellFormed;
  }

  lemma JoinElsewhere(v: State, x: SemaId, y: SemaId)
    requires WellFormed(v) && x in v.semas && y in v.locks && y != x
    ensures var n := JoinWaiters(v, x);
            && y in n.locks && n.locks[y] == v.locks[y] && y in v.semas && y in n.semas && n.semas[y] == v.semas[y]
            && n.cur == v.cur && n.threads.Keys == v.threads.Keys && n.threads[n.cur].status == Blocked
            && (forall t :: t in v.semas[y].waiters ==>
                t in v.threads && n.threads[t].priority == v.threads[t].priority)
  {
    JoinShape(v, x);
    hide MaxPriority;
  }

  /** A wake-up: the lock records the largest priority of those who still wait. */
  lemma WakeRecords(v: State, x: SemaId)
    requires WellFormed(v) && x in v.locks && v.semas[x].waiters != []
    requires forall t :: t in v.threads ==> v.threads[t].priority >= PRI_MIN
    ensures Recorded(WakeAndRaise(v, x), x)
    ensures forall t :: t in WakeAndRaise(v, x).semas[x].waiters ==> t in v.threads
  {
    hide MaxPriority, FirstMax;
    var n := WakeAndRaise(v, x);
    var k := FirstMax(v.threads, v.semas[x].waiters);
    var rest := RemoveAt(v.semas[x].waiters, k);
    assert forall t :: t in rest ==> t in v.semas[x].waiters;
    if rest != [] {
      assert rest[0] in rest;
    }
  }

  /** An up changes nothing at other locks, and at its own lock nothing when nobody waits. */
  lemma WakeOthers(v: State, x: SemaId, y: SemaId)
    requires WellFormed(v) && x in v.semas && y in v.locks && (y == x ==> v.semas[x].waiters == [])
    ensures SameRecord(v, WakeAndRaise(v, x), y)
  {
    hide WakeAndRaise;
    WakeShape(v, x);
  }

  /** A step that ends with schedule(), or with thread_yield(). */
  lemma ThenSchedules(s: State, w: State, x: SemaId)
    requires Linked(w) && x in s.locks && x in s.semas && SameRecord(s, w, x) && WaitersStay(w, x)
    ensures SameRecord(s, Schedule(w), x) && SameRecord(s, YieldCpu(w), x)
  {
    hide Schedule, YieldCpu, SameRecord, WaitersStay;
    ScheduleRecord(w, x);
    YieldRecord(w, x);
    SameTrans(s, w, Schedule(w), x);
    SameTrans(s, w, YieldCpu(w), x);
  }

  lemma ThenScheduled(w: State, x: SemaId)
    requires Linked(w) && WaitersStay(w, x)
    ensures Recorded(Schedule(w), x) <==> Recorded(w, x)
    ensures Recorded(YieldCpu(w), x) <==> Recorded(w, x)
  {
    hide Schedule, YieldCpu, SameRecord, Recorded;
    ScheduleRecord(w, x);
    YieldRecord(w, x);
    SameRecorded(w, Schedule(w), x);
    SameRecorded(w, YieldCpu(w), x);
  }

  /** What the steps below need of the state that they start from. */
  ghost predicate Calm(v: State, x: SemaId) {
    && WellFormed(v) && x in v.locks
    && v.threads[v.cur].status == Running && v.cur !in v.semas[x].waiters
    && (forall t :: t in v.threads ==> v.threads[t].priority >= PRI_MIN)
  }

  lemma InvCalm(s: State, x: SemaId)
    requires Inv(s) && x in s.locks
    ensures Calm(s, x)
  {
    CoreWellFormed(s);
  }

  lemma DownRecords(v: State, x: SemaId)
    requires Calm(v, x)
    ensures v.semas[x].value == 0 ==> Recorded(DownFrom(v, x), x)
    ensures v.semas[x].value > 0 ==> SameRecord(v, DownFrom(v, x), x)
  {
    hide Schedule, Recorded, JoinWaiters;
    if v.semas[x].value == 0 {
      JoinRecords(v, x);
      JoinIsLinked(v, x);
      ThenScheduled(JoinWaiters(v, x), x);
    }
  }

  lemma JoinIsLinked(v: State, x: SemaId)
    requires WellFormed(v) && x in v.semas
    ensures Linked(JoinWaiters(v, x))
  {
    hide JoinWaiters;
    JoinShape(v, x);
  }

  lemma DownOthers(v: State, x: SemaId, y: SemaId)
    requires Calm(v, y) && x in v.semas && y != x
    ensures SameRecord(v, DownFrom(v, x), y)
  {
    hide Schedule, JoinWaiters;
    if v.semas[x].value == 0 {
      JoinOthers(v, x, y);
      JoinIsLinked(v, x);
      ThenSchedules(v, JoinWaiters(v, x), y);
    }
  }

  lemma WakeKnown(v: State, x: SemaId, y: SemaId)
    requires Calm(v, y) && x in v.semas
    ensures Linked(WakeAndRaise(v, x)) && WaitersStay(WakeAndRaise(v, x), y)
  {
    hide WakeAndRaise;
    WakeShape(v, x);
    if v.semas[x].waiters != [] {
      var k := FirstMax(v.threads, v.semas[x].waiters);
      assert forall t :: t in RemoveAt(v.semas[x].waiters, k) ==> t in v.semas[x].waiters;
    }
  }

  lemma UpRecords(v: State, x: SemaId, y: SemaId)
    requires Calm(v, y) && x in v.semas
    ensures y == x && v.semas[x].waiters != [] ==> Recorded(UpFrom(v, x), x)
    ensures y != x || v.semas[x].waiters == [] ==> SameRecord(v, UpFrom(v, x), y)
  {
    hide WakeAndRaise, YieldCpu, Recorded, SameRecord, WaitersStay, Linked;
    WakeKnown(v, x, y);
    if y == x && v.semas[x].waiters != [] {
      WakeRecords(v, x);
      ThenScheduled(WakeAndRaise(v, x), x);
    } else {
      WakeOthers(v, x, y);
      ThenSchedules(v, WakeAndRaise(v, x), y);
    }
  }

  // ----- Whole operations -----

  /** The operation changes the waiters of lock x, and records the largest priority anew. */
  ghost predicate Relists(s: State, op: Op, x: SemaId)
    requires s.cur in s.threads && x in s.semas
  {
    || (op == LockRelease(x) && s.semas[x].waiters != [])
    || (op == LockAcquire(x) && s.semas[x].value == 0)
    || (op.Resume? && s.threads[s.cur].pc == InDown(x) && s.semas[x].value == 0)
  }

  /** What lock_acquire() of lock y does to the record of another lock. */
  ghost predicate DonatedRecord(s: State, n: State, y: SemaId, x: SemaId)
    requires s.cur in s.threads && x in s.locks && x in s.semas
    requires ChainBelow(s, Some(y), s.threads[s.cur].priority, {})
  {
    var p := s.threads[s.cur].priority;
    && x in n.locks && x in n.semas && n.semas[x].waiters == s.semas[x].waiters
    && n.locks[x].maxWaiterPriority == (if x in ChainLocks(s, Some(y), p, {}) then p else s.locks[x].maxWaiterPriority)
    && forall t :: t in s.semas[x].waiters ==>
         t in s.threads && t in n.threads
         && n.threads[t].priority == if t in Chain(s, Some(y), p, {}) then p else s.threads[t].priority
  }

  lemma RaisedCalm(s: State, r: State, raised: set<Tid>, p: int, x: SemaId)
    requires Calm(s, x) && RaisedTo(s, r, raised, p) && p >= PRI_MIN
    ensures Calm(r, x)
  {
    RaisedWellFormed(s, r, raised, p);
    hide WellFormed;
  }

  lemma DonationRecord(s: State, y: SemaId, x: SemaId)
    requires Inv(s) && WellFormed(s) && Legal(s, LockAcquire(y)) && x in s.locks
    ensures DonatedRecord(s, AfterDonation(s, y), y, x) && Calm(AfterDonation(s, y), x)
    ensures AfterDonation(s, y).semas == s.semas && WellFormed(AfterDonation(s, y))
  {
    hide Inv, Calm, WellFormed, DonationWalk, ChainBelow, Chain, ChainLocks;
    InvCalm(s, x);
    CalmFacts(s, x);
    var p := s.threads[s.cur].priority;
    WalkMarksLocks(s, y, p, x);
    RaisedWellFormed(s, AfterDonation(s, y), Chain(s, Some(y), p, {}), p);
    RaisedCalm(s, AfterDonation(s, y), Chain(s, Some(y), p, {}), p, x);
  }

  lemma CalmFacts(s: State, x: SemaId)
    requires Calm(s, x)
    ensures s.cur in s.threads && s.threads[s.cur].priority >= PRI_MIN && x in s.locks && x in s.semas
            && HoldersExist(s)
    ensures forall t :: t in s.semas[x].waiters ==> t in s.threads
  {
  }

  lemma AcquireRecords(s: State, y: SemaId, x: SemaId)
    requires Inv(s) && WellFormed(s) && Legal(s, LockAcquire(y)) && x in s.locks && x in s.semas
    ensures y == x && s.semas[x].value == 0 ==> Recorded(AcquireFrom(s, y), x)
    ensures y == x && s.semas[x].value > 0 ==> SameRecord(s, AcquireFrom(s, y), x)
    ensures y != x ==> DonatedRecord(s, AcquireFrom(s, y), y, x)
  {
    hide Inv, DownFrom, Recorded, Calm, AfterDonation, ChainBelow, Chain, ChainLocks, SameRecord, DonatedRecord;
    hide WellFormed;
    InvCalm(s, x);
    CalmFacts(s, x);
    InvCalm(s, y);
    CalmFacts(s, y);
    DonationRecord(s, y, x);
    var v := AfterDonation(s, y);
    if y == x {
      DownRecords(v, x);
      if s.semas[x].value > 0 {
        FreeLock(s, x);
        SameTrans(s, v, DownFrom(v, x), x);
      }
    } else {
      DownOthers(v, y, x);
      DonatedThen(s, v, DownFrom(v, y), y, x);
    }
  }

  lemma DonatedThen(s: State, v: State, n: State, y: SemaId, x: SemaId)
    requires s.cur in s.threads && x in s.locks && x in s.semas
    requires ChainBelow(s, Some(y), s.threads[s.cur].priority, {})
    requires DonatedRecord(s, v, y, x) && SameRecord(v, n, x)
    ensures DonatedRecord(s, n, y, x)
  {
    hide ChainBelow, Chain, ChainLocks;
  }

  /** Nobody holds a lock with a unit, so its acquire donates nothing. */
  lemma FreeLock(s: State, x: SemaId)
    requires Inv(s) && WellFormed(s) && Legal(s, LockAcquire(x)) && s.semas[x].value > 0
    ensures SameRecord(s, AfterDonation(s, x), x)
  {
    hide Links, WaitInv, NoLostWakeup, PriorityInv, DyingInv, MaxWaiterInv;
    assert s.locks[x].holder.None?;
    assert Finished(Walk(s, Some(x)));
  }

  lemma ReleaseRecords(s: State, x: SemaId, y: SemaId)
    requires Inv(s) && WellFormed(s) && Legal(s, LockRelease(x)) && y in s.locks && y in s.semas
    ensures y == x && s.semas[x].waiters != [] ==> Recorded(ReleaseFrom(s, x), x)
    ensures y != x || s.semas[x].waiters == [] ==> SameRecord(s, ReleaseFrom(s, x), y)
  {
    hide Inv, UpFrom, Recorded, DropLock, RestoredPriority;
    InvCalm(s, y);
    DropLockWellFormed(s, x);
    DropLockShape(s, x);
    DropLockCalm(s, x, y);
    UpRecords(DropLock(s, x), x, y);
    if y != x || s.semas[x].waiters == [] {
      SameTrans(s, DropLock(s, x), UpFrom(DropLock(s, x), x), y);
    }
  }

  lemma DropLockCalm(s: State, x: SemaId, y: SemaId)
    requires Inv(s) && WellFormed(s) && x in s.locks && Calm(s, y)
    ensures Calm(DropLock(s, x), y) && SameRecord(s, DropLock(s, x), y) && DropLock(s, x).semas == s.semas
  {
    hide WellFormed, Calm, DropLock, Inv, SameRecord;
    DropLockWellFormed(s, x);
    CalmFacts(s, y);
    LowBase(s);
    HeldKnown(s);
    DropLockShape(s, x);
    DropLockPriorityLow(s, x);
    DroppedCalm(s, DropLock(s, x), x, y);
  }

  lemma DroppedCalm(s: State, n: State, x: SemaId, y: SemaId)
    requires Calm(s, y) && WellFormed(n) && x in s.locks && n.threads.Keys == s.threads.Keys
    requires n == s.(threads := n.threads, locks := s.locks[x := s.locks[x].(holder := None)])
    requires forall t :: t in s.threads && t != s.cur ==> n.threads[t] == s.threads[t]
    requires n.threads[s.cur].status == s.threads[s.cur].status && n.threads[s.cur].priority >= PRI_MIN
    ensures Calm(n, y) && SameRecord(s, n, y)
  {
    CalmFacts(s, y);
    hide WellFormed;
  }

  lemma LowBase(s: State)
    requires Inv(s)
    ensures s.cur in s.threads && s.threads[s.cur].basePriority >= PRI_MIN
  {
    hide Links, LockInv, WaitInv, NoLostWakeup, DyingInv, MaxWaiterInv;
  }

  lemma HeldKnown(s: State)
    requires WellFormed(s)
    ensures forall y :: y in s.threads[s.cur].heldLocks ==> y in s.locks
  {
  }

  lemma DropLockPriorityLow(s: State, x: SemaId)
    requires WellFormed(s) && x in s.locks && s.threads[s.cur].basePriority >= PRI_MIN
    ensures DropLock(s, x).threads[s.cur].priority >= PRI_MIN
  {
  }

  lemma ResumeRecords(s: State, x: SemaId)
    requires Inv(s) && WellFormed(s) && Legal(s, Resume) && x in s.locks && x in s.semas
    ensures if Relists(s, Resume, x) then Recorded(ResumeFrom(s), x) else SameRecord(s, ResumeFrom(s), x)
  {
    hide Inv, DownFrom, Recorded;
    var y := s.threads[s.cur].pc.sema;
    InvCalm(s, x);
    LeaveBlockWellFormed(s, y);
    var v := LeaveBlock(s, y);
    LeaveCalm(s, y, x);
    if y == x {
      DownRecords(v, x);
    } else {
      DownOthers(v, y, x);
    }
    if !Relists(s, Resume, x) {
      SameTrans(s, v, DownFrom(v, y), x);
    }
  }

  lemma LeaveCalm(s: State, y: SemaId, x: SemaId)
    requires Calm(s, x)
    ensures Calm(LeaveBlock(s, y), x) && SameRecord(s, LeaveBlock(s, y), x) && LeaveBlock(s, y).semas == s.semas
  {
    LeaveBlockWellFormed(s, y);
  }

  /** Changing one thread that does not wait for the lock, or not its priority. */
  lemma OneThread(s: State, w: State, u: Tid, th: Thread, x: SemaId)
    requires Calm(s, x) && w == s.(threads := s.threads[u := th], ready := w.ready, sleeping := w.sleeping)
    requires u in s.semas[x].waiters ==> th.priority == s.threads[u].priority && th.status != Dying
    requires (forall t :: t in w.ready ==> t in s.ready || t == u)
             && (forall t :: t in w.sleeping ==> t in s.sleeping || t == u)
    ensures Linked(w) && SameRecord(s, w, x) && WaitersStay(w, x)
  {
  }

  lemma ThreadOpRecord(s: State, op: Op, x: SemaId)
    requires Calm(s, x) && Legal(s, op) && !IsSynchOp(op)
    ensures SameRecord(s, Step(s, op), x)
  {
    hide Schedule, YieldCpu, Linked, SameRecord, WaitersStay, ChainBelow;
    WellFormedLinked(s);
    match op
    case SleepUntil(end) =>
      var w := PutToSleep(s, end);
      OneThread(s, w, s.cur, w.threads[s.cur], x);
      ThenSchedules(s, w, x);
    case SetPriority(p) =>
      var w := WithPriority(s, p);
      OneThread(s, w, s.cur, w.threads[s.cur], x);
      ThenSchedules(s, w, x);
    case InitThread(t, p) => OneThread(s, Step(s, op), t, FreshThread(p), x);
    case StartThread(t) =>
      var w := MakeReady(s, t);
      OneThread(s, w, t, w.threads[t], x);
      ThenSchedules(s, w, x);
    case Yield =>
      OneThread(s, s, s.cur, s.threads[s.cur], x);
      ThenSchedules(s, s, x);
    case Exit => LeaveRecord(s, Dying, x);
    case IdleBlock => LeaveRecord(s, Blocked, x);
    case TimerTick => TickRecord(s, x);
  }

  lemma LeaveRecord(s: State, status: Status, x: SemaId)
    requires Calm(s, x) && Linked(s)
    ensures SameRecord(s, LeaveCpu(s, status), x)
  {
    hide Schedule, SameRecord, WaitersStay;
    var w := SetStatus(s, status);
    OneThread(s, w, s.cur, w.threads[s.cur], x);
    ThenSchedules(s, w, x);
  }

  lemma TickRecord(s: State, x: SemaId)
    requires Calm(s, x) && Linked(s)
    ensures SameRecord(s, Tick(s), x)
  {
    hide YieldCpu, Schedule, Calm, SameRecord, WaitersStay;
    var ticked := s.(ticks := s.ticks + 1, slice := s.slice + 1);
    TickedRecord(s, x);
    if ticked.slice >= TIME_SLICE {
      ThenSchedules(s, ticked, x);
    }
  }

  lemma TickedRecord(s: State, x: SemaId)
    requires Calm(s, x) && Linked(s)
    ensures var ticked := s.(ticks := s.ticks + 1, slice := s.slice + 1);
            Linked(ticked) && SameRecord(s, ticked, x) && WaitersStay(ticked, x)
  {
  }

  /** What every operation does to what a lock records: an operation that changes its waiters
      records their largest priority, the acquire of another lock may donate through it, and
      nothing else touches it. */
  lemma StepRecords(s: State, op: Op, x: SemaId)
    requires Inv(s) && WellFormed(s) && Legal(s, op) && x in s.locks && x in s.semas
    ensures x in Step(s, op).locks && x in Step(s, op).semas
    ensures Relists(s, op, x) ==> Recorded(Step(s, op), x)
    ensures !Relists(s, op, x) && !(op.LockAcquire? && op.x != x) ==> SameRecord(s, Step(s, op), x)
    ensures op.LockAcquire? && op.x != x ==> DonatedRecord(s, Step(s, op), op.x, x)
  {
    hide Inv, WellFormed, Recorded, SameRecord, DownFrom, UpFrom, AcquireFrom, ReleaseFrom, ResumeFrom, Calm;
    hide ChainBelow, DonatedRecord;
    InvCalm(s, x);
    LocksStay(s, op);
    if !IsSynchOp(op) {
      ThreadOpRecord(s, op, x);
    } else {
      match op
      case SemaDown(y) => DownOthers(s, y, x);
      case SemaTryDown(y) => TryRecord(s, y, x);
      case SemaUp(y) => UpRecords(s, y, x);
      case LockAcquire(y) => AcquireRecords(s, y, x);
      case LockRelease(y) => ReleaseRecords(s, y, x);
      case Resume => ResumeRecords(s, x);
    }
  }

  lemma LocksStay(s: State, op: Op)
    requires WellFormed(s) && Legal(s, op)
    ensures Step(s, op).locks.Keys == s.locks.Keys && Step(s, op).semas.Keys == s.semas.Keys
  {
    hide Schedule, YieldCpu, ChainBelow, DownFrom, UpFrom, AcquireFrom, ReleaseFrom, ResumeFrom, WellFormed;
    WellFormedLinked(s);
    if IsSynchOp(op) {
      SynchKeys(s, op);
    }
  }

  lemma SynchKeys(s: State, op: Op)
    requires WellFormed(s) && Legal(s, op) && IsSynchOp(op)
    ensures Step(s, op).locks.Keys == s.locks.Keys && Step(s, op).semas.Keys == s.semas.Keys
  {
    hide WellFormed, ChainBelow, DownFrom, UpFrom, AcquireFrom, ReleaseFrom, ResumeFrom;
    match op
    case SemaDown(y) => DownKeys(s, y);
    case SemaTryDown(y) =>
    case SemaUp(y) => UpKeys(s, y);
    case LockAcquire(y) => AcquireKeys(s, y);
    case LockRelease(y) => ReleaseKeys(s, y);
    case Resume => ResumeKeys(s);
  }

  lemma AcquireKeys(s: State, y: SemaId)
    requires WellFormed(s) && Legal(s, LockAcquire(y))
    ensures AcquireFrom(s, y).locks.Keys == s.locks.Keys && AcquireFrom(s, y).semas.Keys == s.semas.Keys
  {
    hide ChainBelow, Chain, DonationWalk, DownFrom;
    var p := s.threads[s.cur].priority;
    RaisedWellFormed(s, AfterDonation(s, y), Chain(s, Some(y), p, {}), p);
    DownKeys(AfterDonation(s, y), y);
  }

  lemma ReleaseKeys(s: State, y: SemaId)
    requires WellFormed(s) && y in s.locks
    ensures ReleaseFrom(s, y).locks.Keys == s.locks.Keys && ReleaseFrom(s, y).semas.Keys == s.semas.Keys
  {
    hide UpFrom, DropLock;
    DropLockWellFormed(s, y);
    DropLockShape(s, y);
    UpKeys(DropLock(s, y), y);
  }

  lemma ResumeKeys(s: State)
    requires WellFormed(s) && s.threads[s.cur].pc.InDown?
    ensures ResumeFrom(s).locks.Keys == s.locks.Keys && ResumeFrom(s).semas.Keys == s.semas.Keys
  {
    hide DownFrom;
    var y := s.threads[s.cur].pc.sema;
    LeaveBlockWellFormed(s, y);
    DownKeys(LeaveBlock(s, y), y);
  }

  lemma DownKeys(v: State, x: SemaId)
    requires WellFormed(v) && x in v.semas
    ensures DownFrom(v, x).locks.Keys == v.locks.Keys && DownFrom(v, x).semas.Keys == v.semas.Keys
  {
    hide Schedule, MaxPriority;
  }

  lemma UpKeys(v: State, x: SemaId)
    requires WellFormed(v) && x in v.semas
    ensures UpFrom(v, x).locks.Keys == v.locks.Keys && UpFrom(v, x).semas.Keys == v.semas.Keys
  {
    hide YieldCpu, WakeAndRaise;
    WakeShape(v, x);
  }

  lemma TryRecord(s: State, y: SemaId, x: SemaId)
    requires Calm(s, x) && Legal(s, SemaTryDown(y))
    ensures SameRecord(s, Step(s, SemaTryDown(y)), x)
  {
  }

  // ----- When the record goes wrong -----

  /** The acquire of another lock leaves lock x recording a priority that none of its waiters
      has, or less than one of them has: the walk passes x although no waiter of x gets or has
      the caller's priority or one of them has more, or the walk ends at x, which nobody holds,
      after it raised a waiter of x above what x records. */
  ghost predicate Spoils(s: State, op: Op, x: SemaId)
    requires s.cur in s.threads && x in s.locks && x in s.semas && Legal(s, op)
  {
    op.LockAcquire? && op.x != x &&
    var p, q := s.threads[s.cur].priority, s.semas[x].waiters;
    var chain := Chain(s, Some(op.x), p, {});
    if x in ChainLocks(s, Some(op.x), p, {}) then
      || (forall t :: t in q && t in s.threads ==> t !in chain && s.threads[t].priority != p)
      || (exists t :: t in q && t in s.threads && s.threads[t].priority > p)
    else
      p > s.locks[x].maxWaiterPriority && exists t :: t in q && t in chain
  }

  /** Only such an acquire makes a right record wrong. */
  lemma RecordedIff(s: State, op: Op, x: SemaId)
    requires Inv(s) && WellFormed(s) && Legal(s, op) && x in s.locks && x in s.semas && Recorded(s, x)
    ensures x in Step(s, op).locks && x in Step(s, op).semas
    ensures Recorded(Step(s, op), x) <==> !Spoils(s, op, x)
  {
    hide Inv, Step, Recorded, SameRecord, DonatedRecord, ChainBelow, Chain, ChainLocks;
    StepRecords(s, op, x);
    var n := Step(s, op);
    if op.LockAcquire? && op.x != x {
      assert op == LockAcquire(op.x);
      CallerPriority(s, op.x);
      DonatedIff(s, n, op.x, x);
    } else if !Relists(s, op, x) {
      SameRecorded(s, n, x);
    }
  }

  lemma CallerPriority(s: State, y: SemaId)
    requires Inv(s) && WellFormed(s) && Legal(s, LockAcquire(y))
    ensures s.threads[s.cur].priority >= PRI_MIN
    ensures Chain(s, Some(y), s.threads[s.cur].priority, {}) <= Below(s.threads, s.threads[s.cur].priority)
  {
    hide Links, LockInv, WaitInv, NoLostWakeup, DyingInv, MaxWaiterInv, ChainBelow, Chain;
    DonationTerminatesIff(s, y, s.threads[s.cur].priority);
  }

  lemma DonatedIff(s: State, n: State, y: SemaId, x: SemaId)
    requires s.cur in s.threads && x in s.locks && x in s.semas && Recorded(s, x) && y != x
    requires Legal(s, LockAcquire(y)) && DonatedRecord(s, n, y, x) && s.threads[s.cur].priority >= PRI_MIN
    requires Chain(s, Some(y), s.threads[s.cur].priority, {}) <= Below(s.threads, s.threads[s.cur].priority)
    ensures Recorded(n, x) <==> !Spoils(s, LockAcquire(y), x)
  {
    hide ChainBelow, Chain, ChainLocks;
    var p, q := s.threads[s.cur].priority, s.semas[x].waiters;
    var chain := Chain(s, Some(y), p, {});
    if q != [] {
      assert q[0] in q;
      if x in ChainLocks(s, Some(y), p, {}) {
        if t :| t in q && (t in chain || s.threads[t].priority == p) {
          assert n.threads[t].priority == p;
        }
      } else {
        var t :| t in q && t in s.threads && s.threads[t].priority == s.locks[x].maxWaiterPriority;
        assert t in chain ==> s.threads[t].priority < p;
      }
    }
  }

  // ----- Runs -----

  /** A lock records the largest priority of its waiters until an acquire of another lock spoils
      that. */
  lemma {:induction false} RecordedAlways(r: Run, i: nat, x: SemaId)
    requires IsRun(r) && i < |r.states| && x in r.states[0].locks
    requires forall k :: 0 <= k < i ==> !SpoilsAt(r, k, x)
    ensures x in r.states[i].locks && x in r.states[i].semas && Recorded(r.states[i], x)
  {
    hide Inv, Recorded, Legal, WellFormed, Step, Spoils;
    InvAlways(r, i);
    if i == 0 {
      var values, lockIds :| r.states[0] == Boot(values, lockIds);
      BootRecords(values, lockIds, x);
    } else {
      RecordedAlways(r, i - 1, x);
      InvAlways(r, i - 1);
      RunStep(r, i - 1);
      RecordedIff(r.states[i - 1], r.ops[i - 1], x);
      assert !SpoilsAt(r, i - 1, x);
    }
  }

  /** Step k of the run spoils the record of lock x. */
  ghost predicate SpoilsAt(r: Run, k: nat, x: SemaId)
    requires IsRun(r) && k < |r.ops|
  {
    x in r.states[k].locks && x in r.states[k].semas && Spoils(r.states[k], r.ops[k], x)
  }

  /** It does so in all of the first n + 1 states exactly when none of the first n steps spoils
      it. */
  lemma RecordedThroughout(r: Run, n: nat, x: SemaId)
    requires IsRun(r) && n < |r.states| && x in r.states[0].locks
    requires forall i :: 0 <= i <= n ==> x in r.states[i].locks && x in r.states[i].semas
    ensures (forall i :: 0 <= i <= n ==> Recorded(r.states[i], x)) <==> (forall k :: 0 <= k < n ==> !SpoilsAt(r, k, x))
  {
    hide Inv, Recorded, Legal, WellFormed, Step, Spoils;
    if forall k :: 0 <= k < n ==> !SpoilsAt(r, k, x) {
      forall i | 0 <= i <= n ensures Recorded(r.states[i], x) {
        RecordedAlways(r, i, x);
      }
    }
    if forall i :: 0 <= i <= n ==> Recorded(r.states[i], x) {
      forall k | 0 <= k < n ensures !SpoilsAt(r, k, x) {
        InvAlways(r, k);
        RunStep(r, k);
        RecordedIff(r.states[k], r.ops[k], x);
        assert Recorded(r.states[k + 1], x);
      }
    }
  }

  lemma BootRecords(values: map<SemaId, nat>, lockIds: set<SemaId>, x: SemaId)
    requires x in Boot(values, lockIds).locks
    ensures x in Boot(values, lockIds).semas && Recorded(Boot(values, lockIds), x)
  {
  }

  /** The largest of the base priority and the priorities of those who wait for the locks that
      the thread holds. */
  ghost predicate AtWaiters(s: State, th: Thread) {
    && th.priority >= th.basePriority
    && (forall y, t :: y in th.heldLocks && y in s.semas && t in s.semas[y].waiters && t in s.threads ==>
          s.threads[t].priority <= th.priority)
    && (th.priority == th.basePriority ||
        exists y, t :: y in th.heldLocks && y in s.semas && t in s.semas[y].waiters && t in s.threads
                       && s.threads[t].priority == th.priority)
  }

  /** lock_release() gives back exactly the donations that came through the lock: the caller is
      left at the largest of its base priority and the priorities of those who wait for the
      locks it still holds, if these record their waiters. */
  lemma ReleaseGivesBack(s: State, x: SemaId)
    requires Inv(s) && WellFormed(s) && Legal(s, LockRelease(x))
    requires forall y :: y in s.threads[s.cur].heldLocks && y != x ==> y in s.semas && Recorded(s, y)
    ensures s.cur in Step(s, LockRelease(x)).threads && AtWaiters(s, Step(s, LockRelease(x)).threads[s.cur])
  {
    hide Step, Links, LockInv, WaitInv, NoLostWakeup, DyingInv, MaxWaiterInv;
    ReleaseRestores(s, x);
    RestoredAtWaiters(s, Step(s, LockRelease(x)).threads[s.cur], s.threads[s.cur].heldLocks, x);
  }

  lemma RestoredAtWaiters(s: State, th: Thread, held: seq<SemaId>, x: SemaId)
    requires RestoredTo(s, th, held, x) && th.basePriority >= PRI_MIN
    requires forall y :: y in held && y != x ==> y in s.locks && y in s.semas && Recorded(s, y)
    ensures AtWaiters(s, th)
  {
    if th.priority != th.basePriority {
      var y :| y in th.heldLocks && y in s.locks && s.locks[y].maxWaiterPriority == th.priority;
      assert Recorded(s, y);
    }
  }
}
