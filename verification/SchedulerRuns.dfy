/** What holds in every run of the kernel: any interleaving of the operations of
    KernelSteps from the state thread_start() leaves behind. */
module SchedulerRuns {

  import opened Lists
  import opened Threads
  import opened Synch
  import opened Invariant
  import opened Donation
  import opened KernelSteps
  import opened StepsKeep

  const PRI_DEFAULT := 31

  /** Thread 0 is the initial thread, thread 1 the idle thread, which has announced itself
      and yielded. Semaphores have arbitrary initial values; those in `lockIds` belong to
      locks set up by lock_init(). */
  function Boot(values: map<SemaId, nat>, lockIds: set<SemaId>): State {
    State(
      map[0 := Thread(Running, PRI_DEFAULT, PRI_DEFAULT, 0, [], None, AtUser),
          1 := Thread(Ready, PRI_MIN, PRI_MIN, -1, [], None, AtUser)],
      [], [],
      map x | x in values :: Semaphore(if x in lockIds then 1 else values[x], []),
      map x | x in values && x in lockIds :: Lock(None, -1),
      0, 1, 0, 0, 0)
  }

  datatype Run = Run(states: seq<State>, ops: seq<Op>)

  ghost predicate IsRun(r: Run) {
    && |r.states| == |r.ops| + 1
    && (exists values, lockIds :: r.states[0] == Boot(values, lockIds))
    && (forall i :: 0 <= i < |r.ops| ==>
          && WellFormed(r.states[i]) && Legal(r.states[i], r.ops[i])
          && r.states[i + 1] == Step(r.states[i], r.ops[i]))
  }

  lemma BootSatisfiesInv(values: map<SemaId, nat>, lockIds: set<SemaId>)
    ensures Inv(Boot(values, lockIds))
  {
    hide Links, LockInv, WaitInv, NoLostWakeup, MaxWaiterInv;
    BootLinks(values, lockIds);
    BootOwners(values, lockIds);
  }

  lemma BootLinks(values: map<SemaId, nat>, lockIds: set<SemaId>)
    ensures Links(Boot(values, lockIds))
  {
    var s := Boot(values, lockIds);
    assert ReadyLinks(s) && SleepLinks(s) && WaiterLinks(s);
  }

  lemma BootOwners(values: map<SemaId, nat>, lockIds: set<SemaId>)
    ensures var s := Boot(values, lockIds); LockInv(s) && WaitInv(s) && NoLostWakeup(s) && MaxWaiterInv(s)
  {
  }

  lemma {:induction false} InvAlways(r: Run, i: nat)
    requires IsRun(r) && i < |r.states|
    ensures Inv(r.states[i])
  {
    if i == 0 {
      var values, lockIds :| r.states[0] == Boot(values, lockIds);
      BootSatisfiesInv(values, lockIds);
    } else {
      InvAlways(r, i - 1);
      StepKeepsInv(r.states[i - 1], r.ops[i - 1]);
    }
  }

  /** Strict priority: between operations no ready thread beats the running one, and the
      idle thread runs only when nothing is ready. */
  lemma StrictPriorityAlways(r: Run, i: nat, t: Tid)
    requires IsRun(r) && i < |r.states| && t in r.states[i].ready
    ensures var s := r.states[i];
            && t in s.threads && s.cur in s.threads && s.cur != s.idle
            && s.threads[t].priority <= s.threads[s.cur].priority
  {
    InvAlways(r, i);
  }

  /** The lists a thread can be linked in. */
  datatype Place = OnReady | OnSleep | OnWaiters(x: SemaId)

  function ListAt(s: State, p: Place): seq<Tid> {
    match p
    case OnReady => s.ready
    case OnSleep => s.sleeping
    case OnWaiters(x) => if x in s.semas then s.semas[x].waiters else []
  }

  /** A thread's one `elem` is linked at most once, over all lists together. */
  lemma LinkedAtMostOnce(r: Run, i: nat, p: Place, q: Place, j: nat, k: nat)
    requires IsRun(r) && i < |r.states|
    requires j < |ListAt(r.states[i], p)| && k < |ListAt(r.states[i], q)|
    requires ListAt(r.states[i], p)[j] == ListAt(r.states[i], q)[k]
    ensures p == q && j == k
  {
    InvAlways(r, i);
    var s := r.states[i];
    var t := ListAt(s, p)[j];
    assert t in ListAt(s, p) && t in ListAt(s, q);
  }

  /** Exactly the current thread is RUNNING, it is linked nowhere, and a READY thread other
      than idle is on the run queue. */
  lemma StatusesAgree(r: Run, i: nat, t: Tid)
    requires IsRun(r) && i < |r.states| && t in r.states[i].threads
    ensures var s := r.states[i];
            && (s.threads[t].status == Running <==> t == s.cur)
            && (t == s.cur ==> forall p :: t !in ListAt(s, p))
            && (t in s.ready <==> s.threads[t].status == Ready && t != s.idle)
  {
    InvAlways(r, i);
  }

  lemma StatusesInInv(s: State)
    requires Inv(s)
    ensures s.cur in s.threads && s.threads[s.cur].status == Running
    ensures forall t :: t in s.sleeping ==>
            t in s.threads && s.threads[t].status == Blocked && s.threads[t].endTick >= 0
    ensures forall x, t :: x in s.semas && t in s.semas[x].waiters ==> t in s.threads && s.threads[t].status == Blocked
    ensures forall t :: t in s.threads && s.threads[t].pc.Fresh? ==>
            s.threads[t].status == Blocked && forall p :: t !in ListAt(s, p)
  {
    hide LockInv, WaitInv, NoLostWakeup, PriorityInv, DyingInv, MaxWaiterInv, Located, NoDup;
  }

  /** The ASSERTs on thread status in thread_unblock(), thread_current() and schedule(). */
  lemma StatusAssertionsHold(r: Run, i: nat)
    requires IsRun(r) && i < |r.states|
    ensures var s := r.states[i];
            && s.cur in s.threads && s.threads[s.cur].status == Running
            && (forall t :: t in s.sleeping ==>
                t in s.threads && s.threads[t].status == Blocked && s.threads[t].endTick >= 0)
            && (forall x, t :: x in s.semas && t in s.semas[x].waiters ==>
                t in s.threads && s.threads[t].status == Blocked)
            && (forall t :: t in s.threads && s.threads[t].pc.Fresh? ==>
                s.threads[t].status == Blocked && forall p :: t !in ListAt(s, p))
  {
    hide Inv;
    InvAlways(r, i);
    StatusesInInv(r.states[i]);
  }

  /** A semaphore with waiters never has more units than woken threads on their way to it. */
  lemma NoLostWakeupAlways(r: Run, i: nat, x: SemaId)
    requires IsRun(r) && i < |r.states| && x in r.states[i].semas && r.states[i].semas[x].waiters != []
    ensures r.states[i].semas[x].value <= |Woken(r.states[i], x)|
  {
    InvAlways(r, i);
  }

  /** Mutual exclusion: a lock is held or free, its holder is unique, and it is the holder
      that lists it. */
  lemma LockExclusionAlways(r: Run, i: nat, x: SemaId)
    requires IsRun(r) && i < |r.states| && x in r.states[i].locks
    ensures var s := r.states[i];
            && x in s.semas
            && s.semas[x].value + (if s.locks[x].holder.Some? then 1 else 0) == 1
            && (forall t :: t in s.threads ==> (x in s.threads[t].heldLocks <==> s.locks[x].holder == Some(t)))
  {
    InvAlways(r, i);
  }

  /** Donations are always given back: a thread that holds no lock runs at its own base
      priority, and no thread is ever below it. */
  lemma PriorityRestoredAlways(r: Run, i: nat, t: Tid)
    requires IsRun(r) && i < |r.states| && t in r.states[i].threads
    ensures var th := r.states[i].threads[t];
            && th.priority >= th.basePriority
            && (th.heldLocks == [] ==> th.priority == th.basePriority)
  {
    InvAlways(r, i);
  }

  // ----- Conservation of semaphore values -----

  /** The semaphore whose down is completed by `op`: the caller is still running after it. */
  ghost function Completed(s: State, op: Op): Option<SemaId>
    requires WellFormed(s) && Legal(s, op)
  {
    match op
    case SemaDown(x) => if Step(s, op).cur == s.cur then Some(x) else None
    case LockAcquire(x) => if Step(s, op).cur == s.cur then Some(x) else None
    case Resume => if Step(s, op).cur == s.cur then Some(s.threads[s.cur].pc.sema) else None
    case SemaTryDown(x) => if s.semas[x].value > 0 then Some(x) else None
    case _ => None
  }

  function RaisedBy(op: Op): Option<SemaId> {
    match op
    case SemaUp(x) => Some(x)
    case LockRelease(x) => Some(x)
    case _ => None
  }

  ghost function Downs(r: Run, i: nat, x: SemaId): nat
    requires IsRun(r) && i < |r.states|
  {
    if i == 0 then 0
    else Downs(r, i - 1, x) + (if Completed(r.states[i - 1], r.ops[i - 1]) == Some(x) then 1 else 0)
  }

  function Ups(r: Run, i: nat, x: SemaId): nat
    requires i <= |r.ops|
  {
    if i == 0 then 0 else Ups(r, i - 1, x) + (if RaisedBy(r.ops[i - 1]) == Some(x) then 1 else 0)
  }

  lemma TestingUnlinked(s: State, x: SemaId)
    requires Testing(s, x)
    ensures x in s.semas && s.cur !in s.ready && s.cur !in s.sleeping && s.cur != s.idle
  {
    hide LockInv, WaitInv, PriorityInv, DyingInv, MaxWaiterInv, NoLostWakeupTesting;
  }

  lemma BlockingSwitches(s: State, x: SemaId)
    requires WellFormed(s) && x in s.semas && s.cur !in s.ready && s.cur !in s.sleeping && s.cur != s.idle
    ensures var n := Schedule(JoinWaiters(s, x));
            && n.cur != s.cur
            && n.semas == s.semas[x := s.semas[x].(waiters := s.semas[x].waiters + [s.cur])]
  {
    var j := JoinWaiters(s, x);
    assert j.cur == s.cur && j.ready == s.ready && j.sleeping == s.sleeping && j.idle == s.idle;
  }

  lemma TakeCounts(s: State, x: SemaId)
    requires s.cur in s.threads && x in s.semas && s.semas[x].value > 0
    ensures TakeDown(s, x).cur == s.cur
    ensures TakeDown(s, x).semas == s.semas[x := s.semas[x].(value := s.semas[x].value - 1)]
  {
  }

  lemma DownCounts(s: State, x: SemaId, y: SemaId)
    requires WellFormed(s) && Testing(s, x)
    ensures var n := DownFrom(s, x);
            && (n.cur == s.cur <==> s.semas[x].value > 0)
            && n.semas.Keys == s.semas.Keys
            && (y in s.semas ==>
                  n.semas[y].value == s.semas[y].value - (if y == x && n.cur == s.cur then 1 else 0))
  {
    hide Schedule, JoinWaiters, WellFormed, TakeDown, Links, LockInv, WaitInv, PriorityInv, DyingInv, MaxWaiterInv;
    hide NoLostWakeupTesting;
    TestingUnlinked(s, x);
    if s.semas[x].value == 0 {
      BlockingSwitches(s, x);
    } else {
      TakeCounts(s, x);
    }
  }

  lemma UpCounts(s: State, x: SemaId, y: SemaId)
    requires WellFormed(s) && x in s.semas
    ensures var n := UpFrom(s, x);
            && n.semas.Keys == s.semas.Keys
            && (y in s.semas ==> n.semas[y].value == s.semas[y].value + (if y == x then 1 else 0))
  {
    hide YieldCpu;
  }

  lemma QuietStep(s: State, op: Op)
    requires WellFormed(s) && Legal(s, op)
    requires !op.SemaDown? && !op.SemaUp? && !op.LockAcquire? && !op.LockRelease? && !op.Resume? && !op.SemaTryDown?
    ensures Step(s, op).semas == s.semas
  {
    hide Schedule, YieldCpu;
  }

  lemma AcquireCounts(s: State, x: SemaId, y: SemaId)
    requires Inv(s) && WellFormed(s) && Legal(s, LockAcquire(x))
    ensures var n := AcquireFrom(s, x);
            && n.semas.Keys == s.semas.Keys
            && (y in s.semas ==>
                  n.semas[y].value == s.semas[y].value - (if y == x && n.cur == s.cur then 1 else 0))
  {
    var p := s.threads[s.cur].priority;
    RunningPc(s);
    RaisedWellFormed(s, AfterDonation(s, x), Chain(s, Some(x), p, {}), p);
    DonationKeeps(s, x);
    InvTesting(AfterDonation(s, x), x);
    hide Inv, Testing, DownFrom;
    DownCounts(AfterDonation(s, x), x, y);
  }

  lemma ResumeCounts(s: State, y: SemaId)
    requires Inv(s) && WellFormed(s) && s.threads[s.cur].pc.InDown?
    ensures var n := ResumeFrom(s); var x := s.threads[s.cur].pc.sema;
            && n.semas.Keys == s.semas.Keys
            && (y in s.semas ==>
                  n.semas[y].value == s.semas[y].value - (if y == x && n.cur == s.cur then 1 else 0))
  {
    var x := s.threads[s.cur].pc.sema;
    LeaveBlockTests(s, x);
    LeaveBlockWellFormed(s, x);
    hide Inv, Testing, DownFrom;
    DownCounts(LeaveBlock(s, x), x, y);
  }

  lemma ReleaseCounts(s: State, x: SemaId, y: SemaId)
    requires WellFormed(s) && x in s.locks
    ensures var n := ReleaseFrom(s, x);
            && n.semas.Keys == s.semas.Keys
            && (y in s.semas ==> n.semas[y].value == s.semas[y].value + (if y == x then 1 else 0))
  {
    DropLockWellFormed(s, x);
    UpCounts(DropLock(s, x), x, y);
  }

  lemma StepCounts(s: State, op: Op, y: SemaId)
    requires Inv(s) && WellFormed(s) && Legal(s, op) && y in s.semas
    ensures y in Step(s, op).semas
    ensures Step(s, op).semas[y].value
         == s.semas[y].value
           + (if RaisedBy(op) == Some(y) then 1 else 0) - (if Completed(s, op) == Some(y) then 1 else 0)
  {
    hide Inv, Executing, Linked, WellFormed, Testing, DownFrom, UpFrom, AcquireFrom, ReleaseFrom, ResumeFrom;
    hide YieldCpu, Schedule, Tick, TakeDown, SleepFrom, SetPriorityFrom, StartFrom, LeaveCpu, ChainBelow;
    RunningPc(s);
    match op
    case SemaDown(x) => InvTesting(s, x); DownCounts(s, x, y);
    case SemaTryDown(x) => if s.semas[x].value > 0 { TakeCounts(s, x); }
    case SemaUp(x) => UpCounts(s, x, y);
    case LockAcquire(x) => AcquireCounts(s, x, y);
    case LockRelease(x) => ReleaseCounts(s, x, y);
    case Resume => ResumeCounts(s, y);
    case _ => QuietStep(s, op);
  }

  /** Conservation: a semaphore's value is its initial value plus the ups minus the
      completed downs, whatever the interleaving and whoever barged in. */
  lemma {:induction false} ValueConserved(r: Run, i: nat, x: SemaId)
    requires IsRun(r) && i < |r.states| && x in r.states[0].semas
    ensures x in r.states[i].semas
    ensures r.states[i].semas[x].value == r.states[0].semas[x].value + Ups(r, i, x) - Downs(r, i, x)
  {
    hide Inv, Step, Completed, Legal, WellFormed, Boot;
    if i > 0 {
      ValueConserved(r, i - 1, x);
      InvAlways(r, i - 1);
      StepCounts(r.states[i - 1], r.ops[i - 1], x);
    }
  }

  // ----- Sleeping -----

  /** A sleeper stays asleep unchanged, or it is woken by a schedule() that finds it due. */
  ghost predicate SleepsOrDue(s: State, n: State, t: Tid) {
    && t in s.threads
    && ((t in n.sleeping && t in n.threads && n.threads[t].endTick == s.threads[t].endTick)
        || (t !in n.sleeping && s.threads[t].endTick <= n.ticks))
  }

  /** `n` is `s` as far as the sleeper `t` can tell. */
  ghost predicate StillAsleep(s: State, n: State, t: Tid) {
    && t in s.threads && t in n.threads && t in n.sleeping
    && n.threads[t].endTick == s.threads[t].endTick
  }

  lemma ScheduleWakesWhenDue(s: State, m: State, t: Tid)
    requires Linked(m) && StillAsleep(s, m, t)
    requires m.threads[m.cur].status == Dying ==> m.cur != t
    ensures SleepsOrDue(s, Schedule(m), t)
  {
    WakeSleepersLinks(m);
  }

  lemma RaisedStillAsleep(s: State, r: State, raised: set<Tid>, p: int, t: Tid)
    requires RaisedTo(s, r, raised, p) && t in s.sleeping && t in s.threads
    ensures StillAsleep(s, r, t)
  {
  }

  lemma SleepFact(s: State, t: Tid)
    requires Inv(s) && t in s.sleeping
    ensures WellFormed(s) && t in s.threads && t != s.cur && s.threads[t].status == Blocked && s.threads[t].pc == AtUser
    ensures forall x :: x in s.semas ==> t !in s.semas[x].waiters
  {
    CoreWellFormed(s);
    forall x | x in s.semas ensures t !in s.semas[x].waiters {
    }
  }

  lemma DownSleeper(s0: State, s: State, x: SemaId, t: Tid)
    requires WellFormed(s) && x in s.semas && StillAsleep(s0, s, t) && t != s.cur
    ensures SleepsOrDue(s0, DownFrom(s, x), t)
  {
    if s.semas[x].value == 0 {
      ScheduleWakesWhenDue(s0, JoinWaiters(s, x), t);
    }
  }

  lemma UpSleeper(s0: State, s: State, x: SemaId, t: Tid)
    requires WellFormed(s) && x in s.semas && StillAsleep(s0, s, t) && t != s.cur && t !in s.semas[x].waiters
    ensures SleepsOrDue(s0, UpFrom(s, x), t)
  {
    hide Schedule, WakeAndRaise, RemoveAt, SleepsOrDue;
    WaitersExist(s, x);
    WakeShape(s, x);
    ScheduleWakesWhenDue(s0, Requeue(WakeAndRaise(s, x)), t);
  }

  lemma AcquireSleeper(s: State, x: SemaId, t: Tid)
    requires WellFormed(s) && Legal(s, LockAcquire(x)) && t in s.sleeping && t != s.cur
    ensures SleepsOrDue(s, AcquireFrom(s, x), t)
  {
    var p := s.threads[s.cur].priority;
    var r := AfterDonation(s, x);
    RaisedWellFormed(s, r, Chain(s, Some(x), p, {}), p);
    RaisedStillAsleep(s, r, Chain(s, Some(x), p, {}), p, t);
    hide WellFormed, DownFrom, AfterDonation;
    DownSleeper(s, r, x, t);
  }

  lemma ReleaseSleeper(s: State, x: SemaId, t: Tid)
    requires WellFormed(s) && x in s.locks && t in s.sleeping && t in s.threads && t != s.cur
    requires t !in s.semas[x].waiters
    ensures SleepsOrDue(s, ReleaseFrom(s, x), t)
  {
    DropLockWellFormed(s, x);
    UpSleeper(s, DropLock(s, x), x, t);
  }

  lemma ResumeSleeper(s: State, t: Tid)
    requires WellFormed(s) && s.threads[s.cur].pc.InDown? && t in s.sleeping && t != s.cur
    ensures SleepsOrDue(s, ResumeFrom(s), t)
  {
    var x := s.threads[s.cur].pc.sema;
    LeaveBlockWellFormed(s, x);
    DownSleeper(s, LeaveBlock(s, x), x, t);
  }

  lemma YieldSleeper(s: State, m: State, t: Tid)
    requires Linked(m) && StillAsleep(s, m, t) && t != m.cur
    ensures SleepsOrDue(s, YieldCpu(m), t)
  {
    ScheduleWakesWhenDue(s, Requeue(m), t);
  }

  lemma OtherSleeper(s: State, op: Op, t: Tid)
    requires WellFormed(s) && Legal(s, op) && t in s.sleeping && t != s.cur && !s.threads[t].pc.Fresh?
    requires !op.SemaDown? && !op.SemaUp? && !op.LockAcquire? && !op.LockRelease? && !op.Resume? && !op.SemaTryDown?
    ensures SleepsOrDue(s, Step(s, op), t)
  {
    hide Schedule, YieldCpu, WellFormed, DownFrom, UpFrom, AcquireFrom, ReleaseFrom, ResumeFrom, SleepsOrDue;
    hide ChainBelow;
    WellFormedLinked(s);
    match op
    case SleepUntil(end) => ScheduleWakesWhenDue(s, PutToSleep(s, end), t);
    case SetPriority(p) => YieldSleeper(s, WithPriority(s, p), t);
    case InitThread(u, p) => InitSleeper(s, u, p, t);
    case StartThread(u) => YieldSleeper(s, MakeReady(s, u), t);
    case Yield => YieldSleeper(s, s, t);
    case Exit => ScheduleWakesWhenDue(s, SetStatus(s, Dying), t);
    case IdleBlock => ScheduleWakesWhenDue(s, SetStatus(s, Blocked), t);
    case TimerTick => TickSleeper(s, t);
  }

  lemma InitSleeper(s: State, u: Tid, p: int, t: Tid)
    requires t in s.sleeping && t in s.threads && u !in s.threads
    ensures SleepsOrDue(s, SetThread(s, u, FreshThread(p)), t)
  {
  }

  lemma TickSleeper(s: State, t: Tid)
    requires Linked(s) && t in s.sleeping && t != s.cur
    ensures SleepsOrDue(s, Tick(s), t)
  {
    hide YieldCpu;
    YieldSleeper(s, s.(ticks := s.ticks + 1, slice := s.slice + 1), t);
  }

  lemma TrySleeper(s: State, x: SemaId, t: Tid)
    requires s.cur in s.threads && x in s.semas && t in s.sleeping && t in s.threads && t != s.cur
    ensures SleepsOrDue(s, if s.semas[x].value > 0 then TakeDown(s, x) else s, t)
  {
  }

  lemma StepSleeper(s: State, op: Op, t: Tid)
    requires Inv(s) && WellFormed(s) && Legal(s, op) && t in s.sleeping
    ensures SleepsOrDue(s, Step(s, op), t)
  {
    hide Inv, Executing, WellFormed, Linked, Schedule, YieldCpu, DownFrom, UpFrom, AcquireFrom, ReleaseFrom;
    hide ResumeFrom, Tick, SleepFrom, SetPriorityFrom, StartFrom, LeaveCpu, ChainBelow, SleepsOrDue;
    RunningPc(s);
    SleepFact(s, t);
    match op
    case SemaDown(x) => DownSleeper(s, s, x, t);
    case SemaTryDown(x) => TrySleeper(s, x, t);
    case SemaUp(x) => UpSleeper(s, s, x, t);
    case LockAcquire(x) => AcquireSleeper(s, x, t);
    case LockRelease(x) => ReleaseSleeper(s, x, t);
    case Resume => ResumeSleeper(s, t);
    case _ => OtherSleeper(s, op, t);
  }

  lemma StepClock(s: State, op: Op)
    requires WellFormed(s) && Legal(s, op)
    ensures s.ticks <= Step(s, op).ticks <= s.ticks + 1
  {
    WellFormedLinked(s);
    hide Schedule, YieldCpu, DownFrom, UpFrom, AcquireFrom, ReleaseFrom, ResumeFrom, SleepFrom, SetPriorityFrom;
    hide StartFrom, LeaveCpu, Tick, WellFormed;
  }

  lemma RunStep(r: Run, i: nat)
    requires IsRun(r) && i < |r.ops|
    ensures |r.states| == |r.ops| + 1
    ensures WellFormed(r.states[i]) && Legal(r.states[i], r.ops[i])
    ensures r.states[i + 1] == Step(r.states[i], r.ops[i])
  {
  }

  lemma SleeperAdvances(r: Run, k: nat, t: Tid)
    requires IsRun(r) && k < |r.ops|
    ensures r.states[k].ticks <= r.states[k + 1].ticks
    ensures t in r.states[k].sleeping ==> SleepsOrDue(r.states[k], r.states[k + 1], t)
  {
    RunStep(r, k);
    InvAlways(r, k);
    hide IsRun, Inv, Legal, Step, WellFormed;
    StepClock(r.states[k], r.ops[k]);
    if t in r.states[k].sleeping {
      StepSleeper(r.states[k], r.ops[k], t);
    }
  }

  /** From `i` to `j` thread `t` is asleep with the same wake-up time, or that time has come. */
  lemma {:induction false} AsleepUntilDue(r: Run, i: nat, j: nat, t: Tid)
    requires IsRun(r) && i <= j < |r.states| == |r.ops| + 1
    requires t in r.states[i].sleeping && t in r.states[i].threads
    ensures (t in r.states[j].sleeping && t in r.states[j].threads
             && r.states[j].threads[t].endTick == r.states[i].threads[t].endTick)
         || r.states[i].threads[t].endTick <= r.states[j].ticks
  {
    hide IsRun;
    if i < j {
      AsleepUntilDue(r, i, j - 1, t);
      SleeperAdvances(r, j - 1, t);
    }
  }

  /** Sleep is never short: whenever a thread that went to sleep runs again, its wake-up
      tick has been reached. */
  lemma SleepNeverShort(r: Run, i: nat, j: nat, t: Tid)
    requires IsRun(r) && i <= j < |r.states| && t in r.states[i].sleeping
    requires r.states[j].cur == t
    ensures t in r.states[i].threads && r.states[i].threads[t].endTick <= r.states[j].ticks
  {
    InvAlways(r, i);
    SleepFact(r.states[i], t);
    AsleepUntilDue(r, i, j, t);
    InvAlways(r, j);
    if t in r.states[j].sleeping {
      SleepFact(r.states[j], t);
    }
  }

  /** Lateness is bounded: a thread is never still asleep TIME_SLICE - 1 ticks after its
      wake-up tick, and the schedule() that wakes it happens before TIME_SLICE ticks have
      passed. */
  lemma SleepBoundedLateness(r: Run, i: nat, t: Tid)
    requires IsRun(r) && i < |r.states| && t in r.states[i].sleeping
    ensures t in r.states[i].threads
    ensures r.states[i].ticks <= r.states[i].threads[t].endTick + TIME_SLICE - 2
    ensures i < |r.ops| && t !in r.states[i + 1].sleeping ==>
              r.states[i].threads[t].endTick <= r.states[i + 1].ticks <= r.states[i].threads[t].endTick + TIME_SLICE - 1
  {
    InvAlways(r, i);
    SleepFact(r.states[i], t);
    assert SleepBound(r.states[i]);
    hide Core, Legal, Step, WellFormed;
    if i < |r.ops| {
      StepClock(r.states[i], r.ops[i]);
      StepSleeper(r.states[i], r.ops[i], t);
    }
  }

  /** A thread that asks to sleep until `end` is asleep until exactly that tick, or, when that
      tick has come, is not asleep at all after the same schedule(). */
  lemma SleepStarts(s: State, end: int)
    requires Inv(s) && WellFormed(s) && Legal(s, SleepUntil(end))
    ensures var n := Step(s, SleepUntil(end));
            && n.ticks == s.ticks && s.cur in n.threads
            && (s.cur in n.sleeping <==> end > s.ticks)
            && (end > s.ticks ==> n.threads[s.cur].endTick == end && n.cur != s.cur)
  {
    hide Inv, WellFormed, Schedule;
    CallerAwake(s);
    WellFormedLinked(s);
    var m := PutToSleep(s, end);
    assert s.cur in m.sleeping && m.threads[s.cur].endTick == end;
    SleeperAfter(m, s.cur);
    if end > s.ticks {
      NotChosen(m, s.cur);
    }
  }

  /** schedule() leaves exactly the sleepers asleep that are not due. */
  lemma SleeperAfter(m: State, t: Tid)
    requires Linked(m) && t in m.sleeping && t in m.threads && m.threads[m.cur].status != Dying
    ensures var n := Schedule(m);
            && t in n.threads && (t in n.sleeping <==> !Due(m, t))
            && (!Due(m, t) ==> n.threads[t].endTick == m.threads[t].endTick)
  {
    hide RemoveAt;
    WakeSleepersLinks(m);
  }

  lemma CallerAwake(s: State)
    requires Inv(s)
    ensures s.cur in s.threads && s.cur !in s.ready && s.cur !in s.sleeping && s.threads[s.cur].status == Running
  {
    hide LockInv, WaitInv, NoLostWakeup, PriorityInv, DyingInv, MaxWaiterInv;
  }

  /** schedule() does not choose a thread that goes on sleeping. */
  lemma NotChosen(m: State, t: Tid)
    requires Linked(m) && t in m.sleeping && !Due(m, t) && t !in m.ready && t != m.idle
    ensures Schedule(m).cur != t
  {
    hide RemoveAt, FirstMax;
    WakeSleepersLinks(m);
    var w := WakeSleepers(m);
    assert t !in w.ready;
    if w.ready != [] {
      assert w.ready[FirstMax(w.threads, w.ready)] in w.ready;
    }
  }

  lemma {:induction false} ClockRuns(r: Run, i: nat, j: nat)
    requires IsRun(r) && i <= j < |r.states|
    ensures r.states[i].ticks <= r.states[j].ticks
  {
    hide IsRun;
    if i < j {
      ClockRuns(r, i, j - 1);
      RunLengths(r);
      SleeperAdvances(r, j - 1, 0);
    }
  }

  lemma RunLengths(r: Run)
    requires IsRun(r)
    ensures |r.states| == |r.ops| + 1
  {
  }

  lemma SleepingKnown(r: Run, i: nat, t: Tid)
    requires IsRun(r) && i < |r.states| && t in r.states[i].sleeping
    ensures t in r.states[i].threads
  {
    hide IsRun;
    InvAlways(r, i);
    SleepFact(r.states[i], t);
  }

  /** timer_sleep() is never short: a thread that asked to sleep until `end` does not run again
      before that tick. */
  lemma SleepsAsAsked(r: Run, i: nat, j: nat, end: int)
    requires IsRun(r) && i < j < |r.states| && r.ops[i] == SleepUntil(end) && r.states[j].cur == r.states[i].cur
    ensures end <= r.states[j].ticks
  {
    var t := r.states[i].cur;
    RunStep(r, i);
    InvAlways(r, i);
    ClockRuns(r, i, j);
    hide IsRun, Inv, Legal, WellFormed, Step;
    SleepStarts(r.states[i], end);
    if end > r.states[i].ticks {
      SleepNeverShort(r, i + 1, j, t);
    }
  }

  /** Nor is it late by a time slice: while the thread is asleep fewer than TIME_SLICE - 1 ticks
      have passed since the tick that it asked for. */
  lemma SleepsNoLonger(r: Run, i: nat, j: nat, end: int)
    requires IsRun(r) && i < j < |r.states| && r.ops[i] == SleepUntil(end)
    requires forall k :: i < k <= j ==> r.states[i].cur in r.states[k].sleeping
    ensures r.states[j].ticks <= end + TIME_SLICE - 2
    ensures j < |r.ops| && r.states[i].cur !in r.states[j + 1].sleeping ==>
              end <= r.states[j + 1].ticks <= end + TIME_SLICE - 1
  {
    var t := r.states[i].cur;
    RunStep(r, i);
    InvAlways(r, i);
    hide Inv, Legal, WellFormed, Step;
    SleepStarts(r.states[i], end);
    SameWakeUp(r, i + 1, j, t);
    SleepBoundedLateness(r, j, t);
  }

  lemma {:induction false} SameWakeUp(r: Run, i: nat, j: nat, t: Tid)
    requires IsRun(r) && i <= j < |r.states| && forall k :: i <= k <= j ==> t in r.states[k].sleeping
    ensures t in r.states[i].threads && t in r.states[j].threads
    ensures r.states[j].threads[t].endTick == r.states[i].threads[t].endTick
  {
    hide IsRun;
    SleepingKnown(r, i, t);
    if i < j {
      SameWakeUp(r, i, j - 1, t);
      RunLengths(r);
      SleeperAdvances(r, j - 1, t);
    }
  }

  // ----- Donation, over whole operations -----

  /** schedule() changes no priority and, unless the caller is dying, forgets no thread. */
  lemma SchedulePriorities(s: State, t: Tid)
    requires Linked(s) && s.threads[s.cur].status != Dying && t in s.threads
    ensures var n := Schedule(s);
            && t in n.threads
            && n.threads[t].priority == s.threads[t].priority
            && n.threads[t].basePriority == s.threads[t].basePriority
            && n.threads[t].heldLocks == s.threads[t].heldLocks
  {
    WakeSleepersLinks(s);
  }

  lemma WaitersExist(s: State, x: SemaId)
    requires WellFormed(s) && x in s.semas
    ensures Linked(s) && forall t :: t in s.semas[x].waiters ==> t in s.threads
  {
  }

  lemma RequeueLinked(v: State)
    requires Linked(v)
    ensures Linked(Requeue(v))
  {
  }

  lemma DownPriorities(s: State, x: SemaId, t: Tid)
    requires WellFormed(s) && x in s.semas && t in s.threads
    ensures t in DownFrom(s, x).threads && DownFrom(s, x).threads[t].priority == s.threads[t].priority
  {
    hide Schedule, JoinWaiters;
    WaitersExist(s, x);
    JoinShape(s, x);
    if s.semas[x].value == 0 {
      SchedulePriorities(JoinWaiters(s, x), t);
    }
  }

  /** Nested donation: after lock_acquire() every holder on the chain of locks behind `x`
      has the caller's priority, whether or not the caller had to wait, and no other
      priority has moved. */
  lemma AcquireDonates(s: State, x: SemaId, t: Tid)
    requires Inv(s) && WellFormed(s) && Legal(s, LockAcquire(x)) && t in s.threads
    ensures var p := s.threads[s.cur].priority; var n := Step(s, LockAcquire(x));
            && t in n.threads
            && n.threads[t].priority == (if t in Chain(s, Some(x), p, {}) then p else s.threads[t].priority)
            && n.threads[t].priority >= s.threads[t].priority
  {
    var p := s.threads[s.cur].priority;
    var r := AfterDonation(s, x);
    RaisedWellFormed(s, r, Chain(s, Some(x), p, {}), p);
    DonationTerminatesIff(s, x, p);
    hide Inv, DownFrom;
    DownPriorities(r, x, t);
  }

  lemma UpPriorities(s: State, x: SemaId, t: Tid)
    requires WellFormed(s) && x in s.semas && t in s.threads
    ensures var n := UpFrom(s, x);
            && t in n.threads
            && n.threads[t].priority == s.threads[t].priority
            && n.threads[t].basePriority == s.threads[t].basePriority
            && n.threads[t].heldLocks == s.threads[t].heldLocks
  {
    hide Schedule, WakeAndRaise, RemoveAt;
    WaitersExist(s, x);
    WakeShape(s, x);
    RequeueLinked(WakeAndRaise(s, x));
    SchedulePriorities(Requeue(WakeAndRaise(s, x)), t);
  }

  /** `th` holds `held` without `x`, at the largest of its base priority and the
      max_waiter_priority of the locks it still holds. */
  ghost predicate RestoredTo(s: State, th: Thread, held: seq<SemaId>, x: SemaId) {
    && (forall y :: y in th.heldLocks <==> y in held && y != x)
    && (forall y :: y in th.heldLocks ==> y in s.locks && s.locks[y].maxWaiterPriority <= th.priority)
    && th.priority >= th.basePriority
    && (th.priority == th.basePriority ||
        exists y :: y in th.heldLocks && y in s.locks && s.locks[y].maxWaiterPriority == th.priority)
  }

  lemma DropLockRestores(s: State, x: SemaId)
    requires s.cur in s.threads && x in s.locks
    requires forall y :: y in s.threads[s.cur].heldLocks ==> y in s.locks
    ensures RestoredTo(s, DropLock(s, x).threads[s.cur], s.threads[s.cur].heldLocks, x)
  {
    var held := s.threads[s.cur].heldLocks;
    var th := DropLock(s, x).threads[s.cur];
    FilterElements(held, y => y != x);
    if th.priority != th.basePriority {
      var y :| y in held && y != x && s.locks[y].maxWaiterPriority == th.priority;
      assert y in th.heldLocks;
    }
  }

  /** lock_release() leaves the caller with the remaining locks and with the largest of its
      base priority and the max_waiter_priority of those locks. */
  lemma ReleaseRestores(s: State, x: SemaId)
    requires WellFormed(s) && Legal(s, LockRelease(x))
    ensures s.cur in Step(s, LockRelease(x)).threads
    ensures Step(s, LockRelease(x)).threads[s.cur].basePriority == s.threads[s.cur].basePriority
    ensures RestoredTo(s, Step(s, LockRelease(x)).threads[s.cur], s.threads[s.cur].heldLocks, x)
  {
    DropLockWellFormed(s, x);
    DropLockRestores(s, x);
    assert s.locks.Keys <= s.semas.Keys;
    hide WellFormed, UpFrom, RestoredTo, DownFrom, AcquireFrom, ResumeFrom, Tick;
    UpPriorities(DropLock(s, x), x, s.cur);
    RestoredFrame(s, DropLock(s, x).threads[s.cur], Step(s, LockRelease(x)).threads[s.cur],
                  s.threads[s.cur].heldLocks, x);
  }

  lemma RestoredFrame(s: State, th: Thread, th': Thread, held: seq<SemaId>, x: SemaId)
    requires RestoredTo(s, th, held, x)
    requires th'.priority == th.priority && th'.basePriority == th.basePriority && th'.heldLocks == th.heldLocks
    ensures RestoredTo(s, th', held, x)
  {
  }

  // ----- Priorities that threads get -----

  /** thread_set_priority() sets the base priority.  A thread that runs on a donation keeps it
      unless the new base is higher; any other thread runs at the new base.  No other thread
      changes. */
  lemma SetPrioritySets(s: State, p: int, t: Tid)
    requires Inv(s) && WellFormed(s) && Legal(s, SetPriority(p)) && t in s.threads
    ensures var th, n := s.threads[t], Step(s, SetPriority(p));
            && t in n.threads
            && (t != s.cur ==> n.threads[t].priority == th.priority && n.threads[t].basePriority == th.basePriority)
            && (t == s.cur ==> n.threads[t].basePriority == p && n.threads[t].priority >= p)
            && (t == s.cur && th.priority == th.basePriority ==> n.threads[t].priority == p)
            && (t == s.cur && th.priority > th.basePriority ==>
                  n.threads[t].priority >= th.priority
                  && (n.threads[t].priority == th.priority || n.threads[t].priority == p))
  {
    hide Inv, WellFormed, Schedule;
    BaseBelow(s);
    WellFormedLinked(s);
    var m := Requeue(WithPriority(s, p));
    SchedulePriorities(m, t);
  }

  lemma BaseBelow(s: State)
    requires Inv(s)
    ensures s.cur in s.threads && s.threads[s.cur].basePriority <= s.threads[s.cur].priority
  {
    hide Links, LockInv, WaitInv, NoLostWakeup, DyingInv, MaxWaiterInv;
  }

  /** thread_create() gives the new thread the priority it is asked for, and changes that of no
      other thread; the thread keeps it when it is made ready. */
  lemma NewThreadHas(s: State, t: Tid, p: int)
    requires WellFormed(s) && Legal(s, InitThread(t, p))
    ensures var n := Step(s, InitThread(t, p));
            && t in n.threads && n.threads[t].priority == p && n.threads[t].basePriority == p
            && n.threads[t].heldLocks == [] && n.threads[t].waitingLock.None? && n.threads[t].status == Blocked
            && forall u :: u in s.threads ==> u in n.threads && n.threads[u] == s.threads[u]
  {
    hide WellFormed;
  }

  lemma StartKeepsPriority(s: State, t: Tid, u: Tid)
    requires WellFormed(s) && Legal(s, StartThread(t)) && s.threads[s.cur].status == Running && u in s.threads
    ensures var n := Step(s, StartThread(t));
            u in n.threads && n.threads[u].priority == s.threads[u].priority
              && n.threads[u].basePriority == s.threads[u].basePriority
  {
    hide WellFormed, Schedule;
    WellFormedLinked(s);
    SchedulePriorities(Requeue(MakeReady(s, t)), u);
  }

  // ----- The hanging donation is reachable -----

  function Plain(status: Status, priority: int, endTick: int, held: seq<SemaId>): Thread {
    Thread(status, priority, priority, endTick, held, None, AtUser)
  }

  /** The states of a kernel with one lock: the threads, the run queue, the lock's holder and
      the running thread differ. */
  function OneLock(threads: map<Tid, Thread>, ready: seq<Tid>, holder: Option<Tid>, cur: Tid): State {
    State(threads, ready, [], map[0 := Semaphore(if holder.Some? then 0 else 1, [])], map[0 := Lock(holder, -1)],
          cur, 1, 0, 0, 0)
  }

  const IDLE: Thread := Plain(Ready, PRI_MIN, -1, [])

  /** Thread 2 has been created but not started. */
  function Created(): State {
    OneLock(map[0 := Plain(Running, PRI_DEFAULT, 0, [0]), 1 := IDLE, 2 := FreshThread(PRI_DEFAULT)], [], Some(0), 0)
  }

  /** The starting thread and the new one are ready, the new one first. */
  function BothReady(): State {
    Requeue(MakeReady(Created(), 2))
  }

  /** Thread 0 acquires lock 0, creates thread 2 at its own priority, and thread 2 is chosen. */
  function Contention(): (r: Run)
    ensures |r.states| == 4 && |r.ops| == 3
  {
    var v := BothReady();
    Run([OneLock(map[0 := Plain(Running, PRI_DEFAULT, 0, []), 1 := IDLE], [], None, 0),
         OneLock(map[0 := Plain(Running, PRI_DEFAULT, 0, [0]), 1 := IDLE], [], Some(0), 0),
         Created(),
         v.(threads := v.threads[2 := v.threads[2].(status := Running)], ready := [0], cur := 2, slice := 0)],
        [LockAcquire(0), InitThread(2, PRI_DEFAULT), StartThread(2)])
  }

  lemma ContentionBoots()
    ensures Contention().states[0] == Boot(map[0 := 1], {0})
  {
  }

  lemma FirstAcquire(s: State)
    requires s == Contention().states[0] && WellFormed(s)
    ensures Legal(s, LockAcquire(0)) && Step(s, LockAcquire(0)) == Contention().states[1]
  {
    hide WellFormed, DonationWalk, RaisedTo;
    FreeLockWalk(s, 0);
    var n := TakeDown(s, 0);
    assert n.threads[0].heldLocks == [0];
    assert n == Contention().states[1];
  }

  /** A free lock has no chain. */
  lemma FreeLockWalk(s: State, x: SemaId)
    requires WellFormed(s) && x in s.locks && s.locks[x].holder.None?
    ensures ChainBelow(s, Some(x), s.threads[s.cur].priority, {}) && AfterDonation(s, x) == s
  {
    hide WellFormed, RaisedTo;
    assert Finished(Walk(s, Some(x)));
  }

  lemma SecondThreadRuns(s: State)
    requires s == Contention().states[2] && WellFormed(s)
    ensures Legal(s, StartThread(2)) && Step(s, StartThread(2)) == Contention().states[3]
  {
    hide WellFormed, Schedule;
    WellFormedLinked(s);
    assert BothReady().ready == [2, 0];
    ChoosesFirst(BothReady());
  }

  /** schedule() with nobody asleep and the first ready thread of highest priority. */
  lemma ChoosesFirst(v: State)
    requires Linked(v) && v.sleeping == [] && |v.ready| == 2 && v.threads[v.cur].status != Dying
    requires v.threads[v.ready[1]].priority <= v.threads[v.ready[0]].priority
    ensures Schedule(v) == v.(threads := v.threads[v.ready[0] := v.threads[v.ready[0]].(status := Running)],
                              ready := [v.ready[1]], cur := v.ready[0], slice := 0)
  {
    var w := WakeSleepers(v);
    assert DueIn(v, []) == [] && NotDueIn(v, []) == [];
    assert w.threads == v.threads && w.ready == v.ready;
    assert w == v;
    assert FirstMax(v.threads, v.ready) == 0;
    assert RemoveAt(v.ready, 0) == [v.ready[1]];
  }

  lemma ContentionRuns()
    ensures IsRun(Contention()) && Inv(Contention().states[3])
  {
    hide Inv, Step, Legal, WellFormed, Core, Boot;
    var r := Contention();
    ContentionBoots();
    BootSatisfiesInv(map[0 := 1], {0});
    InvWellFormed(r.states[0]);
    FirstAcquire(r.states[0]);
    StepKeepsInv(r.states[0], r.ops[0]);
    InvWellFormed(r.states[1]);
    SecondCreated(r.states[1]);
    StepKeepsInv(r.states[1], r.ops[1]);
    InvWellFormed(r.states[2]);
    SecondThreadRuns(r.states[2]);
    StepKeepsInv(r.states[2], r.ops[2]);
  }

  lemma InvWellFormed(s: State)
    requires Inv(s)
    ensures WellFormed(s)
  {
    CoreWellFormed(s);
  }

  lemma SecondCreated(s: State)
    requires s == Contention().states[1] && WellFormed(s)
    ensures Legal(s, InitThread(2, PRI_DEFAULT)) && Step(s, InitThread(2, PRI_DEFAULT)) == Contention().states[2]
  {
    hide WellFormed;
  }

  /** A run of three operations reaches a state in which lock_acquire() never returns: the
      caller and the holder have the same priority. */
  lemma SpinReachable(n: nat)
    ensures var r := Contention();
            && IsRun(r)
            && var s := r.states[3];
               && s.cur in s.threads && 0 in s.locks && s.locks[0].holder == Some(0) && s.cur == 2
               && s.threads[s.cur].pc == AtUser && s.threads[0].priority == s.threads[s.cur].priority
               && !Finished(Iterate(Walk(s, Some(0)), s.threads[s.cur].priority, n))
  {
    hide IsRun, Inv, Iterate;
    ContentionRuns();
    var s := Contention().states[3];
    EqualPriorityContentionSpins(s, 0, s.threads[s.cur].priority, n);
  }
}
