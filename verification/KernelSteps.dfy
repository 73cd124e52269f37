/** The kernel as a state machine: the operations a running thread or the timer can start,
    what the kernel demands of their callers, and the state each leaves behind. */
module KernelSteps {

  import opened Lists
  import opened Threads
  import opened Synch
  import opened Donation

  datatype Op =
    | SemaDown(x: SemaId)
    | SemaTryDown(x: SemaId)
    | SemaUp(x: SemaId)
    | LockAcquire(x: SemaId)
    | LockRelease(x: SemaId)
    | Resume                               // a chosen thread continues inside sema_down_internal()
    | SleepUntil(end: int)                 // thread_yield_for_seconds()
    | SetPriority(p: int)
    | InitThread(t: Tid, p: int)           // first half of thread_create()
    | StartThread(t: Tid)                  // second half of thread_create()
    | Yield
    | Exit
    | IdleBlock                            // the body of the idle thread
    | TimerTick                            // timer_interrupt() on the running thread

  predicate IsSemaOp(op: Op) {
    op.SemaDown? || op.SemaTryDown? || op.SemaUp?
  }

  /** The operations of synch.c. */
  predicate IsSynchOp(op: Op) {
    IsSemaOp(op) || op.LockAcquire? || op.LockRelease? || op.Resume?
  }

  /** What the ASSERTs and the interface demand of the caller. A thread inside
      sema_down_internal() runs with interrupts off, so it continues there and nothing else
      happens first. lock_acquire() is admitted when its donation walk ends. */
  ghost predicate Legal(s: State, op: Op)
    requires s.cur in s.threads
  {
    && (s.threads[s.cur].pc.InDown? <==> op.Resume?)
    && (s.cur == s.idle ==> op.IdleBlock? || op.TimerTick?)
    && match op
       case SemaDown(x) => x in s.semas && x !in s.locks
       case SemaTryDown(x) => x in s.semas && x !in s.locks
       case SemaUp(x) => x in s.semas && x !in s.locks
       case LockAcquire(x) =>
         && x in s.locks && s.locks[x].holder != Some(s.cur)
         && ChainBelow(s, Some(x), s.threads[s.cur].priority, {})
       case LockRelease(x) => x in s.locks && s.locks[x].holder == Some(s.cur)
       case Resume => true
       case SleepUntil(end) => end >= 0
       case SetPriority(p) => PRI_MIN <= p
       case InitThread(t, p) => t !in s.threads && PRI_MIN <= p <= PRI_MAX
       case StartThread(t) => t in s.threads && s.threads[t].pc.Fresh?
       case Yield => true
       case Exit => s.threads[s.cur].heldLocks == []
       case IdleBlock => s.cur == s.idle
       case TimerTick => true
  }

  /** The state after lock_acquire()'s donation walk. */
  ghost function AfterDonation(s: State, x: SemaId): (r: State)
    requires WellFormed(s) && x in s.locks && ChainBelow(s, Some(x), s.threads[s.cur].priority, {})
    ensures RaisedTo(s, r, Chain(s, Some(x), s.threads[s.cur].priority, {}), s.threads[s.cur].priority)
  {
    DonationTerminatesIff(s, x, s.threads[s.cur].priority);
    DonationWalk(Walk(s, Some(x)), s.threads[s.cur].priority).value
  }

  ghost function Tick(s: State): (n: State)
    requires Linked(s)
    ensures n.ticks == s.ticks + 1
  {
    var ticked := s.(ticks := s.ticks + 1, slice := s.slice + 1);
    if ticked.slice >= TIME_SLICE then YieldCpu(ticked) else ticked
  }

  lemma RaisedWellFormed(s: State, r: State, raised: set<Tid>, p: int)
    requires WellFormed(s) && RaisedTo(s, r, raised, p)
    ensures WellFormed(r)
  {
  }

  lemma LeaveBlockWellFormed(s: State, x: SemaId)
    requires WellFormed(s)
    ensures WellFormed(LeaveBlock(s, x))
  {
  }

  ghost function UpFrom(s: State, x: SemaId): (n: State)
    requires WellFormed(s) && x in s.semas
    ensures n.ticks == s.ticks
  {
    YieldCpu(WakeAndRaise(s, x))
  }

  lemma DropLockShape(s: State, x: SemaId)
    requires s.cur in s.threads && x in s.locks && forall y :: y in s.threads[s.cur].heldLocks ==> y in s.locks
    ensures var n := DropLock(s, x);
            && n == s.(threads := n.threads, locks := s.locks[x := s.locks[x].(holder := None)])
               && n.threads.Keys == s.threads.Keys
            && (forall t :: t in s.threads && t != s.cur ==> n.threads[t] == s.threads[t])
            && n.threads[s.cur]
               == s.threads[s.cur].(priority := n.threads[s.cur].priority, heldLocks := n.threads[s.cur].heldLocks)
            && (forall y :: y in n.threads[s.cur].heldLocks ==> y in s.threads[s.cur].heldLocks)
  {
    hide RestoredPriority;
    FilterElements(s.threads[s.cur].heldLocks, y => y != x);
  }

  lemma DropLockWellFormed(s: State, x: SemaId)
    requires WellFormed(s) && x in s.locks
    ensures WellFormed(DropLock(s, x))
  {
    hide DropLock;
    DropLockShape(s, x);
  }

  ghost function ReleaseFrom(s: State, x: SemaId): (n: State)
    requires WellFormed(s) && x in s.locks
    ensures n.ticks == s.ticks
  {
    DropLockWellFormed(s, x);
    UpFrom(DropLock(s, x), x)
  }

  ghost function AcquireFrom(s: State, x: SemaId): (n: State)
    requires WellFormed(s) && x in s.locks && ChainBelow(s, Some(x), s.threads[s.cur].priority, {})
    ensures n.ticks == s.ticks
  {
    var p := s.threads[s.cur].priority;
    RaisedWellFormed(s, AfterDonation(s, x), Chain(s, Some(x), p, {}), p);
    DownFrom(AfterDonation(s, x), x)
  }

  ghost function ResumeFrom(s: State): (n: State)
    requires WellFormed(s) && s.threads[s.cur].pc.InDown?
    ensures n.ticks == s.ticks
  {
    var x := s.threads[s.cur].pc.sema;
    LeaveBlockWellFormed(s, x);
    DownFrom(LeaveBlock(s, x), x)
  }

  /** thread_create() once init_thread() is done, up to thread_yield(). */
  function MakeReady(s: State, t: Tid): State
    requires t in s.threads
  {
    Unblock(SetThread(s, t, s.threads[t].(endTick := -1, pc := AtUser)), t)
  }

  ghost function StartFrom(s: State, t: Tid): (n: State)
    requires Linked(s) && t in s.threads
    ensures n.ticks == s.ticks
  {
    YieldCpu(MakeReady(s, t))
  }

  function WithPriority(s: State, p: int): State
    requires s.cur in s.threads
  {
    SetThread(s, s.cur, Reprioritize(s.threads[s.cur], p))
  }

  ghost function SetPriorityFrom(s: State, p: int): (n: State)
    requires Linked(s)
    ensures n.ticks == s.ticks
  {
    YieldCpu(WithPriority(s, p))
  }

  ghost function SleepFrom(s: State, end: int): (n: State)
    requires Linked(s)
    ensures n.ticks == s.ticks
  {
    Schedule(PutToSleep(s, end))
  }

  ghost function LeaveCpu(s: State, status: Status): (n: State)
    requires Linked(s)
    ensures n.ticks == s.ticks
  {
    Schedule(SetStatus(s, status))
  }

  lemma WellFormedLinked(s: State)
    requires WellFormed(s)
    ensures Linked(s)
  {
  }

  ghost function Step(s: State, op: Op): State
    requires WellFormed(s) && Legal(s, op)
  {
    WellFormedLinked(s);
    match op
    case SemaDown(x) => DownFrom(s, x)
    case SemaTryDown(x) => if s.semas[x].value > 0 then TakeDown(s, x) else s
    case SemaUp(x) => UpFrom(s, x)
    case LockAcquire(x) => AcquireFrom(s, x)
    case LockRelease(x) => ReleaseFrom(s, x)
    case Resume => ResumeFrom(s)
    case SleepUntil(end) => SleepFrom(s, end)
    case SetPriority(p) => SetPriorityFrom(s, p)
    case InitThread(t, p) => SetThread(s, t, FreshThread(p))
    case StartThread(t) => StartFrom(s, t)
    case Yield => YieldCpu(s)
    case Exit => LeaveCpu(s, Dying)
    case IdleBlock => LeaveCpu(s, Blocked)
    case TimerTick => Tick(s)
  }
}
