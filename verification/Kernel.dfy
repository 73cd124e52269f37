/** The kernel's operations as code that updates its variables in place, with the loops of
    threads/thread.c, threads/synch.c and devices/timer.c.  Each method is proved against
    the function on the kernel state that the run theorems are about, up to the next
    context switch: what happens before the calling thread runs again is another
    operation. */
module Kernel {

  import opened Lists
  import opened Threads
  import opened Synch
  import opened Invariant
  import opened Donation
  import opened KernelSteps

  /** What schedule() relies on. */
  ghost predicate Schedulable(s: State) {
    && Linked(s)
    && NoDup(s.sleeping)
    && (forall t :: t in s.sleeping ==> t in s.threads && s.threads[t].status == Blocked && s.threads[t].endTick >= 0)
    && (forall t :: t in s.threads ==> s.threads[t].priority >= PRI_MIN)
  }

  /** What the methods below need beside the conditions that `Legal` puts on their callers:
      every state of a run has it. */
  lemma CoreSchedulable(s: State)
    requires Core(s) && s.threads[s.cur].status == Running
    ensures Schedulable(s) && WellFormed(s) && s.threads[s.cur].basePriority >= PRI_MIN && !s.threads[s.cur].pc.Fresh?
    ensures forall x, t :: x in s.semas && t in s.semas[x].waiters ==>
              t in s.threads && s.threads[t].status == Blocked && t !in s.sleeping && t != s.cur
    ensures forall t :: t in s.threads && s.threads[t].pc.Fresh? ==> s.threads[t].status == Blocked && t !in s.sleeping
  {
    CoreWellFormed(s);
  }

  lemma RunningNow(s: State)
    requires Inv(s)
    ensures Core(s) && s.cur in s.threads && s.threads[s.cur].status == Running
  {
  }

  /** A successful sema_try_down() changes nothing but the value. */
  lemma TrySame(s: State, x: SemaId)
    requires s.cur in s.threads && s.threads[s.cur].pc == AtUser && x in s.semas && x !in s.locks
    requires !s.threads[s.cur].pc.InDown?
    ensures s.semas[x].value > 0 ==>
            TakeDown(s, x) == s.(semas := s.semas[x := s.semas[x].(value := s.semas[x].value - 1)])
  {
  }

  class Kernel {
    var threads: map<Tid, Thread>
    var readyList: seq<Tid>
    var sleepList: seq<Tid>
    var semas: map<SemaId, Semaphore>
    var locks: map<SemaId, Lock>
    var current: Tid
    var idleThread: Tid
    var initialThread: Tid
    var ticks: nat
    var threadTicks: nat

    function St(): State
      reads this
    {
      State(threads, readyList, sleepList, semas, locks, current, idleThread, initialThread, ticks, threadTicks)
    }

    constructor (s: State)
      ensures St() == s
    {
      threads, readyList, sleepList, semas, locks := s.threads, s.ready, s.sleeping, s.semas, s.locks;
      current, idleThread, initialThread := s.cur, s.idle, s.initial;
      ticks, threadTicks := s.ticks, s.slice;
    }

    // ----- thread.c -----

    /** thread_unblock(). */
    method ThreadUnblock(t: Tid)
      requires t in threads && threads[t].status == Blocked
      modifies this`threads, this`readyList
      ensures threads == old(threads)[t := old(threads)[t].(status := Ready)]
      ensures readyList == old(readyList) + [t]
    {
      readyList := readyList + [t];
      threads := threads[t := threads[t].(status := Ready)];
    }

    /** The scan that next_thread_to_run() and sema_up_internal() share: the first element
        of the list whose priority exceeds that of all before it, starting from -1. */
    method ScanForMax(q: seq<Tid>) returns (k: Option<nat>)
      requires forall t :: t in q ==> t in threads
      ensures k.Some? <==> exists t :: t in q && threads[t].priority >= PRI_MIN
      ensures k.Some? ==> q != [] && k.value == FirstMax(threads, q)
    {
      hide FirstMax;
      var max := -1;
      k := None;
      var i := 0;
      while i < |q|
        invariant 0 <= i <= |q|
        invariant k.None? ==> max == -1 && forall j :: 0 <= j < i ==> threads[q[j]].priority < PRI_MIN
        invariant k.Some? ==> k.value < i && max == threads[q[k.value]].priority >= PRI_MIN
        invariant k.Some? ==> forall j :: 0 <= j < i ==> threads[q[j]].priority <= max
        invariant k.Some? ==> forall j :: 0 <= j < k.value ==> threads[q[j]].priority < max
      {
        assert q[i] in q;
        if threads[q[i]].priority > max {
          max, k := threads[q[i]].priority, Some(i);
        }
        i := i + 1;
      }
      if k.Some? {
        assert q[k.value] in q;
        FirstMaxIs(threads, q, k.value);
      }
    }

    /** next_thread_to_run(). */
    method NextThreadToRun() returns (next: Tid)
      requires forall t :: t in readyList ==> t in threads && threads[t].priority >= PRI_MIN
      modifies this`readyList
      ensures (St(), next) == TakeNext(old(St()))
    {
      if readyList == [] {
        next := idleThread;
      } else {
        assert readyList[0] in readyList;
        var r := ScanForMax(readyList);
        var k := r.value;
        next := readyList[k];
        readyList := readyList[..k] + readyList[k + 1..];
      }
    }

    /** The body of the sweep in schedule() for a thread that is due. */
    method WakeOne(t: Tid)
      requires t in threads && threads[t].status == Blocked
      modifies this`threads, this`readyList
      ensures threads == old(threads)[t := old(threads)[t].(status := Ready, endTick := -1)]
      ensures readyList == old(readyList) + [t]
    {
      threads := threads[t := threads[t].(endTick := -1)];
      ThreadUnblock(t);
    }

    /** The sweep over sleep_list in schedule(): elements are removed while iterating. */
    method WakeDueThreads()
      requires Schedulable(St())
      modifies this`threads, this`readyList, this`sleepList
      ensures St() == WakeSleepers(old(St()))
    {
      hide WakeSleepers, Schedulable, Sweeping;
      ghost var s := St();
      var all := sleepList;
      SweepStarts(s);
      var kept := [];                    // elements passed and left in place
      var i := 0;
      while i < |all|
        invariant 0 <= i <= |all| && Sweeping(s, St(), kept, i)
      {
        var t := all[i];
        SweepStep(s, St(), kept, i);
        if threads[t].endTick <= ticks {
          sleepList := kept + all[i + 1..];
          WakeOne(t);
        } else {
          kept := kept + [t];
        }
        i := i + 1;
      }
      SweepEnds(s, St(), kept);
    }

    /** schedule() and thread_schedule_tail(). */
    method Reschedule()
      requires Schedulable(St()) && threads[current].status != Running
      modifies this
      ensures Linked(old(St())) && St() == Schedule(old(St()))
    {
      hide WakeSleepers, FirstMax, RemoveAt;
      SweptSchedulable(St());
      WakeDueThreads();
      var prev := current;
      var next := NextThreadToRun();
      threads := threads[next := threads[next].(status := Running)];
      current := next;
      threadTicks := 0;
      if prev != next && threads[prev].status == Dying && prev != initialThread {
        threads := threads - {prev};
      }
    }

    /** thread_yield(). */
    method ThreadYield()
      requires Schedulable(St()) && threads[current].status == Running
      modifies this
      ensures Linked(old(St())) && St() == YieldCpu(old(St()))
    {
      if current != idleThread {
        readyList := readyList + [current];
      }
      threads := threads[current := threads[current].(status := Ready)];
      Reschedule();
    }

    /** thread_yield_for_seconds(), reached from timer_sleep(). */
    method ThreadSleepUntil(end: int)
      requires Schedulable(St()) && threads[current].status == Running && end >= 0
      modifies this
      ensures Linked(old(St())) && St() == SleepFrom(old(St()), end)
    {
      SleepSchedulable(St(), end);
      hide Schedulable, Schedule;
      sleepList := sleepList + [current];
      threads := threads[current := threads[current].(endTick := end, status := Blocked)];
      Reschedule();
    }

    /** timer_sleep(). The clock may advance between reading it and going to sleep. */
    method TimerSleep(n: int)
      requires Schedulable(St()) && threads[current].status == Running
      modifies this
      ensures Linked(old(St()))
      ensures St() == SleepFrom(old(St()), old(ticks) + (if n > 0 then n else 0))
    {
      var end := ticks + (if n > 0 then n else 0);
      ThreadSleepUntil(end);
    }

    /** thread_exit(), and with Blocked the idle thread's thread_block(). */
    method ThreadLeave(status: Status)
      requires Schedulable(St()) && threads[current].status == Running && (status == Dying || status == Blocked)
      modifies this
      ensures Linked(old(St())) && St() == LeaveCpu(old(St()), status)
    {
      threads := threads[current := threads[current].(status := status)];
      Reschedule();
    }

    /** thread_set_priority(). */
    method ThreadSetPriority(p: int)
      requires Schedulable(St()) && threads[current].status == Running && PRI_MIN <= p
      modifies this
      ensures Linked(old(St())) && St() == SetPriorityFrom(old(St()), p)
    {
      PrioritySchedulable(St(), p);
      hide Schedulable, YieldCpu;
      var t := threads[current];
      var priority := if t.priority > t.basePriority then if t.priority > p then t.priority else p else p;
      threads := threads[current := t.(priority := priority, basePriority := p)];
      ThreadYield();
    }

    /** init_thread(), as thread_create() calls it. */
    method ThreadInit(t: Tid, p: int)
      requires t !in threads
      modifies this`threads
      ensures St() == SetThread(old(St()), t, FreshThread(p))
    {
      threads := threads[t := FreshThread(p)];
    }

    /** The end of thread_create(). */
    method ThreadStart(t: Tid)
      requires Schedulable(St()) && threads[current].status == Running
      requires t in threads && threads[t].status == Blocked && t !in sleepList
      modifies this
      ensures Linked(old(St())) && St() == StartFrom(old(St()), t)
    {
      hide Schedulable, YieldCpu, Linked;
      StartSchedulable(St(), t);
      threads := threads[t := threads[t].(endTick := -1, pc := AtUser)];
      ThreadUnblock(t);
      ThreadYield();
    }

    /** timer_interrupt() and thread_tick(), with the yield on return. */
    method TimerInterrupt()
      requires Schedulable(St()) && threads[current].status == Running
      modifies this
      ensures Linked(old(St())) && St() == Tick(old(St()))
    {
      hide Schedulable, Linked, YieldCpu;
      ClockSchedulable(St(), St().(ticks := ticks + 1, slice := threadTicks + 1));
      ticks := ticks + 1;
      threadTicks := threadTicks + 1;
      if threadTicks >= TIME_SLICE {
        ThreadYield();
      }
    }

    // ----- synch.c -----

    /** update_lock_max_priority(): from the last waiter to the first. */
    method UpdateLockMaxPriority(x: SemaId)
      requires x in semas && x in locks
      requires forall t :: t in semas[x].waiters ==> t in threads && threads[t].priority >= PRI_MIN
      modifies this`locks
      ensures locks == old(locks)[x := old(locks)[x].(maxWaiterPriority := MaxPriority(threads, semas[x].waiters))]
    {
      var waiters := semas[x].waiters;
      var max := -1;
      var i := |waiters|;
      while i > 0
        invariant 0 <= i <= |waiters|
        invariant max == MaxPriority(threads, waiters[i..])
      {
        i := i - 1;
        assert waiters[i..][1..] == waiters[i + 1..] && waiters[i] in waiters;
        max := if max > threads[waiters[i]].priority then max else threads[waiters[i]].priority;
      }
      assert waiters[0..] == waiters;
      locks := locks[x := locks[x].(maxWaiterPriority := max)];
    }

    /** The loop body of sema_down_internal() up to thread_block(). */
    method EnqueueOnWaiters(x: SemaId)
      requires current in threads && x in semas
      requires forall t :: t in semas[x].waiters + [current] ==> t in threads && threads[t].priority >= PRI_MIN
      modifies this`semas, this`threads, this`locks
      ensures forall t :: t in old(semas)[x].waiters ==> t in old(threads)
      ensures St() == JoinWaiters(old(St()), x)
    {
      hide MaxPriority;
      assert forall t :: t in semas[x].waiters ==> t in semas[x].waiters + [current];
      semas := semas[x := semas[x].(waiters := semas[x].waiters + [current])];
      var th := threads[current];
      if x in locks {
        threads := threads[current := th.(waitingLock := Some(x), pc := InDown(x))];
        UpdateLockMaxPriority(x);
      } else {
        threads := threads[current := th.(pc := InDown(x))];
      }
      threads := threads[current := threads[current].(status := Blocked)];
    }

    /** Leaving the loop of sema_down_internal(), with what lock_acquire() does then. */
    method TakeUnit(x: SemaId)
      requires current in threads && x in semas && semas[x].value > 0
      modifies this`semas, this`threads, this`locks
      ensures St() == TakeDown(old(St()), x)
    {
      semas := semas[x := semas[x].(value := semas[x].value - 1)];
      var th := threads[current].(pc := AtUser);
      if x in locks {
        locks := locks[x := locks[x].(holder := Some(current))];
        th := th.(heldLocks := th.heldLocks + [x]);
      }
      threads := threads[current := th];
    }

    /** sema_down_internal() from a test of the loop condition to the next context switch or
        to its return; for a lock, with what lock_acquire() does after the return. */
    method DownTest(x: SemaId)
      requires WellFormed(St()) && Schedulable(St()) && threads[current].status == Running && x in semas
      modifies this
      ensures WellFormed(old(St())) && St() == DownFrom(old(St()), x)
    {
      JoinSchedulable(St(), x);
      hide Schedulable, Schedule, WellFormed, JoinWaiters, TakeDown;
      if semas[x].value == 0 {
        EnqueueOnWaiters(x);
        Reschedule();
      } else {
        TakeUnit(x);
      }
    }

    /** sema_try_down(). */
    method SemaTryDown(x: SemaId) returns (success: bool)
      requires x in semas
      modifies this`semas
      ensures success <==> old(semas)[x].value > 0
      ensures semas == if success then old(semas)[x := old(semas)[x].(value := old(semas)[x].value - 1)] else old(semas)
    {
      success := semas[x].value > 0;
      if success {
        semas := semas[x := semas[x].(value := semas[x].value - 1)];
      }
    }

    /** The branch of sema_up_internal() for a semaphore with waiters. */
    method WakeBest(x: SemaId)
      requires x in semas && semas[x].waiters != []
      requires forall t :: t in semas[x].waiters ==>
                 t in threads && threads[t].priority >= PRI_MIN && threads[t].status == Blocked
      modifies this`semas, this`threads, this`readyList, this`locks
      ensures var q := old(semas)[x].waiters;
              && (forall t :: t in q ==> t in old(threads))
              && var k := FirstMax(old(threads), q);
              && semas == old(semas)[x := old(semas)[x].(waiters := RemoveAt(q, k))]
              && threads == old(threads)[q[k] := old(threads)[q[k]].(status := Ready)]
              && readyList == old(readyList) + [q[k]]
              && (forall t :: t in RemoveAt(q, k) ==> t in threads)
              && locks == if x in old(locks)
                          then old(locks)[x :=
                                          old(locks)[x].(maxWaiterPriority := MaxPriority(threads, RemoveAt(q, k)))]
                          else old(locks)
    {
      hide MaxPriority, FirstMax;
      var waiters := semas[x].waiters;
      assert waiters[0] in waiters;
      var r := ScanForMax(waiters);
      var k := r.value;
      assert forall t :: t in RemoveAt(waiters, k) ==> t in waiters;
      assert waiters[k] in waiters;
      semas := semas[x := semas[x].(waiters := RemoveAt(waiters, k))];
      ThreadUnblock(waiters[k]);
      if x in locks {
        UpdateLockMaxPriority(x);
      }
    }

    /** sema_up_internal() before thread_yield(). */
    method WakeBestWaiter(x: SemaId)
      requires x in semas
      requires forall t :: t in semas[x].waiters ==>
                 t in threads && threads[t].priority >= PRI_MIN && threads[t].status == Blocked
      modifies this`semas, this`threads, this`readyList, this`locks
      ensures forall t :: t in old(semas)[x].waiters ==> t in old(threads)
      ensures St() == WakeAndRaise(old(St()), x)
    {
      hide MaxPriority, FirstMax, RemoveAt;
      var waiters, value := semas[x].waiters, semas[x].value;
      if waiters == [] {
        semas := semas[x := semas[x].(value := value + 1)];
      } else {
        WakeBest(x);
        semas := semas[x := semas[x].(value := value + 1)];
        assert semas == old(semas)[x := Semaphore(value + 1, RemoveAt(waiters, FirstMax(old(threads), waiters)))];
      }
    }

    /** sema_up_internal(). */
    method SemaUp(x: SemaId)
      requires WellFormed(St()) && Schedulable(St()) && threads[current].status == Running && x in semas
      requires forall t :: t in semas[x].waiters ==> threads[t].status == Blocked && t !in sleepList
      modifies this
      ensures WellFormed(old(St())) && St() == UpFrom(old(St()), x)
    {
      UpSchedulable(St(), x);
      hide Schedulable, YieldCpu, WellFormed, WakeAndRaise;
      WakeBestWaiter(x);
      ThreadYield();
    }

    /** The assignments of that loop. */
    method DonateOnce(x: SemaId, p: int)
      requires x in locks && locks[x].holder.Some? && locks[x].holder.value in threads
      modifies this`threads, this`locks
      ensures St() == Donate(old(St()), x, p)
    {
      var h := locks[x].holder.value;
      locks := locks[x := locks[x].(maxWaiterPriority := p)];
      threads := threads[h := threads[h].(priority := p)];
    }

    /** The loop of lock_acquire() that hands the caller's priority on. */
    method DonatePriority(x: SemaId)
      requires WellFormed(St()) && x in locks
      requires ChainBelow(St(), Some(x), threads[current].priority, {})
      modifies this`threads, this`locks
      ensures WellFormed(old(St())) && St() == AfterDonation(old(St()), x)
    {
      ghost var s := St();
      var p := threads[current].priority;
      hide WellFormed, RaisedTo, ChainBelow, Chain, DonationWalk, HoldersExist, Below, AfterDonation, Donate;
      AfterDonationIs(s, x);
      var tempLock := Some(x);
      while tempLock.Some? && tempLock.value in locks && locks[tempLock.value].holder.Some?
        invariant HoldersExist(St())
        invariant DonationWalk(Walk(St(), tempLock), p) == DonationWalk(Walk(s, Some(x)), p)
        decreases |Below(threads, p)|
      {
        WalkHolder(St(), tempLock.value, p);
        var h := locks[tempLock.value].holder.value;
        if threads[h].priority < p {
          var next := threads[h].waitingLock;
          DonateOnce(tempLock.value, p);
          tempLock := next;
        } else {
          assert false;
        }
      }
      WalkDone(Walk(St(), tempLock), p);
    }

    /** lock_acquire() up to its first context switch or its return. */
    method LockAcquire(x: SemaId)
      requires WellFormed(St()) && Schedulable(St()) && threads[current].status == Running
      requires x in locks && locks[x].holder != Some(current)
      requires ChainBelow(St(), Some(x), threads[current].priority, {})
      modifies this
      ensures WellFormed(old(St())) && St() == AcquireFrom(old(St()), x)
    {
      DonationSchedulable(St(), x);
      hide WellFormed, Schedulable, ChainBelow, DownFrom, AfterDonation;
      DonatePriority(x);
      DownTest(x);
    }

    /** A thread chosen again inside sema_down_internal(). */
    method ResumeDown()
      requires WellFormed(St()) && Schedulable(St()) && threads[current].status == Running
               && threads[current].pc.InDown?
      modifies this
      ensures WellFormed(old(St())) && St() == ResumeFrom(old(St()))
    {
      var x := threads[current].pc.sema;
      ResumeSchedulable(St(), x);
      hide WellFormed, Schedulable, DownFrom;
      var th := threads[current].(pc := AtUser);
      if x in locks {
        th := th.(waitingLock := None);
      }
      threads := threads[current := th];
      DownTest(x);
    }

    /** lock_release() before sema_up_internal(): the loop recomputes the priority from the
        other held locks and unlinks `x`. */
    method DropHeldLock(x: SemaId)
      requires current in threads && x in locks
      requires forall y :: y in threads[current].heldLocks ==> y in locks
      modifies this`threads, this`locks
      ensures St() == DropLock(old(St()), x)
    {
      ghost var s := St();
      var t := threads[current];
      var held := t.heldLocks;
      var priority := t.basePriority;
      var kept := [];
      var i := 0;
      while i < |held|
        invariant 0 <= i <= |held|
        invariant kept == Filter(held[..i], y => y != x)
        invariant priority == RestoredPriority(s, held[..i], t.basePriority, x)
      {
        var l := held[i];
        assert held[i] in held && held[..i + 1][..i] == held[..i];
        if l != x {
          kept := kept + [l];
          priority := if priority < locks[l].maxWaiterPriority then locks[l].maxWaiterPriority else priority;
        }
        i := i + 1;
      }
      assert held[..|held|] == held;
      threads := threads[current := t.(priority := priority, heldLocks := kept)];
      locks := locks[x := locks[x].(holder := None)];
    }

    /** lock_release(). */
    method LockRelease(x: SemaId)
      requires WellFormed(St()) && Schedulable(St()) && threads[current].status == Running
      requires x in locks && locks[x].holder == Some(current)
      requires forall t :: t in semas[x].waiters ==> threads[t].status == Blocked && t !in sleepList && t != current
      requires threads[current].basePriority >= PRI_MIN
      modifies this
      ensures WellFormed(old(St())) && St() == ReleaseFrom(old(St()), x)
    {
      DropLockWellFormed(St(), x);
      DropSchedulable(St(), x);
      assert forall t :: t in semas[x].waiters ==> t in threads;
      assert x in semas && forall y :: y in threads[current].heldLocks ==> y in locks;
      hide Schedulable, WellFormed, UpFrom;
      DropHeldLock(x);
      SemaUp(x);
    }

    /** Whatever legal operation the running thread starts in a state of a run, its method may
        be called, and does what the run theorems say. */
    method Perform(op: Op)
      requires Inv(St()) && Legal(St(), op)
      modifies this
      ensures WellFormed(old(St())) && St() == Step(old(St()), op)
    {
      hide Inv, Core, Step, Legal;
      RunningNow(St());
      if IsSemaOp(op) {
        PerformSema(op);
      } else if IsSynchOp(op) {
        PerformLock(op);
      } else {
        PerformThread(op);
      }
    }

    method PerformSema(op: Op)
      requires Core(St()) && threads[current].status == Running && Legal(St(), op) && IsSemaOp(op)
      modifies this
      ensures WellFormed(old(St())) && St() == Step(old(St()), op)
    {
      hide Core, Schedulable, WellFormed, Linked, ChainBelow, DownFrom, UpFrom, TakeDown;
      CoreSchedulable(St());
      match op
      case SemaDown(x) => DownTest(x);
      case SemaTryDown(x) =>
        TrySame(St(), x);
        var _ := SemaTryDown(x);
      case SemaUp(x) => SemaUp(x);
    }

    method PerformLock(op: Op)
      requires Core(St()) && threads[current].status == Running && Legal(St(), op) && IsSynchOp(op) && !IsSemaOp(op)
      modifies this
      ensures WellFormed(old(St())) && St() == Step(old(St()), op)
    {
      hide Core, Schedulable, WellFormed, Linked, ChainBelow, AcquireFrom, ReleaseFrom, ResumeFrom;
      CoreSchedulable(St());
      match op
      case LockAcquire(x) => LockAcquire(x);
      case LockRelease(x) => LockRelease(x);
      case Resume => ResumeDown();
    }

    method PerformThread(op: Op)
      requires Core(St()) && threads[current].status == Running && Legal(St(), op) && !IsSynchOp(op)
      modifies this
      ensures WellFormed(old(St())) && St() == Step(old(St()), op)
    {
      hide Core, Schedulable, WellFormed, Linked, ChainBelow, SleepFrom, SetPriorityFrom, StartFrom, YieldCpu;
      hide LeaveCpu, Tick;
      CoreSchedulable(St());
      match op
      case SleepUntil(end) => ThreadSleepUntil(end);
      case SetPriority(p) => ThreadSetPriority(p);
      case InitThread(t, p) => ThreadInit(t, p);
      case StartThread(t) => ThreadStart(t);
      case Yield => ThreadYield();
      case Exit => ThreadLeave(Dying);
      case IdleBlock => ThreadLeave(Blocked);
      case TimerTick => TimerInterrupt();
    }
  }

  // ----- The sweep -----

  /** `n` is `s` after the first i sleepers were looked at and those in `kept` left asleep. */
  ghost predicate Sweeping(s: State, n: State, kept: seq<Tid>, i: nat) {
    && i <= |s.sleeping| && kept == NotDueIn(s, s.sleeping[..i])
    && n == s.(threads := MarkReady(s.threads, DueIn(s, s.sleeping[..i])),
               ready := s.ready + DueIn(s, s.sleeping[..i]),
               sleeping := kept + s.sleeping[i..])
  }

  lemma SweepStarts(s: State)
    ensures Sweeping(s, s, [], 0)
  {
    assert s.sleeping[..0] == [] && s.sleeping[0..] == s.sleeping;
    assert DueIn(s, []) == [] && NotDueIn(s, []) == [] && MarkReady(s.threads, []) == s.threads;
  }

  lemma SweepStep(s: State, n: State, kept: seq<Tid>, i: nat)
    requires Schedulable(s) && Sweeping(s, n, kept, i) && i < |s.sleeping|
    ensures var t := s.sleeping[i];
            && t in n.threads && n.threads[t].status == Blocked
            && (if n.threads[t].endTick <= n.ticks
                then Sweeping(s, n.(threads := n.threads[t := n.threads[t].(status := Ready, endTick := -1)],
                                    ready := n.ready + [t], sleeping := kept + s.sleeping[i + 1..]), kept, i + 1)
                else Sweeping(s, n, kept + [t], i + 1))
  {
    hide MarkReady, DueIn, NotDueIn, Schedulable;
    var t := s.sleeping[i];
    SweepOne(s, i);
    assert s.sleeping[i..] == [t] + s.sleeping[i + 1..];
  }

  lemma SweepEnds(s: State, n: State, kept: seq<Tid>)
    requires Sweeping(s, n, kept, |s.sleeping|)
    ensures n == WakeSleepers(s)
  {
    assert s.sleeping[..|s.sleeping|] == s.sleeping;
  }

  /** One iteration of the sweep. */
  lemma SweepOne(s: State, i: nat)
    requires Schedulable(s) && i < |s.sleeping|
    ensures var t := s.sleeping[i];
            var marked := MarkReady(s.threads, DueIn(s, s.sleeping[..i]));
            && t in s.threads && t in marked && marked[t] == s.threads[t] && marked[t].status == Blocked
            && MarkReady(s.threads, DueIn(s, s.sleeping[..i + 1]))
               == (if Due(s, t) then marked[t := s.threads[t].(status := Ready, endTick := -1)] else marked)
    ensures DueIn(s, s.sleeping[..i + 1])
         == DueIn(s, s.sleeping[..i]) + (if Due(s, s.sleeping[i]) then [s.sleeping[i]] else [])
    ensures NotDueIn(s, s.sleeping[..i + 1])
         == NotDueIn(s, s.sleeping[..i]) + (if Due(s, s.sleeping[i]) then [] else [s.sleeping[i]])
  {
    var t := s.sleeping[i];
    FilterElements(s.sleeping[..i], u => Due(s, u));
    FilterSnoc(s.sleeping, i, u => Due(s, u));
    FilterSnoc(s.sleeping, i, u => !Due(s, u));
    assert t in s.sleeping && t !in s.sleeping[..i];
  }

  /** The state after the sweep. */
  lemma SweptSchedulable(s: State)
    requires Schedulable(s)
    ensures var w := WakeSleepers(s);
            && Linked(s) && w == s.(threads := w.threads, ready := w.ready, sleeping := w.sleeping)
            && w.threads.Keys == s.threads.Keys
            && (forall t :: t in w.ready ==> t in w.threads && w.threads[t].priority >= PRI_MIN)
  {
    hide MarkReady, DueIn, NotDueIn;
    WakeSleepersLinks(s);
  }

  lemma SleepSchedulable(s: State, end: int)
    requires Schedulable(s) && s.threads[s.cur].status == Running && end >= 0
    ensures s.cur in s.threads && Schedulable(PutToSleep(s, end)) && Linked(s)
  {
    NoDupAppend(s.sleeping, [s.cur]);
  }

  lemma PrioritySchedulable(s: State, p: int)
    requires Schedulable(s) && s.threads[s.cur].status == Running && p >= PRI_MIN
    ensures s.cur in s.threads && Schedulable(WithPriority(s, p)) && Linked(s)
  {
  }

  lemma StartSchedulable(s: State, t: Tid)
    requires Schedulable(s) && s.threads[s.cur].status == Running
    requires t in s.threads && s.threads[t].status == Blocked && t !in s.sleeping
    ensures s.cur in s.threads && Schedulable(MakeReady(s, t)) && Linked(s)
    ensures MakeReady(s, t).threads[s.cur].status == Running
  {
  }

  /** `n` has the same sleepers as `s` and no thread below PRI_MIN. */
  lemma StaysSchedulable(s: State, n: State)
    requires Schedulable(s) && n.cur == s.cur && n.idle == s.idle && n.sleeping == s.sleeping
             && n.threads.Keys == s.threads.Keys
    requires forall t :: t in n.ready ==> t in n.threads
    requires forall t :: t in n.threads ==> n.threads[t].priority >= PRI_MIN
    requires forall t :: t in s.sleeping ==>
             n.threads[t].status == s.threads[t].status && n.threads[t].endTick == s.threads[t].endTick
    ensures Schedulable(n)
  {
  }

  lemma AfterDonationIs(s: State, x: SemaId)
    requires WellFormed(s) && x in s.locks && ChainBelow(s, Some(x), s.threads[s.cur].priority, {})
    ensures HoldersExist(s) && DonationWalk(Walk(s, Some(x)), s.threads[s.cur].priority) == Some(AfterDonation(s, x))
  {
    hide ChainBelow, Chain, DonationWalk, RaisedTo;
    DonationTerminatesIff(s, x, s.threads[s.cur].priority);
  }

  lemma WalkDone(w: Walk, p: int)
    requires Finished(w)
    ensures DonationWalk(w, p) == Some(w.s)
  {
  }

  /** One iteration of the donation loop: it donates and goes on, or the walk never ends. */
  lemma WalkHolder(s: State, x: SemaId, p: int)
    requires HoldersExist(s) && x in s.locks && s.locks[x].holder.Some?
    ensures var h := s.locks[x].holder.value;
            && h in s.threads
            && (s.threads[h].priority < p ==>
                  && HoldersExist(Donate(s, x, p))
                  && |Below(Donate(s, x, p).threads, p)| < |Below(s.threads, p)|
                  && DonationWalk(Walk(Donate(s, x, p), s.threads[h].waitingLock), p)
                     == DonationWalk(Walk(s, Some(x)), p))
            && (s.threads[h].priority >= p ==> DonationWalk(Walk(s, Some(x)), p).None?)
  {
    hide Below;
    var h := s.locks[x].holder.value;
    if s.threads[h].priority < p {
      assert Donate(s, x, p).threads[h].priority == p;
      assert WalkStep(Walk(s, Some(x)), p) == Walk(Donate(s, x, p), s.threads[h].waitingLock);
      WalkStepShrinks(Walk(s, Some(x)), p);
      WalkUnfolds(s, x, p);
    }
  }

  lemma SchedulableFacts(s: State)
    requires Schedulable(s)
    ensures Linked(s) && (forall t :: t in s.threads ==> s.threads[t].priority >= PRI_MIN)
    ensures forall t :: t in s.sleeping ==> s.threads[t].status == Blocked
  {
  }

  lemma WaitersKnown(s: State, x: SemaId)
    requires WellFormed(s) && x in s.semas
    ensures s.cur in s.threads && forall t :: t in s.semas[x].waiters ==> t in s.threads
  {
  }

  lemma JoinSchedulable(s: State, x: SemaId)
    requires WellFormed(s) && Schedulable(s) && x in s.semas && s.threads[s.cur].status == Running
    ensures s.cur in s.threads && Linked(s)
    ensures forall t :: t in s.semas[x].waiters + [s.cur] ==> t in s.threads && s.threads[t].priority >= PRI_MIN
    ensures Schedulable(JoinWaiters(s, x))
  {
    hide WellFormed, Schedulable, JoinWaiters;
    WaitersKnown(s, x);
    SchedulableFacts(s);
    JoinShape(s, x);
    StaysSchedulable(s, JoinWaiters(s, x));
  }

  lemma RemovedSubset(q: seq<Tid>, k: nat)
    requires k < |q|
    ensures forall t :: t in RemoveAt(q, k) ==> t in q
  {
  }

  lemma UpSchedulable(s: State, x: SemaId)
    requires WellFormed(s) && Schedulable(s) && x in s.semas && s.threads[s.cur].status == Running
    requires forall t :: t in s.semas[x].waiters ==> s.threads[t].status == Blocked && t !in s.sleeping
    ensures s.cur in s.threads && Linked(s)
    ensures forall t :: t in s.semas[x].waiters ==> t in s.threads && s.threads[t].priority >= PRI_MIN
    ensures Schedulable(WakeAndRaise(s, x)) && WakeAndRaise(s, x).threads[s.cur].status == Running
    ensures s.semas[x].waiters != [] ==>
              forall t :: t in RemoveAt(s.semas[x].waiters, FirstMax(s.threads, s.semas[x].waiters)) ==>
                  t in s.semas[x].waiters
  {
    hide WellFormed, Schedulable, WakeAndRaise, RemoveAt;
    WaitersKnown(s, x);
    SchedulableFacts(s);
    WakeShape(s, x);
    StaysSchedulable(s, WakeAndRaise(s, x));
    if s.semas[x].waiters != [] {
      RemovedSubset(s.semas[x].waiters, FirstMax(s.threads, s.semas[x].waiters));
    }
  }

  lemma DropSchedulable(s: State, x: SemaId)
    requires WellFormed(s) && Schedulable(s) && s.threads[s.cur].status == Running && x in s.locks
    requires s.threads[s.cur].basePriority >= PRI_MIN
    ensures s.cur in s.threads && Schedulable(DropLock(s, x))
  {
    var n := DropLock(s, x);
    assert forall t :: t in s.threads && t != s.cur ==> n.threads[t] == s.threads[t];
  }

  lemma DonationSchedulable(s: State, x: SemaId)
    requires WellFormed(s) && Schedulable(s) && s.threads[s.cur].status == Running && x in s.locks
    requires ChainBelow(s, Some(x), s.threads[s.cur].priority, {})
    ensures var r := AfterDonation(s, x);
            WellFormed(r) && Schedulable(r) && r.threads[r.cur].status == Running && x in r.semas
  {
    hide WellFormed, Schedulable, ChainBelow, Chain, DonationWalk;
    SchedulableFacts(s);
    var p := s.threads[s.cur].priority;
    var r := AfterDonation(s, x);
    RaisedWellFormed(s, r, Chain(s, Some(x), p, {}), p);
    StaysSchedulable(s, r);
    LockHasSema(s, x);
  }

  lemma LockHasSema(s: State, x: SemaId)
    requires WellFormed(s) && x in s.locks
    ensures x in s.semas
  {
  }

  lemma ResumeSchedulable(s: State, x: SemaId)
    requires WellFormed(s) && Schedulable(s) && s.threads[s.cur].status == Running && s.threads[s.cur].pc == InDown(x)
    ensures var n := LeaveBlock(s, x);
            WellFormed(n) && Schedulable(n) && n.threads[n.cur].status == Running && x in n.semas
  {
    hide WellFormed, Schedulable;
    SchedulableFacts(s);
    ResumesOnSema(s, x);
    LeaveBlockWellFormed(s, x);
    StaysSchedulable(s, LeaveBlock(s, x));
  }

  lemma ResumesOnSema(s: State, x: SemaId)
    requires WellFormed(s) && s.cur in s.threads && s.threads[s.cur].pc == InDown(x)
    ensures x in s.semas
  {
  }

  lemma ClockSchedulable(s: State, n: State)
    requires Schedulable(s) && n == s.(ticks := n.ticks, slice := n.slice)
    ensures s.cur in s.threads && Linked(s) && Linked(n) && Schedulable(n)
  {
  }
}
