/** Every kernel operation, up to the point where it calls schedule() or returns, keeps
    the invariant's parts that hold there. */
module StepsKeep {

  import opened Lists
  import opened Threads
  import opened Synch
  import opened Invariant
  import opened Donation
  import opened KernelSteps

  /** The running thread inside the kernel, interrupts off. */
  ghost predicate Executing(s: State) {
    && Core(s)
    && s.threads[s.cur].status == Running
    && s.slice <= TIME_SLICE
  }

  // ----- Frames: what a step leaves alone -----

  /** Only statuses, wake-up times and list links differ. */
  ghost predicate OnlyScheduling(s: State, n: State) {
    && n.threads.Keys == s.threads.Keys
    && (forall t :: t in s.threads ==>
          n.threads[t] == s.threads[t].(status := n.threads[t].status, endTick := n.threads[t].endTick))
    && n.locks == s.locks
    && n.semas == s.semas
    && n.ticks == s.ticks && n.slice == s.slice
  }

  lemma SchedulingKeepsOwners(s: State, n: State)
    requires OnlyScheduling(s, n) && LockInv(s) && WaitInv(s) && PriorityInv(s) && MaxWaiterInv(s)
    ensures LockInv(n) && WaitInv(n) && PriorityInv(n) && MaxWaiterInv(n)
  {
  }

  /** Locks, their holders and the lists of held locks are the same. */
  lemma LocksKept(s: State, n: State)
    requires LockInv(s) && n.threads.Keys == s.threads.Keys && n.semas.Keys == s.semas.Keys
             && n.locks.Keys == s.locks.Keys
    requires forall t :: t in s.threads ==> n.threads[t].heldLocks == s.threads[t].heldLocks
    requires forall y :: y in s.locks ==> n.locks[y].holder == s.locks[y].holder
    requires forall y :: y in s.semas ==> n.semas[y].value == s.semas[y].value
    ensures LockInv(n)
  {
    hide NoDup;
  }

  /** No thread enters or leaves the set of threads woken from a semaphore. */
  lemma SameWoken(s: State, n: State)
    requires n.threads.Keys == s.threads.Keys
    requires forall t :: t in s.threads ==>
               || n.threads[t] == s.threads[t]
               || (!WokenInDown(n.threads[t]) && !WokenInDown(s.threads[t]))
               || (WokenInDown(n.threads[t]) && WokenInDown(s.threads[t]) && n.threads[t].pc == s.threads[t].pc)
    ensures forall x :: Woken(n, x) == Woken(s, x)
  {
    forall x ensures Woken(n, x) == Woken(s, x) {
      assert forall t :: t in Woken(n, x) <==> t in Woken(s, x);
    }
  }

  lemma WokenKeepsCount(s: State, n: State)
    requires NoLostWakeup(s) && n.semas == s.semas && forall x :: Woken(n, x) == Woken(s, x)
    ensures NoLostWakeup(n)
  {
  }

  // ----- Giving up the processor -----

  lemma RequeueLinks(s: State)
    requires Links(s) && s.threads[s.cur].status == Running
    ensures Links(Requeue(s))
  {
    var n := Requeue(s);
    NoDupAppend(s.ready, [s.cur]);
    assert ReadyLinks(n) && SleepLinks(n) && WaiterLinks(n);
  }

  lemma RequeueKeeps(s: State)
    requires Executing(s)
    ensures Descheduled(Requeue(s))
  {
    hide Links, LockInv, WaitInv, PriorityInv, MaxWaiterInv, NoLostWakeup;
    var n := Requeue(s);
    assert s.cur in s.threads;
    RequeueLinks(s);
    SchedulingKeepsOwners(s, n);
    SameWoken(s, n);
    WokenKeepsCount(s, n);
  }

  lemma CoreIsLinked(s: State)
    requires Core(s)
    ensures Linked(s)
  {
  }

  lemma YieldRestoresInv(s: State)
    requires Executing(s)
    ensures Linked(s) && Inv(YieldCpu(s))
  {
    hide Requeue, Schedule, Inv, Core;
    CoreIsLinked(s);
    RequeueKeeps(s);
    ScheduleRestoresInv(Requeue(s));
  }

  lemma PutToSleepLinks(s: State, end: int)
    requires Links(s) && s.threads[s.cur].status == Running && s.threads[s.cur].pc == AtUser
    requires s.cur != s.idle && end >= 0
    ensures Links(PutToSleep(s, end))
  {
    var n := PutToSleep(s, end);
    NoDupAppend(s.sleeping, [s.cur]);
    assert ReadyLinks(n) && SleepLinks(n) && WaiterLinks(n);
  }

  lemma PutToSleepKeeps(s: State, end: int)
    requires Executing(s) && s.threads[s.cur].pc == AtUser && s.cur != s.idle && end >= 0
    ensures Descheduled(PutToSleep(s, end))
  {
    hide Links, LockInv, WaitInv, PriorityInv, MaxWaiterInv, NoLostWakeup;
    var n := PutToSleep(s, end);
    PutToSleepLinks(s, end);
    SchedulingKeepsOwners(s, n);
    SameWoken(s, n);
    WokenKeepsCount(s, n);
  }

  lemma LeaveLinks(s: State, status: Status)
    requires Links(s) && s.threads[s.cur].status == Running
    requires (status == Blocked && s.cur == s.idle)
             || (status == Dying && s.cur != s.idle && !s.threads[s.cur].pc.Fresh?)
    ensures Links(SetStatus(s, status))
  {
    var n := SetStatus(s, status);
    assert ReadyLinks(n) && SleepLinks(n) && WaiterLinks(n);
  }

  lemma LeaveDying(s: State, status: Status)
    requires DyingInv(s) && s.cur in s.threads && s.threads[s.cur].pc == AtUser && s.threads[s.cur].heldLocks == []
    ensures DyingInv(SetStatus(s, status))
  {
  }

  /** thread_exit(), and the idle thread's thread_block(). */
  lemma LeaveKeeps(s: State, status: Status)
    requires Executing(s) && s.threads[s.cur].pc == AtUser && s.threads[s.cur].heldLocks == []
    requires (status == Blocked && s.cur == s.idle) || (status == Dying && s.cur != s.idle)
    ensures Descheduled(SetStatus(s, status))
  {
    hide Woken, Links, LockInv, WaitInv, PriorityInv, MaxWaiterInv, NoLostWakeup, DyingInv;
    var n := SetStatus(s, status);
    LeaveDying(s, status);
    LeaveLinks(s, status);
    SchedulingKeepsOwners(s, n);
    SameWoken(s, n);
    WokenKeepsCount(s, n);
  }

  // ----- Changing priorities and creating threads -----

  /** Only priorities and the locks' max_waiter_priority differ. */
  ghost predicate OnlyPriorities(s: State, n: State) {
    && n.threads.Keys == s.threads.Keys
    && (forall t :: t in s.threads ==>
          n.threads[t] == s.threads[t].(priority := n.threads[t].priority, basePriority := n.threads[t].basePriority))
    && n.locks.Keys == s.locks.Keys
    && (forall x :: x in s.locks ==> n.locks[x].holder == s.locks[x].holder)
    && n == s.(threads := n.threads, locks := n.locks)
  }

  lemma PrioritiesKeepLinks(s: State, n: State)
    requires OnlyPriorities(s, n) && Links(s)
    ensures Links(n)
  {
    assert ReadyLinks(n) && SleepLinks(n) && WaiterLinks(n);
  }

  lemma PrioritiesKeepOwners(s: State, n: State)
    requires OnlyPriorities(s, n) && LockInv(s) && WaitInv(s) && DyingInv(s)
    ensures LockInv(n) && WaitInv(n) && DyingInv(n)
  {
  }

  lemma PrioritiesKeepCore(s: State, n: State)
    requires OnlyPriorities(s, n) && Core(s) && PriorityInv(n) && MaxWaiterInv(n)
    ensures Core(n)
  {
    hide Links, LockInv, WaitInv, DyingInv, PriorityInv, MaxWaiterInv, NoLostWakeup;
    PrioritiesKeepLinks(s, n);
    PrioritiesKeepOwners(s, n);
    SameWoken(s, n);
    WokenKeepsCount(s, n);
  }

  lemma WithPriorityKeeps(s: State, p: int)
    requires Executing(s) && PRI_MIN <= p
    ensures Executing(WithPriority(s, p))
  {
    hide Links, LockInv, WaitInv, DyingInv, NoLostWakeup;
    var n := WithPriority(s, p);
    assert PriorityInv(n) && MaxWaiterInv(n);
    PrioritiesKeepCore(s, n);
  }

  lemma InitThreadLinks(s: State, t: Tid, p: int)
    requires Links(s) && t !in s.threads
    ensures Links(SetThread(s, t, FreshThread(p)))
  {
    var n := SetThread(s, t, FreshThread(p));
    assert ReadyLinks(n) && SleepLinks(n) && WaiterLinks(n);
  }

  lemma InitThreadOwners(s: State, t: Tid, p: int)
    requires LockInv(s) && WaitInv(s) && DyingInv(s) && PriorityInv(s)
    requires t !in s.threads && PRI_MIN <= p <= PRI_MAX
    ensures var n := SetThread(s, t, FreshThread(p)); LockInv(n) && WaitInv(n) && DyingInv(n) && PriorityInv(n)
  {
  }

  lemma ListsKnown(s: State)
    requires Links(s)
    ensures forall u :: u in s.ready || u in s.sleeping ==> u in s.threads
    ensures forall x :: x in s.semas ==> forall u :: u in s.semas[x].waiters ==> u in s.threads
  {
  }

  lemma InitThreadMax(s: State, t: Tid, p: int)
    requires MaxWaiterInv(s) && Links(s) && t !in s.threads
    ensures MaxWaiterInv(SetThread(s, t, FreshThread(p)))
  {
    hide Links;
    ListsKnown(s);
  }

  lemma InitThreadKeeps(s: State, t: Tid, p: int)
    requires Inv(s) && t !in s.threads && PRI_MIN <= p <= PRI_MAX
    ensures Inv(SetThread(s, t, FreshThread(p)))
  {
    hide Links, LockInv, WaitInv, DyingInv, PriorityInv, MaxWaiterInv;
    var n := SetThread(s, t, FreshThread(p));
    ListsKnown(s);
    InitThreadMax(s, t, p);
    InitThreadLinks(s, t, p);
    InitThreadOwners(s, t, p);
    forall x | x in n.semas && n.semas[x].waiters != [] ensures n.semas[x].value <= |Woken(n, x)| {
      assert Woken(n, x) == Woken(s, x);
    }
  }

  lemma MakeReadyLinks(s: State, t: Tid)
    requires Links(s) && t in s.threads && s.threads[t].pc.Fresh?
    ensures Links(MakeReady(s, t))
  {
    var n := MakeReady(s, t);
    NoDupAppend(s.ready, [t]);
    assert ReadyLinks(n) && SleepLinks(n) && WaiterLinks(n);
  }

  lemma MakeReadyWaits(s: State, t: Tid)
    requires WaitInv(s) && t in s.threads && s.threads[t].pc.Fresh?
    ensures WaitInv(MakeReady(s, t))
  {
  }

  lemma MakeReadyOwners(s: State, t: Tid)
    requires LockInv(s) && WaitInv(s) && DyingInv(s) && PriorityInv(s)
    requires t in s.threads && s.threads[t].pc.Fresh?
    ensures var n := MakeReady(s, t); LockInv(n) && WaitInv(n) && DyingInv(n) && PriorityInv(n)
  {
    var n := MakeReady(s, t);
    assert forall u :: u in s.threads && u != t ==> n.threads[u] == s.threads[u];
    LocksKept(s, n);
    MakeReadyWaits(s, t);
    hide LockInv, WaitInv;
  }

  lemma FreshIsBlocked(s: State, t: Tid)
    requires Links(s) && t in s.threads && s.threads[t].pc.Fresh?
    ensures s.threads[t].status == Blocked
  {
  }

  lemma SameLocks(s: State, n: State)
    requires MaxWaiterInv(s) && n.locks == s.locks
    ensures MaxWaiterInv(n)
  {
  }

  lemma MakeReadyKeeps(s: State, t: Tid)
    requires Executing(s) && t in s.threads && s.threads[t].pc.Fresh?
    ensures Executing(MakeReady(s, t))
  {
    hide Links, LockInv, WaitInv, DyingInv, PriorityInv, NoLostWakeup, MaxWaiterInv;
    FreshIsBlocked(s, t);
    var n := MakeReady(s, t);
    SameLocks(s, n);
    MakeReadyLinks(s, t);
    MakeReadyOwners(s, t);
    SameWoken(s, n);
    WokenKeepsCount(s, n);
  }

  // ----- Down -----

  /** The running thread is about to test the value of `x`. */
  ghost predicate Testing(s: State, x: SemaId) {
    && x in s.semas
    && s.cur in s.threads && s.idle in s.threads
    && Links(s) && LockInv(s) && WaitInv(s) && NoLostWakeupTesting(s, x)
    && PriorityInv(s) && DyingInv(s) && MaxWaiterInv(s) && s.slice <= s.ticks
    && s.threads[s.cur].status == Running
    && s.threads[s.cur].pc == AtUser
    && s.cur != s.idle
  }

  lemma LeaveBlockLinks(s: State, x: SemaId)
    requires Links(s) && s.threads[s.cur].status == Running && s.threads[s.cur].pc == InDown(x)
    ensures Links(LeaveBlock(s, x))
  {
    var n := LeaveBlock(s, x);
    assert ReadyLinks(n) && SleepLinks(n) && WaiterLinks(n);
  }

  lemma LeaveBlockOwners(s: State, x: SemaId)
    requires LockInv(s) && WaitInv(s) && DyingInv(s) && PriorityInv(s)
    requires s.cur in s.threads && s.threads[s.cur].pc == InDown(x)
    ensures var n := LeaveBlock(s, x); LockInv(n) && WaitInv(n) && DyingInv(n) && PriorityInv(n)
  {
    var n := LeaveBlock(s, x);
    assert forall u :: u in s.threads && u != s.cur ==> n.threads[u] == s.threads[u];
    LeaveBlockWaits(s, x);
    LocksKept(s, n);
    hide WaitInv, LockInv;
  }

  lemma LeaveBlockWaits(s: State, x: SemaId)
    requires WaitInv(s) && s.cur in s.threads && s.threads[s.cur].pc == InDown(x)
    ensures WaitInv(LeaveBlock(s, x))
  {
  }

  lemma LeaveBlockCounts(s: State, x: SemaId)
    requires NoLostWakeup(s) && s.cur in s.threads
    requires s.threads[s.cur].pc == InDown(x) && s.threads[s.cur].status == Running
    ensures NoLostWakeupTesting(LeaveBlock(s, x), x)
  {
    var n := LeaveBlock(s, x);
    forall y | y in n.semas && n.semas[y].waiters != []
      ensures n.semas[y].value <= |Woken(n, y)| + (if y == x then 1 else 0)
    {
      if y == x {
        assert Woken(s, x) == Woken(n, x) + {s.cur};
      } else {
        assert Woken(s, y) == Woken(n, y);
      }
    }
  }

  lemma IdleIsAtUser(s: State)
    requires Links(s)
    ensures s.threads[s.idle].pc == AtUser
  {
  }

  lemma LeaveBlockTests(s: State, x: SemaId)
    requires Executing(s) && s.threads[s.cur].pc == InDown(x) && x in s.semas
    ensures Testing(LeaveBlock(s, x), x)
  {
    hide Links, LockInv, WaitInv, DyingInv, PriorityInv, NoLostWakeup, NoLostWakeupTesting, MaxWaiterInv;
    IdleIsAtUser(s);
    SameLocks(s, LeaveBlock(s, x));
    LeaveBlockLinks(s, x);
    LeaveBlockOwners(s, x);
    LeaveBlockCounts(s, x);
  }

  lemma JoinLinks(s: State, n: State, x: SemaId)
    requires Links(s) && x in s.semas && s.threads[s.cur].status == Running && s.cur != s.idle
    requires n == s.(threads := n.threads, semas := n.semas, locks := n.locks)
    requires n.threads.Keys == s.threads.Keys
    requires forall t :: t in s.threads && t != s.cur ==> n.threads[t] == s.threads[t]
    requires n.threads[s.cur].status == Blocked && n.threads[s.cur].pc == InDown(x)
    requires n.semas == s.semas[x := Semaphore(s.semas[x].value, s.semas[x].waiters + [s.cur])]
    ensures Links(n)
  {
    hide Located, NoDup;
    JoinLists(s, n, x);
    hide ReadyLinks, SleepLinks, WaiterLinks;
    forall t | t in n.threads ensures Located(n, t) {
      assert Located(s, t);
      JoinLocated(s, n, x, t);
    }
  }

  lemma JoinLocated(s: State, n: State, x: SemaId, t: Tid)
    requires t in s.threads && Located(s, t) && x in s.semas && s.cur in s.threads
    requires n == s.(threads := n.threads, semas := n.semas, locks := n.locks) && t in n.threads
    requires if t == s.cur then n.threads[t].status == Blocked && n.threads[t].pc == InDown(x)
             else n.threads[t] == s.threads[t]
    requires n.semas == s.semas[x := Semaphore(s.semas[x].value, s.semas[x].waiters + [s.cur])]
    ensures Located(n, t)
  {
  }

  lemma JoinLists(s: State, n: State, x: SemaId)
    requires Links(s) && x in s.semas && s.threads[s.cur].status == Running && s.cur != s.idle
    requires n == s.(threads := n.threads, semas := n.semas, locks := n.locks)
    requires n.threads.Keys == s.threads.Keys
    requires forall t :: t in s.threads && t != s.cur ==> n.threads[t] == s.threads[t]
    requires n.threads[s.cur].status == Blocked && n.threads[s.cur].pc == InDown(x)
    requires n.semas == s.semas[x := Semaphore(s.semas[x].value, s.semas[x].waiters + [s.cur])]
    ensures ReadyLinks(n) && SleepLinks(n) && WaiterLinks(n)
  {
    hide Located;
    NoDupAppend(s.semas[x].waiters, [s.cur]);
    assert s.cur !in s.semas[x].waiters && s.cur !in s.ready && s.cur !in s.sleeping;
  }

  lemma JoinWaitersLinks(s: State, x: SemaId)
    requires s.cur in s.threads && x in s.semas && s.threads[s.cur].status == Running && s.cur != s.idle
    requires Links(s) && forall t :: t in s.semas[x].waiters ==> t in s.threads
    ensures Links(JoinWaiters(s, x))
  {
    hide Links;
    JoinLinks(s, JoinWaiters(s, x), x);
  }

  lemma JoinOwners(s: State, n: State)
    requires LockInv(s) && DyingInv(s) && PriorityInv(s) && s.cur in s.threads
    requires n.threads.Keys == s.threads.Keys && n.locks.Keys == s.locks.Keys && n.semas.Keys == s.semas.Keys
    requires forall t :: t in s.threads ==>
               n.threads[t].heldLocks == s.threads[t].heldLocks
    requires forall t :: t in s.threads && t != s.cur ==> n.threads[t] == s.threads[t]
    requires n.threads[s.cur].priority == s.threads[s.cur].priority
    requires n.threads[s.cur].basePriority == s.threads[s.cur].basePriority
    requires n.threads[s.cur].status == Blocked
    requires forall y :: y in s.locks ==> n.locks[y].holder == s.locks[y].holder
    requires forall y :: y in s.semas ==> n.semas[y].value == s.semas[y].value
    ensures LockInv(n) && DyingInv(n) && PriorityInv(n)
  {
    hide LockInv;
    LocksKept(s, n);
  }

  lemma JoinWaitersOwners(s: State, x: SemaId)
    requires LockInv(s) && WaitInv(s) && DyingInv(s) && PriorityInv(s) && x in s.semas && s.cur in s.threads
    requires s.threads[s.cur].pc == AtUser
    requires forall t :: t in s.semas[x].waiters ==> t in s.threads
    ensures var n := JoinWaiters(s, x); LockInv(n) && WaitInv(n) && DyingInv(n) && PriorityInv(n)
  {
    hide LockInv, PriorityInv, DyingInv, WaitInv, MaxPriority;
    var n := JoinWaiters(s, x);
    assert forall u :: u in s.threads && u != s.cur ==> n.threads[u] == s.threads[u];
    JoinOwners(s, n);
    JoinWaits(s, x);
  }

  lemma JoinWaits(s: State, x: SemaId)
    requires WaitInv(s) && x in s.semas && s.cur in s.threads && s.threads[s.cur].pc == AtUser
    requires forall t :: t in s.semas[x].waiters ==> t in s.threads
    ensures WaitInv(JoinWaiters(s, x))
  {
    hide MaxPriority;
    var n := JoinWaiters(s, x);
    assert forall u :: u in s.threads && u != s.cur ==> n.threads[u] == s.threads[u];
  }

  lemma JoinWaitersMax(s: State, x: SemaId)
    requires MaxWaiterInv(s) && PriorityInv(s) && x in s.semas && s.cur in s.threads
    requires forall t :: t in s.semas[x].waiters ==> t in s.threads
    ensures MaxWaiterInv(JoinWaiters(s, x))
  {
  }

  lemma JoinWaitersCounts(s: State, x: SemaId)
    requires x in s.semas && NoLostWakeupTesting(s, x) && s.semas[x].value == 0 && s.cur in s.threads
    requires s.threads[s.cur].pc == AtUser
    requires forall t :: t in s.semas[x].waiters ==> t in s.threads
    ensures NoLostWakeup(JoinWaiters(s, x))
  {
    SameWoken(s, JoinWaiters(s, x));
  }

  lemma JoinWaitersKeeps(s: State, x: SemaId)
    requires Testing(s, x) && s.semas[x].value == 0 && s.slice <= TIME_SLICE
    ensures forall t :: t in s.semas[x].waiters ==> t in s.threads
    ensures Descheduled(JoinWaiters(s, x))
  {
    hide Links, LockInv, WaitInv, DyingInv, PriorityInv, MaxWaiterInv, NoLostWakeup, NoLostWakeupTesting, JoinWaiters;
    WaitersBlocked(s, x);
    JoinShape(s, x);
    JoinWaitersLinks(s, x);
    JoinWaitersOwners(s, x);
    JoinWaitersMax(s, x);
    JoinWaitersCounts(s, x);
  }

  lemma TakeLinks(s: State, n: State, x: SemaId)
    requires Links(s) && x in s.semas && s.cur != s.idle
    requires n == s.(threads := n.threads, semas := n.semas, locks := n.locks)
    requires n.threads.Keys == s.threads.Keys
    requires forall t :: t in s.threads && t != s.cur ==> n.threads[t] == s.threads[t]
    requires s.threads[s.cur].status == Running == n.threads[s.cur].status && n.threads[s.cur].pc == AtUser
    requires n.semas.Keys == s.semas.Keys
    requires forall y :: y in s.semas ==> n.semas[y].waiters == s.semas[y].waiters
    ensures Links(n)
  {
    hide NoDup;
    assert ReadyLinks(n) && SleepLinks(n);
    assert WaiterLinks(n);
  }

  lemma TakeDownLinks(s: State, x: SemaId)
    requires s.cur in s.threads && x in s.semas && s.semas[x].value > 0
    requires Links(s) && s.threads[s.cur].status == Running && s.cur != s.idle
    ensures Links(TakeDown(s, x))
  {
    hide Links;
    TakeLinks(s, TakeDown(s, x), x);
  }

  lemma TakeDownLocks(s: State, x: SemaId)
    requires LockInv(s) && s.cur in s.threads && x in s.semas && s.semas[x].value > 0
    ensures LockInv(TakeDown(s, x))
  {
    var n := TakeDown(s, x);
    if x in s.locks {
      assert s.locks[x].holder.None?;
      NoDupAppend(s.threads[s.cur].heldLocks, [x]);
      assert x in n.threads[s.cur].heldLocks;
    }
  }

  lemma TakeDownRest(s: State, x: SemaId)
    requires WaitInv(s) && DyingInv(s) && PriorityInv(s) && MaxWaiterInv(s)
    requires s.cur in s.threads && x in s.semas && s.semas[x].value > 0
    requires s.threads[s.cur].status == Running && s.threads[s.cur].pc == AtUser
    ensures var n := TakeDown(s, x); WaitInv(n) && DyingInv(n) && PriorityInv(n) && MaxWaiterInv(n)
  {
    var n := TakeDown(s, x);
    assert forall u :: u in s.threads && u != s.cur ==> n.threads[u] == s.threads[u];
  }

  lemma TakeDownCounts(s: State, x: SemaId)
    requires NoLostWakeupTesting(s, x) && s.cur in s.threads && x in s.semas && s.semas[x].value > 0
    requires s.threads[s.cur].pc == AtUser
    ensures NoLostWakeup(TakeDown(s, x))
  {
    SameWoken(s, TakeDown(s, x));
  }

  lemma TakeDownKeeps(s: State, x: SemaId)
    requires Testing(s, x) && s.semas[x].value > 0
    ensures Core(TakeDown(s, x)) && TakeDown(s, x).threads[s.cur].status == Running
  {
    hide Links, LockInv, WaitInv, DyingInv, PriorityInv, MaxWaiterInv, NoLostWakeup, NoLostWakeupTesting;
    TakeDownLinks(s, x);
    TakeDownLocks(s, x);
    TakeDownRest(s, x);
    TakeDownCounts(s, x);
  }

  lemma TakeDownRestoresInv(s: State, x: SemaId)
    requires Testing(s, x) && s.semas[x].value > 0 && StrictPriority(s) && SleepBound(s) && s.slice < TIME_SLICE
    ensures Inv(TakeDown(s, x))
  {
    assert ReadyLinks(s);
    hide Core, Testing, Links, ReadyLinks;
    TakeDownKeeps(s, x);
  }

  /** Testing a semaphore's value, and blocking or taking it, keeps the invariant. */
  lemma DownRestoresInv(s: State, x: SemaId)
    requires WellFormed(s) && Testing(s, x) && StrictPriority(s) && SleepBound(s) && s.slice < TIME_SLICE
    ensures Inv(DownFrom(s, x))
  {
    hide Inv, Links, LockInv, WaitInv, DyingInv, PriorityInv, MaxWaiterInv, NoLostWakeupTesting;
    if s.semas[x].value == 0 {
      JoinWaitersKeeps(s, x);
      ScheduleRestoresInv(JoinWaiters(s, x));
    } else {
      TakeDownRestoresInv(s, x);
    }
  }

  // ----- Up -----

  lemma WakeLinks(s: State, n: State, x: SemaId, k: nat)
    requires Links(s) && x in s.semas && k < |s.semas[x].waiters|
    requires n == s.(threads := n.threads, semas := n.semas, locks := n.locks, ready := n.ready)
    requires var top := s.semas[x].waiters[k];
             && top in s.threads
             && n.threads == s.threads[top := s.threads[top].(status := Ready)]
             && n.ready == s.ready + [top]
    requires n.semas == s.semas[x := Semaphore(s.semas[x].value + 1, RemoveAt(s.semas[x].waiters, k))]
    ensures Links(n)
  {
    hide NoDup, RemoveAt, Located;
    WakeLists(s, n, x, k);
    hide ReadyLinks, SleepLinks;
    var top := s.semas[x].waiters[k];
    assert top in s.semas[x].waiters;
    RemovedFrom(s.semas[x].waiters, k);
    forall t | t in n.threads ensures Located(n, t) {
      assert Located(s, t);
      WakeLocated(s, n, x, k, t);
    }
  }

  lemma RemovedFrom(q: seq<Tid>, k: nat)
    requires k < |q|
    ensures forall t :: t in q && t != q[k] ==> t in RemoveAt(q, k)
  {
    forall t | t in q && t != q[k] ensures t in RemoveAt(q, k) {
      var i :| 0 <= i < |q| && q[i] == t;
      assert RemoveAt(q, k)[if i < k then i else i - 1] == t;
    }
  }

  lemma WakeLocated(s: State, n: State, x: SemaId, k: nat, t: Tid)
    requires t in s.threads && Located(s, t) && x in s.semas && k < |s.semas[x].waiters|
    requires n == s.(threads := n.threads, semas := n.semas, locks := n.locks,
                     ready := s.ready + [s.semas[x].waiters[k]])
    requires t in n.threads
    requires n.threads[t] == if t == s.semas[x].waiters[k] then s.threads[t].(status := Ready) else s.threads[t]
    requires n.semas == s.semas[x := Semaphore(s.semas[x].value + 1, RemoveAt(s.semas[x].waiters, k))]
    requires forall u :: u in s.semas[x].waiters && u != s.semas[x].waiters[k] ==> u in RemoveAt(s.semas[x].waiters, k)
    ensures Located(n, t)
  {
    hide RemoveAt;
  }

  lemma WakeLists(s: State, n: State, x: SemaId, k: nat)
    requires Links(s) && x in s.semas && k < |s.semas[x].waiters|
    requires n == s.(threads := n.threads, semas := n.semas, locks := n.locks, ready := n.ready)
    requires var top := s.semas[x].waiters[k];
             && top in s.threads
             && n.threads == s.threads[top := s.threads[top].(status := Ready)]
             && n.ready == s.ready + [top]
    requires n.semas == s.semas[x := Semaphore(s.semas[x].value + 1, RemoveAt(s.semas[x].waiters, k))]
    ensures ReadyLinks(n) && SleepLinks(n) && WaiterLinks(n)
  {
    hide Located;
    var top := s.semas[x].waiters[k];
    assert top in s.semas[x].waiters && top !in s.ready && top !in s.sleeping;
    RemoveAtElements(s.semas[x].waiters, k);
    NoDupAppend(s.ready, [top]);
    hide NoDup, RemoveAt;
    assert WaiterLinks(n);
  }

  lemma RaiseLinks(s: State, n: State, x: SemaId)
    requires Links(s) && x in s.semas
    requires n == s.(semas := s.semas[x := s.semas[x].(value := s.semas[x].value + 1)])
    ensures Links(n)
  {
    assert ReadyLinks(n) && SleepLinks(n) && WaiterLinks(n);
  }

  lemma WakeAndRaiseLinks(s: State, x: SemaId)
    requires Links(s) && x in s.semas
    requires forall t :: t in s.semas[x].waiters ==> t in s.threads
    ensures Links(WakeAndRaise(s, x))
  {
    hide Links, WakeAndRaise;
    WakeShape(s, x);
    var n := WakeAndRaise(s, x);
    if s.semas[x].waiters == [] {
      RaiseLinks(s, n, x);
    } else {
      WakeLinks(s, n, x, FirstMax(s.threads, s.semas[x].waiters));
    }
  }

  lemma WakeAndRaiseCounts(s: State, x: SemaId)
    requires WaiterLinks(s) && NoLostWakeup(s) && x in s.semas
    ensures NoLostWakeup(WakeAndRaise(s, x))
  {
    hide WakeAndRaise;
    WakeShape(s, x);
    var n := WakeAndRaise(s, x);
    if s.semas[x].waiters == [] {
      SameWoken(s, n);
    } else {
      var top := s.semas[x].waiters[FirstMax(s.threads, s.semas[x].waiters)];
      forall y | y in n.semas && n.semas[y].waiters != [] ensures n.semas[y].value <= |Woken(n, y)| {
        WokenGrows(s, n, top, x, y);
        assert y != x ==> n.semas[y] == s.semas[y];
      }
    }
  }

  /** Waking a waiter of `x` adds it to the threads woken from `x`. */
  lemma WokenGrows(s: State, n: State, top: Tid, x: SemaId, y: SemaId)
    requires top in s.threads && s.threads[top].status == Blocked && s.threads[top].pc == InDown(x)
    requires n.threads == s.threads[top := s.threads[top].(status := Ready)]
    ensures |Woken(n, y)| == |Woken(s, y)| + if y == x then 1 else 0
  {
    if y == x {
      assert Woken(n, x) == Woken(s, x) + {top} && top !in Woken(s, x);
    } else {
      assert Woken(n, y) == Woken(s, y);
    }
  }

  /** `x` is a plain semaphore, or a lock whose holder lock_release() has just cleared. */
  ghost predicate Releasing(s: State, x: SemaId) {
    && x in s.semas
    && s.cur in s.threads && s.idle in s.threads
    && Links(s) && Ownership(s)
    && Exclusion(s, {x})
    && (x in s.locks ==> s.locks[x].holder.None? && s.semas[x].value == 0)
    && WaitInv(s) && NoLostWakeup(s)
    && PriorityInv(s) && DyingInv(s) && MaxWaiterInv(s) && s.slice <= s.ticks
    && s.threads[s.cur].status == Running
    && s.slice < TIME_SLICE
  }

  /** Waking a thread changes statuses only; the lock, if `x` is one, becomes free. */
  ghost predicate Raised(s: State, n: State, x: SemaId) {
    && n.threads.Keys == s.threads.Keys
    && (forall t :: t in s.threads ==>
          && n.threads[t] == s.threads[t].(status := n.threads[t].status)
          && (n.threads[t].status == s.threads[t].status || n.threads[t].status == Ready))
    && n.semas.Keys == s.semas.Keys && x in s.semas
    && (forall y :: y in s.semas ==> n.semas[y].value == s.semas[y].value + (if y == x then 1 else 0))
    && n.locks.Keys == s.locks.Keys
    && (forall y :: y in s.locks ==> n.locks[y].holder == s.locks[y].holder)
  }

  lemma WakeAndRaiseRaises(s: State, x: SemaId)
    requires x in s.semas && s.locks.Keys <= s.semas.Keys
    requires forall t :: t in s.semas[x].waiters ==> t in s.threads
    ensures Raised(s, WakeAndRaise(s, x), x)
  {
    hide WakeAndRaise, RemoveAt;
    WakeShape(s, x);
  }

  lemma WakeAndRaiseMax(s: State, x: SemaId)
    requires x in s.semas && s.locks.Keys <= s.semas.Keys && PriorityInv(s) && MaxWaiterInv(s)
    requires forall t :: t in s.semas[x].waiters ==> t in s.threads
    ensures MaxWaiterInv(WakeAndRaise(s, x))
  {
  }

  lemma RaisedKeepsOwners(s: State, n: State, x: SemaId)
    requires Raised(s, n, x) && Ownership(s) && Exclusion(s, {x}) && WaitInv(s) && PriorityInv(s) && DyingInv(s)
    requires x in s.locks ==> s.locks[x].holder.None? && s.semas[x].value == 0
    ensures LockInv(n) && WaitInv(n) && PriorityInv(n) && DyingInv(n)
  {
    RaisedKeepsLocks(s, n, x);
    hide LockInv, Ownership, Exclusion;
    assert forall t :: t in s.threads ==> n.threads[t] == s.threads[t].(status := n.threads[t].status);
  }

  lemma RaisedKeepsLocks(s: State, n: State, x: SemaId)
    requires Raised(s, n, x) && Ownership(s) && Exclusion(s, {x})
    requires x in s.locks ==> s.locks[x].holder.None? && s.semas[x].value == 0
    ensures LockInv(n)
  {
    hide NoDup;
    assert forall t :: t in s.threads ==> n.threads[t].heldLocks == s.threads[t].heldLocks;
  }

  /** The waiters exist, and the caller is none of them. */
  lemma WaitersBlocked(s: State, x: SemaId)
    requires Links(s) && x in s.semas && s.threads[s.cur].status == Running
    ensures WaiterLinks(s) && s.cur !in s.semas[x].waiters && forall t :: t in s.semas[x].waiters ==> t in s.threads
  {
  }

  lemma WakeAndRaiseKeeps(s: State, x: SemaId)
    requires Releasing(s, x)
    ensures forall t :: t in s.semas[x].waiters ==> t in s.threads
    ensures Executing(WakeAndRaise(s, x))
  {
    hide Links, LockInv, WaitInv, DyingInv, PriorityInv, MaxWaiterInv, NoLostWakeup, WaiterLinks, Exclusion, Raised;
    hide WakeAndRaise, RemoveAt;
    WaitersBlocked(s, x);
    WakeShape(s, x);
    var n := WakeAndRaise(s, x);
    WakeAndRaiseLinks(s, x);
    WakeAndRaiseCounts(s, x);
    WakeAndRaiseRaises(s, x);
    WakeAndRaiseMax(s, x);
    RaisedKeepsOwners(s, n, x);
  }

  lemma UpRestoresInv(s: State, x: SemaId)
    requires WellFormed(s) && Releasing(s, x)
    ensures Inv(UpFrom(s, x))
  {
    WakeAndRaiseKeeps(s, x);
    hide Inv, Executing, YieldCpu;
    YieldRestoresInv(WakeAndRaise(s, x));
  }

  lemma PlainReleasing(s: State, x: SemaId)
    requires Inv(s) && x in s.semas && x !in s.locks
    ensures Releasing(s, x)
  {
    hide Links, WaitInv, DyingInv, PriorityInv, MaxWaiterInv, NoLostWakeup;
  }

  lemma DropLockOwnership(s: State, x: SemaId)
    requires LockInv(s) && s.cur in s.threads && x in s.locks && s.locks[x].holder == Some(s.cur)
    ensures var n := DropLock(s, x); Ownership(n) && Exclusion(n, {x})
  {
    hide RestoredPriority;
    var held := s.threads[s.cur].heldLocks;
    FilterElements(held, y => y != x);
    hide NoDup;
    var n := DropLock(s, x);
    var kept := n.threads[s.cur].heldLocks;
    assert forall y :: y in kept <==> y in held && y != x;
    DropLockOwners(s, n, x);
  }

  lemma DropLockOwners(s: State, n: State, x: SemaId)
    requires LockInv(s) && s.cur in s.threads && x in s.locks && s.locks[x].holder == Some(s.cur)
    requires n.threads.Keys == s.threads.Keys && n.semas == s.semas
             && n.locks == s.locks[x := s.locks[x].(holder := None)]
    requires forall t :: t in s.threads && t != s.cur ==> n.threads[t] == s.threads[t]
    requires NoDup(n.threads[s.cur].heldLocks)
    requires forall y :: y in n.threads[s.cur].heldLocks <==> y in s.threads[s.cur].heldLocks && y != x
    ensures Ownership(n) && Exclusion(n, {x})
  {
    hide NoDup;
  }

  lemma DropLockLinks(s: State, x: SemaId)
    requires Links(s) && s.threads[s.cur].status == Running && x in s.locks && s.cur != s.idle
    requires forall y :: y in s.threads[s.cur].heldLocks ==> y in s.locks
    ensures Links(DropLock(s, x))
  {
    var n := DropLock(s, x);
    assert forall t :: t in s.threads && t != s.cur ==> n.threads[t] == s.threads[t];
    assert ReadyLinks(n) && SleepLinks(n) && WaiterLinks(n);
  }

  /** A thread left with no lock is back at its base priority. */
  lemma DropLockPriority(s: State, x: SemaId)
    requires PriorityInv(s) && MaxWaiterInv(s) && WaitInv(s) && DyingInv(s)
    requires s.cur in s.threads && s.threads[s.cur].status == Running && x in s.locks
    requires forall y :: y in s.threads[s.cur].heldLocks ==> y in s.locks
    ensures var n := DropLock(s, x); PriorityInv(n) && MaxWaiterInv(n) && WaitInv(n) && DyingInv(n)
  {
    hide WaitInv, DyingInv, Filter;
    var n := DropLock(s, x);
    var held := s.threads[s.cur].heldLocks;
    FilterElements(held, y => y != x);
    var kept := n.threads[s.cur].heldLocks;
    assert forall y :: y in held && y != x ==> y in kept;
    assert forall t :: t in s.threads && t != s.cur ==> n.threads[t] == s.threads[t];
    DropLockWaits(s, n);
  }

  lemma DropLockWaits(s: State, n: State)
    requires WaitInv(s) && DyingInv(s) && s.cur in s.threads && s.threads[s.cur].status == Running
    requires n.threads.Keys == s.threads.Keys && n.semas == s.semas && n.locks.Keys == s.locks.Keys
    requires forall t :: t in s.threads && t != s.cur ==> n.threads[t] == s.threads[t]
    requires var th, th' := s.threads[s.cur], n.threads[s.cur];
             th'.status == th.status && th'.pc == th.pc && th'.waitingLock == th.waitingLock
    ensures WaitInv(n) && DyingInv(n)
  {
  }

  lemma HolderFacts(s: State, x: SemaId)
    requires Links(s) && LockInv(s) && x in s.locks && s.locks[x].holder == Some(s.cur)
    ensures forall y :: y in s.threads[s.cur].heldLocks ==> y in s.locks
    ensures s.cur != s.idle && x in s.semas && s.semas[x].value == 0 && s.locks.Keys <= s.semas.Keys
    ensures Ownership(s)
  {
  }

  lemma DropLockReleases(s: State, x: SemaId)
    requires Inv(s) && x in s.locks && s.locks[x].holder == Some(s.cur)
    ensures forall y :: y in s.threads[s.cur].heldLocks ==> y in s.locks
    ensures Releasing(DropLock(s, x), x)
  {
    hide Links, LockInv, WaitInv, DyingInv, PriorityInv, MaxWaiterInv, NoLostWakeup, Ownership, Exclusion;
    hide RestoredPriority, Filter;
    HolderFacts(s, x);
    var n := DropLock(s, x);
    DropLockOwnership(s, x);
    DropLockLinks(s, x);
    DropLockPriority(s, x);
    SameWoken(s, n);
    WokenKeepsCount(s, n);
  }

  // ----- Donation -----

  /** Everyone on the donation chain holds a lock. */
  lemma {:induction false} ChainHolds(s: State, at: Option<SemaId>, p: int, seen: set<Tid>, t: Tid)
    requires Ownership(s) && ChainBelow(s, at, p, seen) && t in Chain(s, at, p, seen)
    ensures t in s.threads && s.threads[t].heldLocks != []
    decreases s.threads.Keys - seen
  {
    var h := s.locks[at.value].holder.value;
    if t != h {
      ChainHolds(s, s.threads[h].waitingLock, p, seen + {h}, t);
    }
  }

  /** Raising lock holders to the running thread's priority keeps even strict priority. */
  lemma RaisingKeeps(s: State, r: State, raised: set<Tid>, p: int)
    requires Inv(s) && RaisedTo(s, r, raised, p) && raised <= Below(s.threads, p)
    requires p == s.threads[s.cur].priority && MaxWaiterInv(r)
    requires forall t :: t in raised ==> s.threads[t].heldLocks != []
    ensures Inv(r)
  {
    hide Links, LockInv, WaitInv, DyingInv, MaxWaiterInv, NoLostWakeup;
    PrioritiesKeepCore(s, r);
  }

  lemma DonationMaxWaiter(s: State, x: SemaId)
    requires WellFormed(s) && MaxWaiterInv(s) && PRI_MIN <= s.threads[s.cur].priority
    requires x in s.locks && ChainBelow(s, Some(x), s.threads[s.cur].priority, {})
    ensures MaxWaiterInv(AfterDonation(s, x))
  {
    var p := s.threads[s.cur].priority;
    var r := AfterDonation(s, x);
    DonationTerminatesIff(s, x, p);
    forall y | y in r.locks ensures -1 <= r.locks[y].maxWaiterPriority {
      WalkMarksLocks(s, x, p, y);
    }
  }

  lemma DonationKeeps(s: State, x: SemaId)
    requires WellFormed(s) && Inv(s) && x in s.locks && ChainBelow(s, Some(x), s.threads[s.cur].priority, {})
    ensures Inv(AfterDonation(s, x))
  {
    var p := s.threads[s.cur].priority;
    assert PRI_MIN <= p;
    assert MaxWaiterInv(s) && Ownership(s) && HoldersExist(s);
    hide Inv, MaxWaiterInv, Ownership, HoldersExist, RaisedTo;
    DonationTerminatesIff(s, x, p);
    forall t | t in Chain(s, Some(x), p, {}) ensures t in s.threads && s.threads[t].heldLocks != [] {
      ChainHolds(s, Some(x), p, {}, t);
    }
    DonationMaxWaiter(s, x);
    RaisingKeeps(s, AfterDonation(s, x), Chain(s, Some(x), p, {}), p);
  }

  // ----- The timer -----

  lemma ClockKeepsCore(s: State, n: State)
    requires Core(s) && n == s.(ticks := s.ticks + 1, slice := s.slice + 1)
    ensures Core(n)
  {
    hide LockInv, WaitInv, PriorityInv, MaxWaiterInv, NoLostWakeup;
    assert ReadyLinks(n) && SleepLinks(n) && WaiterLinks(n);
    SchedulingKeepsOwners(s, n.(ticks := s.ticks, slice := s.slice));
    ClockKeepsOwners(s, n);
    SameWoken(s, n);
    WokenKeepsCount(s, n);
  }

  lemma ClockKeepsOwners(s: State, n: State)
    requires LockInv(s) && WaitInv(s) && PriorityInv(s) && MaxWaiterInv(s)
    requires n == s.(ticks := s.ticks + 1, slice := s.slice + 1)
    ensures LockInv(n) && WaitInv(n) && PriorityInv(n) && MaxWaiterInv(n)
  {
  }

  lemma ClockKeepsBounds(s: State, n: State)
    requires Inv(s) && n == s.(ticks := s.ticks + 1, slice := s.slice + 1)
    ensures SleepBound(n) && StrictPriority(n)
  {
    hide LockInv, WaitInv, PriorityInv, MaxWaiterInv, NoLostWakeup, DyingInv, Located, WaiterLinks;
  }

  lemma TickKeeps(s: State)
    requires Inv(s) && Linked(s)
    ensures Inv(Tick(s))
  {
    hide Links, LockInv, WaitInv, PriorityInv, MaxWaiterInv, NoLostWakeup, DyingInv, YieldCpu, StrictPriority;
    hide SleepBound;
    var n := s.(ticks := s.ticks + 1, slice := s.slice + 1);
    ClockKeepsCore(s, n);
    ClockKeepsBounds(s, n);
    if n.slice >= TIME_SLICE {
      YieldRestoresInv(n);
    }
  }

  // ----- All operations -----

  lemma InvTesting(s: State, x: SemaId)
    requires Inv(s) && x in s.semas && s.threads[s.cur].pc == AtUser && s.cur != s.idle
    ensures Testing(s, x)
  {
    hide Links, LockInv, WaitInv, DyingInv, PriorityInv, MaxWaiterInv;
  }

  lemma RunningPc(s: State)
    requires Inv(s)
    ensures s.threads[s.cur].pc.InDown? || s.threads[s.cur].pc.AtUser?
    ensures s.locks.Keys <= s.semas.Keys
    ensures s.threads[s.cur].pc.InDown? ==> s.threads[s.cur].pc.sema in s.semas
    ensures s.threads[s.idle].heldLocks == []
    ensures Executing(s) && WellFormed(s) && Linked(s)
  {
    CoreWellFormed(s);
  }

  lemma SemaDownKeepsInv(s: State, x: SemaId)
    requires WellFormed(s) && Inv(s) && x in s.semas && s.threads[s.cur].pc == AtUser && s.cur != s.idle
    ensures Inv(DownFrom(s, x))
  {
    InvTesting(s, x);
    hide Core, Testing, DownFrom;
    DownRestoresInv(s, x);
  }

  lemma LockAcquireKeepsInv(s: State, x: SemaId)
    requires WellFormed(s) && Inv(s) && x in s.locks && ChainBelow(s, Some(x), s.threads[s.cur].priority, {})
    requires s.threads[s.cur].pc == AtUser && s.cur != s.idle
    ensures Inv(AcquireFrom(s, x))
  {
    var p := s.threads[s.cur].priority;
    RaisedWellFormed(s, AfterDonation(s, x), Chain(s, Some(x), p, {}), p);
    DonationKeeps(s, x);
    hide Inv, DownFrom;
    SemaDownKeepsInv(AfterDonation(s, x), x);
  }

  lemma LockReleaseKeepsInv(s: State, x: SemaId)
    requires WellFormed(s) && Inv(s) && x in s.locks && s.locks[x].holder == Some(s.cur)
    ensures Inv(ReleaseFrom(s, x))
  {
    DropLockWellFormed(s, x);
    DropLockReleases(s, x);
    hide Inv, Releasing, UpFrom;
    UpRestoresInv(DropLock(s, x), x);
  }

  lemma ResumeKeepsInv(s: State)
    requires WellFormed(s) && Inv(s) && s.threads[s.cur].pc.InDown?
    ensures Inv(ResumeFrom(s))
  {
    var x := s.threads[s.cur].pc.sema;
    LeaveBlockTests(s, x);
    LeaveBlockWellFormed(s, x);
    assert StrictPriority(LeaveBlock(s, x)) && SleepBound(LeaveBlock(s, x));
    hide Testing, DownFrom, Inv;
    DownRestoresInv(LeaveBlock(s, x), x);
  }

  lemma SynchOpKeepsInv(s: State, op: Op)
    requires WellFormed(s) && Executing(s) && Inv(s) && Legal(s, op) && IsSynchOp(op)
    requires s.locks.Keys <= s.semas.Keys && (s.threads[s.cur].pc.InDown? || s.threads[s.cur].pc.AtUser?)
    ensures Inv(Step(s, op))
  {
    hide Inv, Core, Executing, WellFormed, Schedule, YieldCpu, DownFrom, UpFrom, AcquireFrom, ReleaseFrom;
    hide ResumeFrom, TakeDown, Tick;
    match op
    case SemaDown(x) => SemaDownKeepsInv(s, x);
    case SemaTryDown(x) => if s.semas[x].value > 0 { SemaDownKeepsInv(s, x); TryDownIsDown(s, x); }
    case SemaUp(x) => PlainReleasing(s, x); UpRestoresInv(s, x);
    case LockAcquire(x) => LockAcquireKeepsInv(s, x);
    case LockRelease(x) => LockReleaseKeepsInv(s, x);
    case Resume => ResumeKeepsInv(s);
  }

  lemma ThreadOpKeepsInv(s: State, op: Op)
    requires WellFormed(s) && Linked(s) && Executing(s) && Inv(s) && Legal(s, op) && !IsSynchOp(op)
    requires s.threads[s.cur].pc.InDown? || s.threads[s.cur].pc.AtUser?
    requires s.cur in s.threads && s.idle in s.threads && s.threads[s.idle].heldLocks == []
    ensures Inv(Step(s, op))
  {
    hide Inv, Core, Executing, WellFormed, Linked, Schedule, YieldCpu, DownFrom, UpFrom, AcquireFrom, ReleaseFrom;
    hide ResumeFrom, TakeDown, Tick;
    match op
    case SleepUntil(end) => PutToSleepKeeps(s, end); ScheduleRestoresInv(PutToSleep(s, end));
    case SetPriority(p) => WithPriorityKeeps(s, p); YieldRestoresInv(WithPriority(s, p));
    case InitThread(t, p) => InitThreadKeeps(s, t, p);
    case StartThread(t) => MakeReadyKeeps(s, t); YieldRestoresInv(MakeReady(s, t));
    case Yield => YieldRestoresInv(s);
    case Exit => LeaveKeeps(s, Dying); ScheduleRestoresInv(SetStatus(s, Dying));
    case IdleBlock => LeaveKeeps(s, Blocked); ScheduleRestoresInv(SetStatus(s, Blocked));
    case TimerTick => TickKeeps(s);
  }

  /** The invariant is inductive: every legal operation keeps it. */
  lemma StepKeepsInv(s: State, op: Op)
    requires Inv(s) && Legal(s, op)
    ensures WellFormed(s) && Inv(Step(s, op))
  {
    RunningPc(s);
    if IsSynchOp(op) {
      SynchOpKeepsInv(s, op);
    } else {
      ThreadOpKeepsInv(s, op);
    }
  }

  lemma TryDownIsDown(s: State, x: SemaId)
    requires WellFormed(s) && x in s.semas && s.semas[x].value > 0
    ensures DownFrom(s, x) == TakeDown(s, x)
  {
  }
}
