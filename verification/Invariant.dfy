/** The scheduler's inductive invariant, in parts, and its preservation by schedule(). */
module Invariant {

  import opened Lists
  import opened Threads

  /** The list a thread's single `elem` is linked in follows from its status and pc. */
  ghost predicate Located(s: State, t: Tid)
    requires t in s.threads
  {
    var th := s.threads[t];
    match th.status
    case Running => t == s.cur
    case Ready => t == s.idle || t in s.ready
    case Blocked =>
      || t == s.idle
      || th.pc.Fresh?
      || (th.pc.AtUser? && t in s.sleeping)
      || (th.pc.InDown? && th.pc.sema in s.semas && t in s.semas[th.pc.sema].waiters)
    case Dying => t == s.cur || t == s.initial
  }

  ghost predicate ReadyLinks(s: State) {
    && NoDup(s.ready)
    && (forall t :: t in s.ready ==> t in s.threads && s.threads[t].status == Ready && t != s.idle)
  }

  ghost predicate SleepLinks(s: State) {
    && NoDup(s.sleeping)
    && (forall t :: t in s.sleeping ==>
          && t in s.threads && s.threads[t].status == Blocked && s.threads[t].pc == AtUser
          && t != s.idle && s.threads[t].endTick >= 0)
  }

  ghost predicate WaiterLinks(s: State) {
    forall x :: x in s.semas ==>
      && NoDup(s.semas[x].waiters)
      && (forall t :: t in s.semas[x].waiters ==>
            t in s.threads && s.threads[t].status == Blocked && s.threads[t].pc == InDown(x))
  }

  /** Each thread is where its status says; the idle thread holds and awaits nothing. */
  ghost predicate Links(s: State) {
    && s.cur in s.threads
    && s.idle in s.threads
    && s.threads[s.idle].pc == AtUser
    && s.threads[s.idle].status != Dying
    && s.threads[s.idle].heldLocks == []
    && ReadyLinks(s)
    && SleepLinks(s)
    && WaiterLinks(s)
    && (forall t :: t in s.threads ==> Located(s, t))
    && (forall t :: t in s.threads && s.threads[t].pc.Fresh? ==> s.threads[t].status == Blocked)
  }

  /** A lock's value says whether it is held. Between lock_release()'s two assignments that
      is not so for the locks in `open`. */
  ghost predicate Exclusion(s: State, open: set<SemaId>)
    requires s.locks.Keys <= s.semas.Keys
  {
    forall x :: x in s.locks && x !in open ==>
      s.semas[x].value + (if s.locks[x].holder.Some? then 1 else 0) == 1
  }

  /** The holder of a lock exists and lists it, once, and nobody else does. */
  ghost predicate Ownership(s: State) {
    && s.locks.Keys <= s.semas.Keys
    && (forall x :: x in s.locks && s.locks[x].holder.Some? ==>
          && s.locks[x].holder.value in s.threads
          && x in s.threads[s.locks[x].holder.value].heldLocks)
    && (forall t :: t in s.threads ==> NoDup(s.threads[t].heldLocks))
    && (forall t, x :: t in s.threads && x in s.threads[t].heldLocks ==>
          x in s.locks && s.locks[x].holder == Some(t))
  }

  ghost predicate LockInv(s: State) {
    Ownership(s) && Exclusion(s, {})
  }

  ghost predicate WaitInv(s: State) {
    && (forall t :: t in s.threads && s.threads[t].pc.InDown? ==> s.threads[t].pc.sema in s.semas)
    && (forall t :: t in s.threads ==>
          s.threads[t].waitingLock ==
            if s.threads[t].pc.InDown? && s.threads[t].pc.sema in s.locks
            then Some(s.threads[t].pc.sema) else None)
  }

  ghost predicate WokenInDown(th: Thread) {
    th.pc.InDown? && th.status != Blocked
  }

  /** Threads woken from `x` that have not yet tested its value again. */
  ghost function Woken(s: State, x: SemaId): set<Tid> {
    set t | t in s.threads && WokenInDown(s.threads[t]) && s.threads[t].pc.sema == x
  }

  ghost predicate NoLostWakeup(s: State) {
    forall x :: x in s.semas && s.semas[x].waiters != [] ==> s.semas[x].value <= |Woken(s, x)|
  }

  /** The same while one woken thread is about to test the value of `x`. */
  ghost predicate NoLostWakeupTesting(s: State, x: SemaId) {
    forall y :: y in s.semas && s.semas[y].waiters != [] ==>
      s.semas[y].value <= |Woken(s, y)| + (if y == x then 1 else 0)
  }

  ghost predicate PriorityInv(s: State) {
    forall t :: t in s.threads ==>
      var th := s.threads[t];
      && PRI_MIN <= th.basePriority <= th.priority
      && (th.heldLocks == [] ==> th.priority == th.basePriority)
  }

  ghost predicate DyingInv(s: State) {
    forall t :: t in s.threads && s.threads[t].status == Dying ==>
      s.threads[t].heldLocks == [] && s.threads[t].pc == AtUser
  }

  /** A recorded max_waiter_priority is a priority or -1. */
  ghost predicate MaxWaiterInv(s: State) {
    forall x :: x in s.locks ==> -1 <= s.locks[x].maxWaiterPriority
  }

  /** Holds whenever interrupts are off and the current operation is between two
      assignments that belong together. */
  ghost predicate Core(s: State) {
    && s.cur in s.threads
    && s.idle in s.threads
    && Links(s)
    && LockInv(s)
    && WaitInv(s)
    && NoLostWakeup(s)
    && PriorityInv(s)
    && DyingInv(s)
    && MaxWaiterInv(s)
    && s.slice <= s.ticks
  }

  /** No thread on the run queue beats the running one. */
  ghost predicate StrictPriority(s: State)
    requires s.cur in s.threads
  {
    forall t :: t in s.ready && t in s.threads ==> s.threads[t].priority <= s.threads[s.cur].priority
  }

  /** Every sleeper is due only after the last call of schedule(). */
  ghost predicate SleepBound(s: State) {
    forall t :: t in s.sleeping && t in s.threads ==> s.ticks - s.slice < s.threads[t].endTick
  }

  /** Holds whenever the running thread may execute a kernel operation. */
  ghost predicate Inv(s: State) {
    && Core(s)
    && s.threads[s.cur].status == Running
    && StrictPriority(s)
    && SleepBound(s)
    && s.slice < TIME_SLICE
    && (s.cur == s.idle ==> s.ready == [])
  }

  /** Holds when schedule() is called. */
  ghost predicate Descheduled(s: State) {
    && Core(s)
    && s.threads[s.cur].status != Running
    && s.slice <= TIME_SLICE
  }

  lemma CoreWellFormed(s: State)
    requires Core(s)
    ensures WellFormed(s)
  {
  }

  // ----- schedule() -----

  /** What the sweep does, without saying in which order. */
  ghost predicate Woke(s: State, w: State) {
    && w == s.(threads := w.threads, ready := w.ready, sleeping := w.sleeping)
    && w.threads.Keys == s.threads.Keys
    && NoDup(w.ready) && NoDup(w.sleeping)
    && (forall t :: t in w.ready <==> t in s.ready || (t in s.sleeping && Due(s, t)))
    && (forall t :: t in w.sleeping <==> t in s.sleeping && !Due(s, t))
    && (forall t :: t in s.threads ==>
          w.threads[t] == if t in s.sleeping && Due(s, t)
                          then s.threads[t].(status := Ready, endTick := -1) else s.threads[t])
  }

  lemma SweepWakes(s: State)
    requires ReadyLinks(s) && SleepLinks(s)
    ensures Woke(s, WakeSleepers(s))
  {
    WakeSleepersLinks(s);
    FilterElements(s.sleeping, t => Due(s, t));
    FilterElements(s.sleeping, t => !Due(s, t));
    NoDupAppend(s.ready, Filter(s.sleeping, t => Due(s, t)));
  }

  lemma WokeLinks(s: State, w: State)
    requires Links(s) && Woke(s, w)
    ensures Links(w)
  {
    hide NoDup;
    assert WaiterLinks(w) by {
      forall x, t | x in w.semas && t in w.semas[x].waiters
        ensures t in w.threads && w.threads[t] == s.threads[t]
      {
        assert t in s.semas[x].waiters;
      }
    }
  }

  lemma WokeLocks(s: State, w: State)
    requires LockInv(s) && Woke(s, w)
    ensures LockInv(w)
  {
  }

  lemma WokeRest(s: State, w: State)
    requires WaitInv(s) && PriorityInv(s) && DyingInv(s) && Woke(s, w)
    ensures WaitInv(w) && PriorityInv(w) && DyingInv(w)
  {
    hide Due, NoDup;
    forall t | t in w.threads
      ensures w.threads[t] == s.threads[t].(status := w.threads[t].status, endTick := w.threads[t].endTick)
    {
    }
    WokeWaits(s, w);
  }

  lemma WokeWaits(s: State, w: State)
    requires WaitInv(s) && w.threads.Keys == s.threads.Keys && w.semas == s.semas && w.locks == s.locks
    requires forall t :: t in w.threads ==>
             w.threads[t].pc == s.threads[t].pc && w.threads[t].waitingLock == s.threads[t].waitingLock
    ensures WaitInv(w)
  {
  }

  lemma WokeWoken(s: State, w: State, x: SemaId)
    requires SleepLinks(s) && Woke(s, w)
    ensures Woken(w, x) == Woken(s, x)
  {
    assert forall t :: t in Woken(w, x) <==> t in Woken(s, x);
  }

  lemma WokeKeepsCore(s: State, w: State)
    requires Descheduled(s) && Woke(s, w)
    ensures Descheduled(w)
  {
    hide LockInv, WaitInv, PriorityInv;
    WokeLinks(s, w);
    WokeLocks(s, w);
    WokeRest(s, w);
    forall x | x in w.semas && w.semas[x].waiters != [] ensures w.semas[x].value <= |Woken(w, x)| {
      WokeWoken(s, w, x);
    }
  }

  lemma WakeSleepersKeepsCore(s: State)
    requires Descheduled(s)
    ensures Woke(s, WakeSleepers(s)) && Descheduled(WakeSleepers(s))
  {
    var w := WakeSleepers(s);
    SweepWakes(s);
    WokeKeepsCore(s, w);
  }

  /** `next` is the best ready thread, taken off the run queue, or idle when there is none. */
  ghost predicate Picked(w: State, r: State, next: Tid) {
    && next in w.threads && next !in r.ready
    && r == w.(ready := r.ready) && ReadyLinks(r)
    && (forall t :: t in w.ready <==> t in r.ready || (t == next && next != w.idle))
    && (forall t :: t in r.ready ==> w.threads[t].priority <= w.threads[next].priority)
    && (if next == w.idle then w.ready == [] else w.threads[next].status == Ready)
  }

  lemma TakeNextPicks(s: State)
    requires s.idle in s.threads && ReadyLinks(s)
    ensures Picked(s, TakeNext(s).0, TakeNext(s).1)
  {
    if s.ready != [] {
      RemoveAtElements(s.ready, FirstMax(s.threads, s.ready));
    }
  }

  /** The switch in terms of single threads: `next` runs, and at most a dying predecessor is
      gone. */
  ghost predicate Switched(w: State, n: State, next: Tid) {
    && n == w.(threads := n.threads, ready := n.ready, cur := next, slice := 0)
    && next in w.threads && next in n.threads && n.threads[next] == w.threads[next].(status := Running)
    && (forall t :: t in n.threads ==> t in w.threads)
    && (forall t :: t in n.threads && t != next ==> n.threads[t] == w.threads[t])
    && (forall t :: t in w.threads ==>
          (t !in n.threads <==> t == w.cur && t != next && w.threads[t].status == Dying && t != w.initial))
  }

  lemma SwitchIsSwitched(w: State, r: State, next: Tid)
    requires w.cur in w.threads && next in w.threads && r == w.(ready := r.ready)
    ensures Switched(w, SwitchTo(r, next), next) && SwitchTo(r, next).ready == r.ready
  {
  }

  lemma SwitchLinks(w: State, r: State, next: Tid)
    requires Links(w) && w.threads[w.cur].status != Running && Picked(w, r, next)
    ensures Links(SwitchTo(r, next))
  {
    hide SwitchTo, ReadyLinks, SleepLinks, WaiterLinks, Located;
    SwitchIsSwitched(w, r, next);
    SwitchLists(w, r, next);
    SwitchLocated(w, r, SwitchTo(r, next), next);
  }

  lemma SwitchLocated(w: State, r: State, n: State, next: Tid)
    requires Links(w) && w.threads[w.cur].status != Running && Picked(w, r, next) && Switched(w, n, next)
             && n.ready == r.ready
    ensures n.idle in n.threads && forall t :: t in n.threads ==> Located(n, t)
    ensures forall t :: t in n.threads && n.threads[t].pc.Fresh? ==> n.threads[t].status == Blocked
  {
    hide ReadyLinks, SleepLinks, WaiterLinks;
    forall t | t in n.threads ensures Located(n, t) {
      assert Located(w, t);
    }
    NotFresh(w, r, next);
  }

  /** The thread that is picked does not wait in thread_create(). */
  lemma NotFresh(w: State, r: State, next: Tid)
    requires Links(w) && Picked(w, r, next)
    ensures !w.threads[next].pc.Fresh?
  {
    hide SleepLinks, WaiterLinks;
    assert Located(w, next);
  }

  lemma SwitchLists(w: State, r: State, next: Tid)
    requires Links(w) && w.threads[w.cur].status != Running && Picked(w, r, next)
    ensures var n := SwitchTo(r, next); WaiterLinks(n) && SleepLinks(n) && ReadyLinks(n)
  {
    hide SwitchTo, Located;
    SwitchIsSwitched(w, r, next);
    var n := SwitchTo(r, next);
    assert next !in w.sleeping;
    assert forall x :: x in w.semas ==> next !in w.semas[x].waiters;
    assert WaiterLinks(n);
    assert SleepLinks(n);
  }

  lemma SwitchLocks(w: State, r: State, next: Tid)
    requires w.cur in w.threads && LockInv(w) && DyingInv(w) && Picked(w, r, next)
    ensures LockInv(SwitchTo(r, next))
  {
    hide SwitchTo, ReadyLinks;
    SwitchIsSwitched(w, r, next);
    var n := SwitchTo(r, next);
    assert forall t :: t in n.threads ==> n.threads[t].heldLocks == w.threads[t].heldLocks;
  }

  lemma SwitchWoken(w: State, r: State, next: Tid, x: SemaId)
    requires w.cur in w.threads && w.idle in w.threads && w.threads[w.idle].pc == AtUser
    requires DyingInv(w) && Picked(w, r, next)
    ensures Woken(SwitchTo(r, next), x) == Woken(w, x)
  {
    hide SwitchTo, ReadyLinks;
    SwitchIsSwitched(w, r, next);
    var n := SwitchTo(r, next);
    forall t ensures t in Woken(n, x) <==> t in Woken(w, x) {
    }
  }

  lemma SwitchRest(w: State, r: State, next: Tid)
    requires w.cur in w.threads && w.idle in w.threads && Picked(w, r, next)
    requires WaitInv(w) && PriorityInv(w) && DyingInv(w)
    ensures var n := SwitchTo(r, next); WaitInv(n) && PriorityInv(n) && DyingInv(n)
  {
    hide SwitchTo, ReadyLinks;
    SwitchIsSwitched(w, r, next);
  }

  lemma SwitchKeepsCore(w: State, r: State, next: Tid)
    requires Descheduled(w) && Picked(w, r, next)
    ensures Core(SwitchTo(r, next))
  {
    SwitchLinks(w, r, next);
    SwitchLocks(w, r, next);
    SwitchRest(w, r, next);
    var n := SwitchTo(r, next);
    forall x | x in n.semas && n.semas[x].waiters != [] ensures n.semas[x].value <= |Woken(n, x)| {
      SwitchWoken(w, r, next, x);
    }
  }

  /** The scheduler's choice and the sweep, as facts about the state they leave. */
  lemma SwitchRunsBest(s: State, w: State, r: State, next: Tid)
    requires s.cur in s.threads && s.idle in s.threads && SleepLinks(w)
    requires Woke(s, w) && Picked(w, r, next)
    ensures var n := SwitchTo(r, next);
            && n.threads[n.cur].status == Running
            && StrictPriority(n) && SleepBound(n)
            && (n.cur == n.idle ==> n.ready == [])
  {
    assert r.ready != [] ==> r.ready[0] in w.ready;
  }

  /** Whatever schedule() is called on, it restores the whole invariant; in particular the
      thread it picks has the highest priority, and no sleeper that is due stays asleep. */
  lemma ScheduleRestoresInv(s: State)
    requires Descheduled(s)
    ensures Inv(Schedule(s))
    ensures Schedule(s).slice == 0 && Schedule(s).ticks == s.ticks
  {
    var w := WakeSleepers(s);
    WakeSleepersKeepsCore(s);
    TakeNextPicks(w);
    SwitchKeepsCore(w, TakeNext(w).0, TakeNext(w).1);
    SwitchRunsBest(s, w, TakeNext(w).0, TakeNext(w).1);
    assert Schedule(s) == SwitchTo(TakeNext(w).0, TakeNext(w).1);
  }
}
