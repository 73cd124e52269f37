/** Semaphores, locks and priority donation (threads/synch.c) as functions on the
    kernel state.  Each function is one uninterrupted stretch of kernel code: it ends
    where the code returns to its caller or calls schedule(). */
module Synch {

  import opened Lists
  import opened Threads

  // ----- update_lock_max_priority() -----

  /** The largest priority among `q`, or -1. */
  function MaxPriority(threads: map<Tid, Thread>, q: seq<Tid>): (m: int)
    requires forall t :: t in q ==> t in threads
    ensures m >= -1
    ensures forall t :: t in q ==> threads[t].priority <= m
    ensures m == -1 || exists t :: t in q && threads[t].priority == m
  {
    if q == [] then -1
    else
      var rest := MaxPriority(threads, q[1..]);
      assert forall t :: t in q ==> t == q[0] || t in q[1..];
      if rest > threads[q[0]].priority then rest
      else if threads[q[0]].priority >= -1 then assert q[0] in q; threads[q[0]].priority
      else -1
  }

  function UpdateMaxWaiter(s: State, x: SemaId): State
    requires x in s.semas && x in s.locks
    requires forall t :: t in s.semas[x].waiters ==> t in s.threads
  {
    s.(locks := s.locks[x := s.locks[x].(maxWaiterPriority := MaxPriority(s.threads, s.semas[x].waiters))])
  }

  // ----- sema_down_internal() -----

  /** Joining the waiters of `x`: the loop body up to thread_block(). */
  function JoinWaiters(s: State, x: SemaId): State
    requires s.cur in s.threads && x in s.semas
    requires forall t :: t in s.semas[x].waiters ==> t in s.threads
  {
    var th := s.threads[s.cur];
    var queued := s.(semas := s.semas[x := s.semas[x].(waiters := s.semas[x].waiters + [s.cur])]);
    if x in s.locks then
      SetStatus(
        UpdateMaxWaiter(SetThread(queued, s.cur, th.(waitingLock := Some(x), pc := InDown(x))), x),
        Blocked)
    else
      SetStatus(SetThread(queued, s.cur, th.(pc := InDown(x))), Blocked)
  }

  /** Joining the waiters changes, of the threads, only the caller, and not its priority. */
  lemma JoinShape(s: State, x: SemaId)
    requires s.cur in s.threads && x in s.semas && forall t :: t in s.semas[x].waiters ==> t in s.threads
    ensures var n := JoinWaiters(s, x);
            && n == s.(threads := n.threads, semas := n.semas, locks := n.locks) && n.threads.Keys == s.threads.Keys
            && (forall t :: t in s.threads && t != s.cur ==> n.threads[t] == s.threads[t])
            && n.threads[s.cur].priority == s.threads[s.cur].priority && n.threads[s.cur].status == Blocked
  {
    hide MaxPriority;
  }

  /** Leaving the loop: the value is taken, and lock_acquire() records the new holder. */
  function TakeDown(s: State, x: SemaId): State
    requires s.cur in s.threads && x in s.semas && s.semas[x].value > 0
  {
    var th := s.threads[s.cur].(pc := AtUser);
    var taken := s.(semas := s.semas[x := s.semas[x].(value := s.semas[x].value - 1)]);
    if x in s.locks then
      SetThread(taken, s.cur, th.(heldLocks := th.heldLocks + [x]))
        .(locks := s.locks[x := s.locks[x].(holder := Some(s.cur))])
    else
      SetThread(taken, s.cur, th)
  }

  /** One test of the loop condition and what follows it. */
  ghost function DownFrom(s: State, x: SemaId): (n: State)
    requires WellFormed(s) && x in s.semas
    ensures n.ticks == s.ticks
  {
    if s.semas[x].value == 0 then Schedule(JoinWaiters(s, x)) else TakeDown(s, x)
  }

  /** The thread has been chosen again after thread_block(). */
  function LeaveBlock(s: State, x: SemaId): State
    requires s.cur in s.threads
  {
    var th := s.threads[s.cur].(pc := AtUser);
    SetThread(s, s.cur, if x in s.locks then th.(waitingLock := None) else th)
  }

  // ----- sema_up_internal() -----

  /** Everything before thread_yield(): the best waiter is made ready, the value grows. */
  function WakeAndRaise(s: State, x: SemaId): State
    requires x in s.semas
    requires forall t :: t in s.semas[x].waiters ==> t in s.threads
  {
    var sem := s.semas[x];
    if sem.waiters == [] then s.(semas := s.semas[x := sem.(value := sem.value + 1)])
    else
      var k := FirstMax(s.threads, sem.waiters);
      var rest := RemoveAt(sem.waiters, k);
      var woken := Unblock(s, sem.waiters[k]).(semas := s.semas[x := Semaphore(sem.value + 1, rest)]);
      if x in s.locks then
        assert forall t :: t in rest ==> t in sem.waiters;
        UpdateMaxWaiter(woken, x)
      else woken
  }

  /** The wake-up makes at most one waiter ready, at the end of the run queue; of the locks it
      changes only the max_waiter_priority of `x`. */
  lemma WakeShape(s: State, x: SemaId)
    requires x in s.semas && forall t :: t in s.semas[x].waiters ==> t in s.threads
    ensures var n, q := WakeAndRaise(s, x), s.semas[x].waiters;
            && n == s.(threads := n.threads, ready := n.ready, semas := n.semas, locks := n.locks)
            && (q == [] ==> n == s.(semas := s.semas[x := Semaphore(s.semas[x].value + 1, [])]))
            && (q != [] ==>
                  var k := FirstMax(s.threads, q);
                  && q[k] in q && n.threads == s.threads[q[k] := s.threads[q[k]].(status := Ready)]
                  && n.ready == s.ready + [q[k]]
                  && n.semas == s.semas[x := Semaphore(s.semas[x].value + 1, RemoveAt(q, k))])
            && n.locks.Keys == s.locks.Keys
            && (forall y :: y in s.locks ==>
                n.locks[y].holder == s.locks[y].holder && (y != x ==> n.locks[y] == s.locks[y]))
  {
    hide MaxPriority;
  }

  // ----- Priority donation in lock_acquire() -----

  /** One assignment of the walk: the holder of `x` and the lock itself get priority `p`. */
  function Donate(s: State, x: SemaId, p: int): State
    requires x in s.locks && s.locks[x].holder.Some? && s.locks[x].holder.value in s.threads
  {
    var h := s.locks[x].holder.value;
    SetThread(s, h, s.threads[h].(priority := p))
      .(locks := s.locks[x := s.locks[x].(maxWaiterPriority := p)])
  }

  /** The loop of lock_acquire() as a machine: a state and the lock it looks at. */
  datatype Walk = Walk(s: State, at: Option<SemaId>)

  predicate Finished(w: Walk) {
    w.at.None? || w.at.value !in w.s.locks || w.s.locks[w.at.value].holder.None?
  }

  /** One iteration. When the holder's priority is not below `p` nothing is assigned. */
  function WalkStep(w: Walk, p: int): Walk {
    if Finished(w) then w
    else
      var h := w.s.locks[w.at.value].holder.value;
      if h in w.s.threads && w.s.threads[h].priority < p
      then Walk(Donate(w.s, w.at.value, p), w.s.threads[h].waitingLock)
      else w
  }

  function Iterate(w: Walk, p: int, n: nat): Walk
    decreases n
  {
    if n == 0 then w else Iterate(WalkStep(w, p), p, n - 1)
  }

  /** Threads that could still receive a donation of priority `p`. */
  function Below(threads: map<Tid, Thread>, p: int): set<Tid> {
    set t | t in threads && threads[t].priority < p
  }

  /** The result of the walk, or None when it never ends. */
  function DonationWalk(w: Walk, p: int): (r: Option<State>)
    decreases |Below(w.s.threads, p)|
  {
    if Finished(w) then Some(w.s)
    else
      var next := WalkStep(w, p);
      if next == w then None
      else
        WalkStepShrinks(w, p);
        DonationWalk(next, p)
  }

  lemma WalkStepShrinks(w: Walk, p: int)
    requires WalkStep(w, p) != w
    ensures |Below(WalkStep(w, p).s.threads, p)| < |Below(w.s.threads, p)|
  {
    var h := w.s.locks[w.at.value].holder.value;
    assert h in Below(w.s.threads, p) && h !in Below(WalkStep(w, p).s.threads, p);
    SubsetSize(Below(WalkStep(w, p).s.threads, p), Below(w.s.threads, p));
  }

  /** The holders met by following holder and waiting_lock in the state the caller sees;
      `seen` holds those already met. */
  predicate ChainBelow(s: State, at: Option<SemaId>, p: int, seen: set<Tid>)
    decreases s.threads.Keys - seen
  {
    Finished(Walk(s, at)) ||
    (var h := s.locks[at.value].holder.value;
     h in s.threads && h !in seen && s.threads[h].priority < p &&
     ChainBelow(s, s.threads[h].waitingLock, p, seen + {h}))
  }

  /** The holders on that chain. */
  function Chain(s: State, at: Option<SemaId>, p: int, seen: set<Tid>): set<Tid>
    requires ChainBelow(s, at, p, seen)
    decreases s.threads.Keys - seen
  {
    if Finished(Walk(s, at)) then {}
    else
      var h := s.locks[at.value].holder.value;
      {h} + Chain(s, s.threads[h].waitingLock, p, seen + {h})
  }

  /** The locks on that chain. */
  function ChainLocks(s: State, at: Option<SemaId>, p: int, seen: set<Tid>): set<SemaId>
    requires ChainBelow(s, at, p, seen)
    decreases s.threads.Keys - seen
  {
    if Finished(Walk(s, at)) then {}
    else
      var h := s.locks[at.value].holder.value;
      {at.value} + ChainLocks(s, s.threads[h].waitingLock, p, seen + {h})
  }

  // ----- lock_release() -----

  /** base_priority raised to the max_waiter_priority of every lock in `held` but `x`. */
  function RestoredPriority(s: State, held: seq<SemaId>, base: int, x: SemaId): (p: int)
    requires forall y :: y in held ==> y in s.locks
    ensures p >= base
    ensures forall y :: y in held && y != x ==> s.locks[y].maxWaiterPriority <= p
    ensures p == base || exists y :: y in held && y != x && s.locks[y].maxWaiterPriority == p
  {
    if held == [] then base
    else
      var y := held[|held| - 1];
      assert held == held[..|held| - 1] + [y];
      var p := RestoredPriority(s, held[..|held| - 1], base, x);
      if y == x then p else if p < s.locks[y].maxWaiterPriority then s.locks[y].maxWaiterPriority else p
  }

  /** lock_release() up to the call of sema_up_internal(). */
  function DropLock(s: State, x: SemaId): State
    requires s.cur in s.threads && x in s.locks
    requires forall y :: y in s.threads[s.cur].heldLocks ==> y in s.locks
  {
    var th := s.threads[s.cur];
    SetThread(s, s.cur,
              th.(priority := RestoredPriority(s, th.heldLocks, th.basePriority, x),
                  heldLocks := Filter(th.heldLocks, y => y != x)))
      .(locks := s.locks[x := s.locks[x].(holder := None)])
  }
}
