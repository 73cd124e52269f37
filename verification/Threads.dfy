/** The kernel's thread table and its scheduler: the state shared by
    threads/thread.c, threads/synch.c and devices/timer.c, and what one call of
    schedule() does to it.

    A lock is identified with its embedded semaphore: `locks` is defined on those
    semaphore identifiers that belong to a lock.  A thread that is not running is
    parked either in client code or inside the loop of sema_down_internal(); `pc`
    records which. */
module Threads {

  import opened Lists

  const PRI_MIN := 0
  const PRI_MAX := 63
  const TIME_SLICE := 4

  type Tid = nat
  type SemaId = nat

  datatype Status = Running | Ready | Blocked | Dying

  /** Where a thread continues when it is next chosen. `Fresh` threads were set up by
      init_thread() and are not yet unblocked by thread_create(). */
  datatype Pc = Fresh | AtUser | InDown(sema: SemaId)

  datatype Thread = Thread(
    status: Status,
    priority: int,
    basePriority: int,
    endTick: int,
    heldLocks: seq<SemaId>,
    waitingLock: Option<SemaId>,
    pc: Pc)

  datatype Semaphore = Semaphore(value: nat, waiters: seq<Tid>)

  datatype Lock = Lock(holder: Option<Tid>, maxWaiterPriority: int)

  datatype State = State(
    threads: map<Tid, Thread>,
    ready: seq<Tid>,
    sleeping: seq<Tid>,
    semas: map<SemaId, Semaphore>,
    locks: map<SemaId, Lock>,
    cur: Tid,
    idle: Tid,
    initial: Tid,
    ticks: nat,
    slice: nat)

  /** Every link in the state leads to something that exists. */
  ghost predicate WellFormed(s: State) {
    && s.cur in s.threads
    && s.idle in s.threads
    && (forall t :: t in s.ready ==> t in s.threads)
    && (forall t :: t in s.sleeping ==> t in s.threads)
    && (forall x, t :: x in s.semas && t in s.semas[x].waiters ==> t in s.threads)
    && s.locks.Keys <= s.semas.Keys
    && (forall x :: x in s.locks && s.locks[x].holder.Some? ==> s.locks[x].holder.value in s.threads)
    && (forall t, x :: t in s.threads && x in s.threads[t].heldLocks ==> x in s.locks)
    && (forall t :: t in s.threads && s.threads[t].waitingLock.Some? ==> s.threads[t].waitingLock.value in s.locks)
    && (forall t :: t in s.threads && s.threads[t].pc.InDown? ==> s.threads[t].pc.sema in s.semas)
  }

  // ----- Choosing a thread -----

  /** Index of the first thread of highest priority in `q`. */
  function FirstMax(threads: map<Tid, Thread>, q: seq<Tid>): (k: nat)
    requires q != [] && forall t :: t in q ==> t in threads
    ensures k < |q|
    ensures forall j :: 0 <= j < |q| ==> threads[q[j]].priority <= threads[q[k]].priority
    ensures forall j :: 0 <= j < k ==> threads[q[j]].priority < threads[q[k]].priority
  {
    if |q| == 1 then 0
    else
      var front := q[..|q| - 1];
      var k := FirstMax(threads, front);
      assert forall j :: 0 <= j < |front| ==> q[j] == front[j];
      if threads[q[|q| - 1]].priority > threads[q[k]].priority then |q| - 1 else k
  }

  /** A thread that beats all before it and none behind it beats is the first of the largest
      priority. */
  lemma FirstMaxIs(threads: map<Tid, Thread>, q: seq<Tid>, k: nat)
    requires k < |q| && forall t :: t in q ==> t in threads
    requires forall j :: 0 <= j < |q| ==> threads[q[j]].priority <= threads[q[k]].priority
    requires forall j :: 0 <= j < k ==> threads[q[j]].priority < threads[q[k]].priority
    ensures k == FirstMax(threads, q)
  {
    hide FirstMax;
    var m := FirstMax(threads, q);
    assert threads[q[m]].priority == threads[q[k]].priority;
  }

  // ----- schedule() -----

  predicate Due(s: State, t: Tid) {
    t in s.threads && s.threads[t].endTick <= s.ticks
  }

  /** The threads in `due` become ready. */
  function MarkReady(threads: map<Tid, Thread>, due: seq<Tid>): map<Tid, Thread> {
    map t | t in threads :: if t in due then threads[t].(status := Ready, endTick := -1) else threads[t]
  }

  function DueIn(s: State, q: seq<Tid>): seq<Tid> {
    Filter(q, t => Due(s, t))
  }

  function NotDueIn(s: State, q: seq<Tid>): seq<Tid> {
    Filter(q, t => !Due(s, t))
  }

  /** The sweep over sleep_list at the head of schedule(). */
  function WakeSleepers(s: State): (r: State) {
    s.(threads := MarkReady(s.threads, DueIn(s, s.sleeping)),
       ready := s.ready + DueIn(s, s.sleeping),
       sleeping := NotDueIn(s, s.sleeping))
  }

  /** thread_schedule_tail(): `next` starts a time slice and a dying predecessor is freed
      (except the initial thread, whose page did not come from the page allocator). */
  function SwitchTo(s: State, next: Tid): State
    requires s.cur in s.threads && next in s.threads
  {
    var started := s.threads[next := s.threads[next].(status := Running)];
    s.(threads := if next != s.cur && s.threads[s.cur].status == Dying && s.cur != s.initial
                  then started - {s.cur} else started,
       cur := next,
       slice := 0)
  }

  /** next_thread_to_run(), applied to a non-empty or an empty run queue. */
  function TakeNext(s: State): (r: (State, Tid))
    requires forall t :: t in s.ready ==> t in s.threads
  {
    if s.ready == [] then (s, s.idle)
    else
      var k := FirstMax(s.threads, s.ready);
      (s.(ready := RemoveAt(s.ready, k)), s.ready[k])
  }

  lemma WakeSleepersLinks(s: State)
    requires forall t :: t in s.sleeping ==> t in s.threads
    requires forall t :: t in s.ready ==> t in s.threads
    ensures var w := WakeSleepers(s);
            && w.threads.Keys == s.threads.Keys
            && (forall t :: t in w.ready <==> t in s.ready || (t in s.sleeping && Due(s, t)))
            && (forall t :: t in w.sleeping <==> t in s.sleeping && !Due(s, t))
            && (forall t :: t in s.threads ==>
                  w.threads[t] == if t in s.sleeping && Due(s, t)
                                  then s.threads[t].(status := Ready, endTick := -1) else s.threads[t])
  {
    FilterElements(s.sleeping, t => Due(s, t));
    FilterElements(s.sleeping, t => !Due(s, t));
  }

  ghost predicate Linked(s: State) {
    && s.cur in s.threads
    && s.idle in s.threads
    && (forall t :: t in s.ready ==> t in s.threads)
    && (forall t :: t in s.sleeping ==> t in s.threads)
  }

  /** The whole of schedule(). It touches no semaphore, lock or clock, and picks the idle
      thread or one that was ready or due. */
  ghost function Schedule(s: State): (n: State)
    requires Linked(s)
    ensures n.semas == s.semas && n.locks == s.locks && n.ticks == s.ticks && n.slice == 0
    ensures n.cur == s.idle || n.cur in s.ready || n.cur in s.sleeping
  {
    var w := WakeSleepers(s);
    WakeSleepersLinks(s);
    var (r, next) := TakeNext(w);
    SwitchTo(r, next)
  }

  // ----- Operations of thread.c -----

  function SetThread(s: State, t: Tid, th: Thread): State {
    s.(threads := s.threads[t := th])
  }

  /** thread_unblock(). */
  function Unblock(s: State, t: Tid): State
    requires t in s.threads
  {
    SetThread(s, t, s.threads[t].(status := Ready)).(ready := s.ready + [t])
  }

  /** What thread_yield() does before it schedules. */
  function Requeue(s: State): State
    requires s.cur in s.threads
  {
    SetThread(s, s.cur, s.threads[s.cur].(status := Ready))
      .(ready := if s.cur != s.idle then s.ready + [s.cur] else s.ready)
  }

  ghost function YieldCpu(s: State): (n: State)
    requires Linked(s)
    ensures n.semas == s.semas && n.locks == s.locks && n.ticks == s.ticks && n.slice == 0
  {
    Schedule(Requeue(s))
  }

  /** What thread_yield_for_seconds() does before it schedules. */
  function PutToSleep(s: State, end: int): State
    requires s.cur in s.threads
  {
    SetThread(s, s.cur, s.threads[s.cur].(status := Blocked, endTick := end))
      .(sleeping := s.sleeping + [s.cur])
  }

  function SetStatus(s: State, status: Status): State
    requires s.cur in s.threads
  {
    SetThread(s, s.cur, s.threads[s.cur].(status := status))
  }

  /** The new priority computed by thread_set_priority(). */
  function Reprioritize(th: Thread, p: int): Thread {
    th.(priority := if th.priority > th.basePriority then (if th.priority > p then th.priority else p) else p,
        basePriority := p)
  }

  /** init_thread(). */
  function FreshThread(priority: int): Thread {
    Thread(Blocked, priority, priority, 0, [], None, Fresh)
  }
}
