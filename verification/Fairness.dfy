/** The run queue is first in, first out among threads of equal priority, so a ready thread is
    overtaken a second time only by a thread of higher priority. */
module Fairness {

  import opened Lists
  import opened Threads
  import opened Synch
  import opened Invariant
  import opened Donation
  import opened KernelSteps
  import opened SchedulerRuns

  /** `n` is the state after choosing from the queue `q`: the chosen thread leaves the queue,
      and the threads before it have lower priority. */
  ghost predicate Chosen(q: seq<Tid>, n: State) {
    if q == [] then n.ready == [] && n.cur == n.idle
    else exists k :: 0 <= k < |q| && ChosenAt(q, n, k)
  }

  ghost predicate ChosenAt(q: seq<Tid>, n: State, k: nat)
    requires k < |q|
  {
    && q[k] == n.cur && n.cur in n.threads && n.ready == RemoveAt(q, k)
    && forall j :: 0 <= j < k && q[j] in n.threads ==> n.threads[q[j]].priority < n.threads[n.cur].priority
  }

  /** A step appends to the run queue, and then may choose from it. */
  ghost predicate QueueStep(s: State, n: State, added: seq<Tid>) {
    (n.cur == s.cur && n.ready == s.ready + added) || Chosen(s.ready + added, n)
  }

  lemma ScheduleChooses(w: State)
    requires Linked(w)
    ensures Chosen(w.ready + DueIn(w, w.sleeping), Schedule(w))
  {
    hide Filter, WakeSleepers, RemoveAt, MarkReady;
    WakeSleepersLinks(w);
    var v := WakeSleepers(w);
    SweptQueue(w);
    var q, n := v.ready, Schedule(w);
    if q != [] {
      var k := FirstMax(v.threads, q);
      assert forall t :: t in n.threads ==> t in v.threads && n.threads[t].priority == v.threads[t].priority;
      assert ChosenAt(q, n, k);
    }
  }

  lemma SweptQueue(w: State)
    ensures var v := WakeSleepers(w);
            v.ready == w.ready + DueIn(w, w.sleeping) && v.cur == w.cur && v.idle == w.idle && v.initial == w.initial
  {
  }

  /** schedule() after the queue grew by `a`. */
  lemma ScheduleQueue(s: State, w: State, a: seq<Tid>) returns (added: seq<Tid>)
    requires Linked(w) && w.ready == s.ready + a
    ensures QueueStep(s, Schedule(w), added)
  {
    hide Schedule, Linked, Chosen, Filter;
    ScheduleChooses(w);
    var due := DueIn(w, w.sleeping);
    assert w.ready + due == s.ready + (a + due);
    added := a + due;
  }

  lemma YieldQueue(s: State, v: State, a: seq<Tid>) returns (added: seq<Tid>)
    requires Linked(v) && v.ready == s.ready + a
    ensures QueueStep(s, YieldCpu(v), added)
  {
    hide Schedule, QueueStep;
    var w := Requeue(v);
    var b := if v.cur != v.idle then a + [v.cur] else a;
    assert w.ready == s.ready + b;
    added := ScheduleQueue(s, w, b);
  }

  lemma DownQueue(s: State, v: State, x: SemaId) returns (added: seq<Tid>)
    requires WellFormed(v) && x in v.semas && v.ready == s.ready && v.cur == s.cur
    ensures QueueStep(s, DownFrom(v, x), added)
  {
    hide Schedule, Chosen;
    assert s.ready == s.ready + [];
    if v.semas[x].value == 0 {
      JoinQueue(v, x);
      added := ScheduleQueue(s, JoinWaiters(v, x), []);
    } else {
      added := [];
    }
  }

  lemma JoinQueue(v: State, x: SemaId)
    requires WellFormed(v) && x in v.semas
    ensures JoinWaiters(v, x).ready == v.ready && Linked(JoinWaiters(v, x))
  {
  }

  lemma UpQueue(s: State, v: State, x: SemaId) returns (added: seq<Tid>)
    requires WellFormed(v) && x in v.semas && v.ready == s.ready
    ensures QueueStep(s, UpFrom(v, x), added)
  {
    hide YieldCpu, QueueStep, WakeAndRaise;
    var a := WakeQueue(v, x);
    added := YieldQueue(s, WakeAndRaise(v, x), a);
  }

  lemma WakeQueue(v: State, x: SemaId) returns (a: seq<Tid>)
    requires WellFormed(v) && x in v.semas
    ensures Linked(WakeAndRaise(v, x)) && WakeAndRaise(v, x).ready == v.ready + a
  {
    hide MaxPriority;
    if v.semas[x].waiters == [] {
      a := [];
    } else {
      var k := FirstMax(v.threads, v.semas[x].waiters);
      a := [v.semas[x].waiters[k]];
      assert v.semas[x].waiters[k] in v.semas[x].waiters;
    }
  }

  lemma AcquireQueue(s: State, x: SemaId) returns (added: seq<Tid>)
    requires WellFormed(s) && Legal(s, LockAcquire(x))
    ensures QueueStep(s, AcquireFrom(s, x), added)
  {
    hide DownFrom, QueueStep, ChainBelow, Chain, DonationWalk;
    var p := s.threads[s.cur].priority;
    var v := AfterDonation(s, x);
    RaisedWellFormed(s, v, Chain(s, Some(x), p, {}), p);
    added := DownQueue(s, v, x);
  }

  /** Every operation is a step of the queue. */
  lemma StepQueue(s: State, op: Op) returns (added: seq<Tid>)
    requires Inv(s) && WellFormed(s) && Legal(s, op)
    ensures QueueStep(s, Step(s, op), added)
  {
    hide Inv, WellFormed, Linked, YieldCpu, Schedule, DownFrom, UpFrom, AcquireFrom, Chosen, ChainBelow, RaisedTo;
    hide DonationWalk, DropLock, LeaveBlock;
    WellFormedLinked(s);
    assert s.ready == s.ready + [];
    match op
    case SemaDown(x) => added := DownQueue(s, s, x);
    case SemaTryDown(x) => added := [];
    case SemaUp(x) => added := UpQueue(s, s, x);
    case LockAcquire(x) => added := AcquireQueue(s, x);
    case LockRelease(x) => added := ReleaseQueue(s, x);
    case Resume => added := ResumeQueue(s);
    case SleepUntil(end) =>
      StillLinked(s, PutToSleep(s, end));
      added := ScheduleQueue(s, PutToSleep(s, end), []);
    case SetPriority(p) =>
      StillLinked(s, WithPriority(s, p));
      added := YieldQueue(s, WithPriority(s, p), []);
    case InitThread(t, p) => added := [];
    case StartThread(t) =>
      StillLinked(s, MakeReady(s, t));
      added := YieldQueue(s, MakeReady(s, t), [t]);
    case Yield => added := YieldQueue(s, s, []);
    case Exit =>
      StillLinked(s, SetStatus(s, Dying));
      added := ScheduleQueue(s, SetStatus(s, Dying), []);
    case IdleBlock =>
      StillLinked(s, SetStatus(s, Blocked));
      added := ScheduleQueue(s, SetStatus(s, Blocked), []);
    case TimerTick => added := TickQueue(s);
  }

  lemma StillLinked(s: State, v: State)
    requires Linked(s) && v.threads.Keys >= s.threads.Keys && v.cur == s.cur && v.idle == s.idle
    requires (forall t :: t in v.ready ==> t in s.ready || t in v.threads)
             && (forall t :: t in v.sleeping ==> t in s.sleeping || t in v.threads)
    ensures Linked(v)
  {
  }

  lemma ReleaseQueue(s: State, x: SemaId) returns (added: seq<Tid>)
    requires WellFormed(s) && Legal(s, LockRelease(x))
    ensures QueueStep(s, ReleaseFrom(s, x), added)
  {
    hide UpFrom, QueueStep, Filter, RestoredPriority;
    DropLockWellFormed(s, x);
    added := UpQueue(s, DropLock(s, x), x);
  }

  lemma ResumeQueue(s: State) returns (added: seq<Tid>)
    requires WellFormed(s) && Legal(s, Resume)
    ensures QueueStep(s, ResumeFrom(s), added)
  {
    hide DownFrom, QueueStep;
    var x := s.threads[s.cur].pc.sema;
    LeaveBlockWellFormed(s, x);
    added := DownQueue(s, LeaveBlock(s, x), x);
  }

  lemma TickQueue(s: State) returns (added: seq<Tid>)
    requires Linked(s)
    ensures QueueStep(s, Tick(s), added)
  {
    hide YieldCpu, Chosen;
    assert s.ready == s.ready + [];
    var ticked := s.(ticks := s.ticks + 1, slice := s.slice + 1);
    if ticked.slice >= TIME_SLICE {
      added := YieldQueue(s, ticked, []);
    } else {
      added := [];
    }
  }

  // ----- Overtaking -----

  /** Wherever u stands in the queue, t stands before it. */
  ghost predicate Behind(q: seq<Tid>, t: Tid, u: Tid) {
    forall r :: 0 <= r < |q| && q[r] == u ==> t in q[..r]
  }

  lemma BehindAppend(q: seq<Tid>, a: seq<Tid>, t: Tid, u: Tid)
    requires Behind(q, t, u) && t in q
    ensures Behind(q + a, t, u)
  {
    var z := q + a;
    forall r | 0 <= r < |z| && z[r] == u ensures t in z[..r] {
      if r < |q| {
        assert z[..r] == q[..r];
      } else {
        var p :| 0 <= p < |q| && q[p] == t;
        assert z[..r][p] == t;
      }
    }
  }

  lemma BehindRemove(q: seq<Tid>, k: nat, t: Tid, u: Tid)
    requires Behind(q, t, u) && k < |q| && q[k] != t
    ensures Behind(RemoveAt(q, k), t, u)
  {
    var z := RemoveAt(q, k);
    forall r | 0 <= r < |z| && z[r] == u ensures t in z[..r] {
      var r0 := if r < k then r else r + 1;
      assert q[r0] == u;
      var p :| 0 <= p < r0 && q[..r0][p] == t;
      assert p != k;
      assert z[..r][if p < k then p else p - 1] == t;
    }
  }

  /** While t stays ready, a thread behind it stays behind it, and is chosen before it only
      with a higher priority. */
  lemma StaysBehind(s: State, n: State, added: seq<Tid>, t: Tid, u: Tid)
    requires Inv(s) && Inv(n) && QueueStep(s, n, added)
    requires t in s.ready && t in n.ready && Behind(s.ready, t, u)
    ensures Behind(n.ready, t, u)
    ensures n.cur == u && s.cur != u ==>
            u in n.threads && t in n.threads && n.threads[t].priority < n.threads[u].priority
  {
    ReadyIsKnown(n, t);
    hide Inv;
    var q := s.ready + added;
    BehindAppend(s.ready, added, t, u);
    assert t in q;
    if !(n.cur == s.cur && n.ready == q) {
      var k :| 0 <= k < |q| && ChosenAt(q, n, k);
      BehindRemove(q, k, t, u);
      if n.cur == u {
        var p :| 0 <= p < k && q[..k][p] == t;
        assert q[p] == t;
      }
    }
  }

  lemma ReadyIsKnown(n: State, t: Tid)
    requires Inv(n) && t in n.ready
    ensures t in n.threads && t != n.cur && n.cur in n.threads && n.cur !in n.ready
  {
  }

  lemma {:induction false} BehindWhileReady(r: Run, i: nat, k: nat, t: Tid, u: Tid)
    requires IsRun(r) && i <= k < |r.states| && r.states[i].cur == u
    requires forall j :: i <= j <= k ==> t in r.states[j].ready
    ensures Behind(r.states[k].ready, t, u)
    decreases k
  {
    hide Inv, Step, Legal, WellFormed;
    if k == i {
      InvAlways(r, i);
      ReadyIsKnown(r.states[i], t);
      assert Behind(r.states[i].ready, t, u);
    } else {
      BehindWhileReady(r, i, k - 1, t, u);
      InvAlways(r, k - 1);
      InvAlways(r, k);
      var added := StepQueue(r.states[k - 1], r.ops[k - 1]);
      StaysBehind(r.states[k - 1], r.states[k], added, t, u);
    }
  }

  /** Bounded overtaking: while t waits to run, a thread that has run is chosen again before
      t only if its priority is then higher than t's. */
  lemma OvertakenOnce(r: Run, i: nat, m: nat, t: Tid, u: Tid)
    requires IsRun(r) && i < m < |r.states| && r.states[i].cur == u
    requires forall j :: i <= j <= m ==> t in r.states[j].ready
    requires r.states[m].cur == u && r.states[m - 1].cur != u
    ensures var n := r.states[m];
            u in n.threads && t in n.threads && n.threads[t].priority < n.threads[u].priority
  {
    hide Inv, Step, Legal, WellFormed;
    BehindWhileReady(r, i, m - 1, t, u);
    InvAlways(r, m - 1);
    InvAlways(r, m);
    var added := StepQueue(r.states[m - 1], r.ops[m - 1]);
    StaysBehind(r.states[m - 1], r.states[m], added, t, u);
  }

  /** thread_yield() passes the CPU on when a thread of the same priority is ready. */
  lemma YieldPassesOn(s: State, t: Tid)
    requires Inv(s) && WellFormed(s) && Legal(s, Yield)
    requires t in s.ready && s.threads[t].priority >= s.threads[s.cur].priority
    ensures Step(s, Yield).cur != s.cur
  {
    hide Inv, Schedule, WellFormed, Linked, Chosen, WakeSleepers, Filter;
    ReadyIsKnown(s, t);
    WellFormedLinked(s);
    var w := Requeue(s);
    StillLinked(s, w);
    var due := DueIn(w, w.sleeping);
    ScheduleChooses(w);
    SchedulePriorities(w, t);
    SchedulePriorities(w, s.cur);
    NotFirst(w.ready + due, Schedule(w), s.ready, t, s.cur);
  }

  /** A thread that stands behind one of no lower priority is not chosen. */
  lemma NotFirst(q: seq<Tid>, n: State, front: seq<Tid>, t: Tid, u: Tid)
    requires Chosen(q, n) && |front| <= |q| && q[..|front|] == front && t in front && u !in front
    requires t in n.threads && u in n.threads && n.threads[t].priority >= n.threads[u].priority
    ensures n.cur != u
  {
    hide RemoveAt;
    var p :| 0 <= p < |front| && front[p] == t;
    assert q[p] == t && forall j :: 0 <= j < |front| ==> q[j] == front[j];
    var k :| 0 <= k < |q| && ChosenAt(q, n, k);
    assert k < |front| ==> q[k] in front;
  }
}
