/** A run in which an acquire of one lock makes another record a priority that none of its waiters
    has: the holder of the first lock was woken from the second and has yet to test its value
    again, when a thread that went ahead of it holds it. */
module StaleRecord {

  import opened Lists
  import opened Threads
  import opened Synch
  import opened Invariant
  import opened Donation
  import opened KernelSteps
  import opened StepsKeep
  import opened SchedulerRuns
  import opened Records

  /** The states of a kernel with locks 0 and 1. */
  function TwoLocks(threads: map<Tid, Thread>, ready: seq<Tid>, cur: Tid, s0: Semaphore, l0: Lock,
                    h1: Option<Tid>): State {
    State(threads, ready, [], map[0 := s0, 1 := Semaphore(if h1.Some? then 0 else 1, [])],
          map[0 := l0, 1 := Lock(h1, -1)], cur, 1, 0, 0, 0)
  }

  const FREE: Semaphore := Semaphore(1, [])
  const TAKEN: Semaphore := Semaphore(0, [])

  /** Thread 0 after thread 2 donated to it. */
  function Raised(status: Status): Thread {
    Thread(status, 40, 31, 0, [0], None, AtUser)
  }

  /** Thread 2 once it called lock_acquire() on lock 0. */
  function Second(status: Status): Thread {
    Thread(status, 40, 40, -1, [1], Some(0), InDown(0))
  }

  const FIRST: Thread := Plain(Running, 31, 0, [0])
  const LAST: Thread := Plain(Running, 45, 0, [0])
  const ZERO: Lock := Lock(Some(0), -1)

  function S0(): State { TwoLocks(map[0 := Plain(Running, 31, 0, []), 1 := IDLE], [], 0, FREE, Lock(None, -1), None) }

  /** Thread 0 has acquired lock 0. */
  function S1(): State { TwoLocks(map[0 := FIRST, 1 := IDLE], [], 0, TAKEN, ZERO, None) }

  /** It has created thread 2 with priority 40, ... */
  function S2(): State { TwoLocks(map[0 := FIRST, 1 := IDLE, 2 := FreshThread(40)], [], 0, TAKEN, ZERO, None) }

  /** ... which runs, */
  function S3(): State {
    TwoLocks(map[0 := FIRST.(status := Ready), 1 := IDLE, 2 := Plain(Running, 40, -1, [])], [0], 2, TAKEN, ZERO, None)
  }

  /** acquires lock 1, */
  function S4(): State {
    TwoLocks(map[0 := FIRST.(status := Ready), 1 := IDLE, 2 := Plain(Running, 40, -1, [1])], [0], 2, TAKEN, ZERO,
             Some(2))
  }

  /** and waits for lock 0. */
  function S5(): State {
    TwoLocks(map[0 := Raised(Running), 1 := IDLE, 2 := Second(Blocked)], [], 0, Semaphore(0, [2]),
             Lock(Some(0), 40), Some(2))
  }

  /** Thread 0 has raised its own priority to 45, */
  function S6(): State {
    TwoLocks(map[0 := LAST, 1 := IDLE, 2 := Second(Blocked)], [], 0, Semaphore(0, [2]), Lock(Some(0), 40), Some(2))
  }

  /** released lock 0, which wakes thread 2, */
  function S7(): State {
    TwoLocks(map[0 := LAST.(heldLocks := []), 1 := IDLE, 2 := Second(Ready)], [2], 0, FREE, Lock(None, -1), Some(2))
  }

  /** acquired it again, */
  function S8(): State { TwoLocks(map[0 := LAST, 1 := IDLE, 2 := Second(Ready)], [2], 0, TAKEN, ZERO, Some(2)) }

  /** and created thread 3 with priority 50, */
  function S9(): State {
    TwoLocks(map[0 := LAST, 1 := IDLE, 2 := Second(Ready), 3 := FreshThread(50)], [2], 0, TAKEN, ZERO, Some(2))
  }

  /** which runs. */
  function S10(): State {
    TwoLocks(map[0 := LAST.(status := Ready), 1 := IDLE, 2 := Second(Ready), 3 := Plain(Running, 50, -1, [])],
             [2, 0], 3, TAKEN, ZERO, Some(2))
  }

  /** schedule() with nobody asleep chooses the first thread of the largest priority. */
  lemma Chooses(v: State, k: nat)
    requires Linked(v) && v.sleeping == [] && k < |v.ready| && v.threads[v.cur].status != Dying
    requires forall j :: 0 <= j < |v.ready| ==> v.threads[v.ready[j]].priority <= v.threads[v.ready[k]].priority
    requires forall j :: 0 <= j < k ==> v.threads[v.ready[j]].priority < v.threads[v.ready[k]].priority
    ensures Schedule(v) == v.(threads := v.threads[v.ready[k] := v.threads[v.ready[k]].(status := Running)],
                              ready := RemoveAt(v.ready, k), cur := v.ready[k], slice := 0)
  {
    hide FirstMax;
    var w := WakeSleepers(v);
    assert DueIn(v, []) == [] && NotDueIn(v, []) == [];
    assert w.threads == v.threads && w.ready == v.ready;
    assert w == v;
    FirstMaxIs(v.threads, v.ready, k);
  }

  /** lock_acquire() of a lock that nobody holds. */
  lemma Takes(s: State, x: SemaId)
    requires WellFormed(s) && s.threads[s.cur].pc == AtUser && s.cur != s.idle
    requires x in s.locks && s.locks[x].holder.None? && s.semas[x].value > 0
    ensures Legal(s, LockAcquire(x)) && Step(s, LockAcquire(x)) == TakeDown(s, x)
  {
    hide WellFormed, DonationWalk, RaisedTo;
    FreeLockWalk(s, x);
  }

  lemma StepZero()
    requires WellFormed(S0())
    ensures Legal(S0(), LockAcquire(0)) && Step(S0(), LockAcquire(0)) == S1()
  {
    hide WellFormed, Step, Legal, TakeDown;
    Takes(S0(), 0);
    TakenZero();
  }

  lemma TakenZero()
    ensures TakeDown(S0(), 0) == S1()
  {
    var n := TakeDown(S0(), 0);
    assert n.threads[0].heldLocks == [0];
    assert n.threads == S1().threads;
    assert n.semas == S1().semas;
    assert n.locks == S1().locks;
  }

  lemma StepOne()
    requires WellFormed(S1())
    ensures Legal(S1(), InitThread(2, 40)) && Step(S1(), InitThread(2, 40)) == S2()
  {
    hide WellFormed;
    assert SetThread(S1(), 2, FreshThread(40)).threads == S2().threads;
  }

  /** thread_create() of a thread that is chosen at once from place k. */
  lemma Starts(s: State, t: Tid, v: State, k: nat)
    requires WellFormed(s) && Legal(s, StartThread(t)) && s.sleeping == [] && s.cur != s.idle && t != s.cur
    requires v == Requeue(MakeReady(s, t)) && k < |v.ready|
             && (forall j :: 0 <= j < |v.ready| ==> v.ready[j] in v.threads)
    requires forall j :: 0 <= j < |v.ready| ==> v.threads[v.ready[j]].priority <= v.threads[v.ready[k]].priority
    requires forall j :: 0 <= j < k ==> v.threads[v.ready[j]].priority < v.threads[v.ready[k]].priority
    ensures Step(s, StartThread(t)) ==
            v.(threads := v.threads[v.ready[k] := v.threads[v.ready[k]].(status := Running)],
               ready := RemoveAt(v.ready, k), cur := v.ready[k], slice := 0)
  {
    hide Schedule;
    WellFormedLinked(s);
    hide WellFormed;
    Chooses(v, k);
  }

  lemma StepTwo()
    requires WellFormed(S2())
    ensures Legal(S2(), StartThread(2)) && Step(S2(), StartThread(2)) == S3()
  {
    hide WellFormed, Step;
    TwoReady();
    var v := Requeue(MakeReady(S2(), 2));
    assert Legal(S2(), StartThread(2));
    Starts(S2(), 2, v, 0);
    assert RemoveAt([2, 0], 0) == [0];
    assert v.threads[2 := v.threads[2].(status := Running)] == S3().threads;
  }

  lemma TwoReady()
    ensures var v := Requeue(MakeReady(S2(), 2));
            && v == S2().(threads := v.threads, ready := [2, 0])
            && v.threads == map[0 := FIRST.(status := Ready), 1 := IDLE, 2 := Plain(Ready, 40, -1, [])]
  {
  }

  lemma StepThree()
    requires WellFormed(S3())
    ensures Legal(S3(), LockAcquire(1)) && Step(S3(), LockAcquire(1)) == S4()
  {
    hide WellFormed, Step, Legal, TakeDown;
    Takes(S3(), 1);
    TakenOne();
  }

  lemma TakenOne()
    ensures TakeDown(S3(), 1) == S4()
  {
    var n := TakeDown(S3(), 1);
    assert n.threads[2].heldLocks == [1];
    assert n.threads == S4().threads;
    assert n.semas == S4().semas;
    assert n.locks == S4().locks;
  }

  /** Thread 2 donates to thread 0 and joins the waiters. */
  function Joined(): State {
    TwoLocks(map[0 := Raised(Ready), 1 := IDLE, 2 := Second(Blocked)], [0], 2, Semaphore(0, [2]), Lock(Some(0), 40),
             Some(2))
  }

  lemma StepFour()
    requires WellFormed(S4())
    ensures Legal(S4(), LockAcquire(0)) && Step(S4(), LockAcquire(0)) == S5()
  {
    hide WellFormed, Schedule, Donate, JoinWaiters, S4, S5, Joined;
    OneHolder();
    JoinedZero();
    ZeroRuns();
    FourFacts();
  }

  lemma FourFacts()
    ensures var s := S4();
            && s.cur == 2 && s.threads[2].priority == 40 && s.threads[2].pc == AtUser && s.idle == 1 && 0 in s.locks
            && s.locks[0].holder == Some(0) && s.semas[0].value == 0
            && Donate(s, 0, 40).semas == s.semas
  {
  }

  lemma OneHolder()
    requires WellFormed(S4())
    ensures ChainBelow(S4(), Some(0), 40, {})
    ensures AfterDonation(S4(), 0) == Donate(S4(), 0, 40)
  {
  }

  lemma JoinedZero()
    ensures JoinWaiters(Donate(S4(), 0, 40), 0) == Joined()
  {
    var v := Donate(S4(), 0, 40);
    var n := JoinWaiters(v, 0);
    assert [] + [2] == [2];
    assert n.semas[0] == Semaphore(0, [2]);
    assert n.semas == Joined().semas;
    assert n.threads == Joined().threads;
    assert n.locks[0].maxWaiterPriority == 40;
    assert n.locks == Joined().locks;
  }

  lemma ZeroRuns()
    ensures Linked(Joined()) && Schedule(Joined()) == S5()
  {
    hide Schedule;
    Chooses(Joined(), 0);
    assert RemoveAt([0], 0) == [];
    assert Joined().threads[0 := Raised(Running)] == S5().threads;
  }

  lemma StepFive()
    requires WellFormed(S5())
    ensures Legal(S5(), SetPriority(45)) && Step(S5(), SetPriority(45)) == S6()
  {
    hide WellFormed, Schedule;
    ZeroReady();
    ZeroContinues();
  }

  lemma ZeroContinues()
    ensures Linked(WithPriority(S5(), 45)) && YieldCpu(WithPriority(S5(), 45)) == S6()
  {
    hide Schedule;
    var v := Requeue(WithPriority(S5(), 45));
    ZeroReady();
    Chooses(v, 0);
    assert RemoveAt([0], 0) == [];
    assert v.threads[0 := v.threads[0].(status := Running)] == S6().threads;
  }

  lemma ZeroReady()
    ensures var v := Requeue(WithPriority(S5(), 45));
            && v == S5().(threads := v.threads, ready := [0])
            && v.threads == map[0 := LAST.(status := Ready), 1 := IDLE, 2 := Second(Blocked)]
  {
  }

  /** The released lock wakes thread 2, which the caller stays ahead of. */
  function Woken2(): State {
    TwoLocks(map[0 := LAST.(heldLocks := []), 1 := IDLE, 2 := Second(Ready)], [2], 0, FREE, Lock(None, -1), Some(2))
  }

  lemma StepSix()
    requires WellFormed(S6())
    ensures Legal(S6(), LockRelease(0)) && Step(S6(), LockRelease(0)) == S7()
  {
    hide WellFormed, Schedule, DropLock, WakeAndRaise;
    Dropped();
    WakesTwo();
    assert Legal(S6(), LockRelease(0));
    DropLockWellFormed(S6(), 0);
    ZeroAgain();
  }

  lemma Dropped()
    ensures DropLock(S6(), 0) == S6().(threads := S6().threads[0 := LAST.(heldLocks := [])],
                                      locks := S6().locks[0 := Lock(None, 40)])
  {
    assert Filter([0], y => y != 0) == [];
    assert RestoredPriority(S6(), [0], 45, 0) == 45;
  }

  lemma WakesTwo()
    ensures WakeAndRaise(S6().(threads := S6().threads[0 := LAST.(heldLocks := [])],
                               locks := S6().locks[0 := Lock(None, 40)]), 0)
         == Woken2()
  {
    var v := S6().(threads := S6().threads[0 := LAST.(heldLocks := [])], locks := S6().locks[0 := Lock(None, 40)]);
    var n := WakeAndRaise(v, 0);
    assert FirstMax(v.threads, [2]) == 0;
    assert RemoveAt([2], 0) == [];
    assert n.semas == Woken2().semas;
    assert n.threads == Woken2().threads;
    assert n.locks == Woken2().locks;
  }

  lemma ZeroAgain()
    ensures Linked(Woken2()) && YieldCpu(Woken2()) == S7()
  {
    hide Schedule;
    var v := Requeue(Woken2());
    assert v.ready == [2, 0];
    Chooses(v, 1);
    assert RemoveAt([2, 0], 1) == [2];
    assert v.threads[0 := v.threads[0].(status := Running)] == S7().threads;
  }

  lemma StepSeven()
    requires WellFormed(S7())
    ensures Legal(S7(), LockAcquire(0)) && Step(S7(), LockAcquire(0)) == S8()
  {
    hide WellFormed, Step, Legal, TakeDown;
    Takes(S7(), 0);
    TakenAgain();
  }

  lemma TakenAgain()
    ensures TakeDown(S7(), 0) == S8()
  {
    var n := TakeDown(S7(), 0);
    assert n.threads[0].heldLocks == [0];
    assert n.threads == S8().threads;
    assert n.semas == S8().semas;
    assert n.locks == S8().locks;
  }

  lemma StepEight()
    requires WellFormed(S8())
    ensures Legal(S8(), InitThread(3, 50)) && Step(S8(), InitThread(3, 50)) == S9()
  {
    hide WellFormed;
    assert SetThread(S8(), 3, FreshThread(50)).threads == S9().threads;
  }

  lemma StepNine()
    requires WellFormed(S9())
    ensures Legal(S9(), StartThread(3)) && Step(S9(), StartThread(3)) == S10()
  {
    hide WellFormed, Step;
    ThreeReady();
    var v := Requeue(MakeReady(S9(), 3));
    assert Legal(S9(), StartThread(3));
    Starts(S9(), 3, v, 1);
    assert RemoveAt([2, 3, 0], 1) == [2, 0];
    assert v.threads[3 := v.threads[3].(status := Running)] == S10().threads;
  }

  lemma ThreeReady()
    ensures var v := Requeue(MakeReady(S9(), 3));
            && v == S9().(threads := v.threads, ready := [2, 3, 0])
            && v.threads == map[0 := LAST.(status := Ready), 1 := IDLE, 2 := Second(Ready),
                                3 := Plain(Ready, 50, -1, [])]
  {
  }

  /** The whole run. */
  function Stale(): (r: Run)
    ensures |r.states| == 11 && |r.ops| == 10
  {
    Run([S0(), S1(), S2(), S3(), S4(), S5(), S6(), S7(), S8(), S9(), S10()],
        [LockAcquire(0), InitThread(2, 40), StartThread(2), LockAcquire(1), LockAcquire(0), SetPriority(45),
         LockRelease(0), LockAcquire(0), InitThread(3, 50), StartThread(3)])
  }

  lemma Boots()
    ensures S0() == Boot(map[0 := 1, 1 := 1], {0, 1})
  {
    assert S0().semas == Boot(map[0 := 1, 1 := 1], {0, 1}).semas;
    assert S0().locks == Boot(map[0 := 1, 1 := 1], {0, 1}).locks;
  }

  /** One more step of the run. */
  lemma Advances(s: State, op: Op)
    requires Inv(s) && WellFormed(s) && Legal(s, op)
    ensures Inv(Step(s, op)) && WellFormed(Step(s, op))
  {
    hide Inv, WellFormed, Step, Legal;
    StepKeepsInv(s, op);
    InvWellFormed(Step(s, op));
  }

  lemma StaleRuns()
    ensures IsRun(Stale()) && Inv(S10())
  {
    hide Inv, WellFormed, Step, Legal, Boot, S0, S1, S2, S3, S4, S5, S6, S7, S8, S9, S10;
    Boots();
    BootSatisfiesInv(map[0 := 1, 1 := 1], {0, 1});
    InvWellFormed(S0());
    StepZero();
    Advances(S0(), LockAcquire(0));
    StepOne();
    Advances(S1(), InitThread(2, 40));
    StepTwo();
    Advances(S2(), StartThread(2));
    StepThree();
    Advances(S3(), LockAcquire(1));
    StepFour();
    Advances(S4(), LockAcquire(0));
    StepFive();
    Advances(S5(), SetPriority(45));
    StepSix();
    Advances(S6(), LockRelease(0));
    StepSeven();
    Advances(S7(), LockAcquire(0));
    StepEight();
    Advances(S8(), InitThread(3, 50));
    StepNine();
    Advances(S9(), StartThread(3));
  }

  /** After these ten operations lock 0 records right what its waiters, none, have. The acquire of
      lock 1 by thread 3 leaves it with the priority of that thread on record. */
  lemma RecordSpoiled()
    ensures IsRun(Stale()) && WellFormed(S10()) && Legal(S10(), LockAcquire(1))
    ensures var n := Step(S10(), LockAcquire(1));
            && Recorded(S10(), 0) && S10().semas[0].waiters == []
            && 0 in n.locks && 0 in n.semas && n.semas[0].waiters == [] && n.locks[0].maxWaiterPriority == 50
            && !Recorded(n, 0)
  {
    hide Inv, Step, IsRun, S10, WellFormed, ChainBelow, ChainLocks, Chain;
    StaleRuns();
    InvWellFormed(S10());
    DonatesThrough();
    TenFacts();
    StepRecords(S10(), LockAcquire(1), 0);
  }

  lemma TenFacts()
    ensures var s := S10();
            && s.cur == 3 && s.idle == 1 && s.cur in s.threads && s.threads[3].priority == 50
               && s.threads[3].pc == AtUser
            && 0 in s.locks && 1 in s.locks && 0 in s.semas && s.locks[1].holder == Some(2)
            && s.semas[0].waiters == [] && s.locks[0].maxWaiterPriority == -1
  {
  }

  lemma DonatesThrough()
    requires WellFormed(S10())
    ensures ChainBelow(S10(), Some(1), 50, {}) && ChainLocks(S10(), Some(1), 50, {}) == {0, 1}
  {
    hide WellFormed;
    var s := S10();
    assert Finished(Walk(s, None));
    assert ChainBelow(s, None, 50, {2, 0});
    assert {2} + {0} == {2, 0};
    assert ChainBelow(s, Some(0), 50, {2})
        && ChainLocks(s, Some(0), 50, {2}) == {0} + ChainLocks(s, None, 50, {2} + {0});
    assert {} + {2} == {2};
  }
}
