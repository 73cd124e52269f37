/** When the donation walk of lock_acquire() ends, and what it leaves behind. */
module Donation {

  import opened Lists
  import opened Threads
  import opened Synch

  /** `r` is `s` with the threads in `raised` at priority `p`; besides those priorities
      only max_waiter_priority fields may differ. */
  ghost predicate RaisedTo(s: State, r: State, raised: set<Tid>, p: int) {
    && raised <= s.threads.Keys
    && r == s.(threads := r.threads, locks := r.locks)
    && r.threads.Keys == s.threads.Keys
    && (forall t :: t in s.threads ==>
          r.threads[t] == s.threads[t].(priority := if t in raised then p else s.threads[t].priority))
    && r.locks.Keys == s.locks.Keys
    && (forall x :: x in s.locks ==> r.locks[x].holder == s.locks[x].holder)
  }

  ghost predicate HoldersExist(s: State) {
    forall x :: x in s.locks && s.locks[x].holder.Some? ==> s.locks[x].holder.value in s.threads
  }

  /** The loop is stuck from some iteration on exactly when DonationWalk has no result. */
  lemma {:induction false} WalkEndsOrSpins(w: Walk, p: int)
    ensures DonationWalk(w, p).Some? ==>
              exists n: nat :: Finished(Iterate(w, p, n)) && DonationWalk(w, p).value == Iterate(w, p, n).s
    ensures DonationWalk(w, p).None? ==> forall n: nat :: !Finished(Iterate(w, p, n))
    decreases |Below(w.s.threads, p)|
  {
    if Finished(w) {
      assert Iterate(w, p, 0) == w;
    } else if WalkStep(w, p) == w {
      forall n: nat ensures !Finished(Iterate(w, p, n)) {
        StuckForever(w, p, n);
      }
    } else {
      WalkStepShrinks(w, p);
      var next := WalkStep(w, p);
      WalkEndsOrSpins(next, p);
      if DonationWalk(next, p).Some? {
        var n: nat :| Finished(Iterate(next, p, n)) && DonationWalk(next, p).value == Iterate(next, p, n).s;
        assert Iterate(w, p, n + 1) == Iterate(next, p, n);
      } else {
        forall n: nat ensures !Finished(Iterate(w, p, n)) {
          assert n > 0 ==> Iterate(w, p, n) == Iterate(next, p, n - 1);
        }
      }
    }
  }

  lemma {:induction false} StuckForever(w: Walk, p: int, n: nat)
    requires WalkStep(w, p) == w
    ensures Iterate(w, p, n) == w
    decreases n
  {
    if n > 0 {
      StuckForever(w, p, n - 1);
    }
  }

  lemma DonateRaises(s0: State, s: State, x: SemaId, p: int, seen: set<Tid>)
    requires HoldersExist(s0) && RaisedTo(s0, s, seen, p)
    requires x in s.locks && s.locks[x].holder.Some?
    ensures s.locks[x].holder.value in s.threads
    ensures RaisedTo(s0, Donate(s, x, p), seen + {s.locks[x].holder.value}, p)
  {
  }

  /** Unfolding of one iteration that donates. */
  lemma WalkUnfolds(s: State, x: SemaId, p: int)
    requires x in s.locks && s.locks[x].holder.Some? && s.locks[x].holder.value in s.threads
    requires s.threads[s.locks[x].holder.value].priority < p
    ensures DonationWalk(Walk(s, Some(x)), p)
         == DonationWalk(Walk(Donate(s, x, p), s.threads[s.locks[x].holder.value].waitingLock), p)
  {
    var h := s.locks[x].holder.value;
    assert Donate(s, x, p).threads[h].priority == p;
    assert WalkStep(Walk(s, Some(x)), p) == Walk(Donate(s, x, p), s.threads[h].waitingLock);
  }

  /** What the walk reads is the same in the original state and in the one with donations. */
  lemma RaisedReads(s0: State, s: State, at: Option<SemaId>, p: int, seen: set<Tid>)
    requires HoldersExist(s0) && RaisedTo(s0, s, seen, p)
    ensures Finished(Walk(s, at)) == Finished(Walk(s0, at))
    ensures !Finished(Walk(s, at)) ==>
              && s.locks[at.value].holder == s0.locks[at.value].holder
              && var h := s.locks[at.value].holder.value;
                 h in s0.threads && h in s.threads && s.threads[h].waitingLock == s0.threads[h].waitingLock
                 && s.threads[h].priority == if h in seen then p else s0.threads[h].priority
  {
  }

  /** A holder that is not below stops the walk for good. */
  lemma WalkStuck(s: State, x: SemaId, p: int)
    requires x in s.locks && s.locks[x].holder.Some? && s.locks[x].holder.value in s.threads
    requires s.threads[s.locks[x].holder.value].priority >= p
    ensures DonationWalk(Walk(s, Some(x)), p).None?
  {
    assert WalkStep(Walk(s, Some(x)), p) == Walk(s, Some(x));
  }

  /** The walk from a state in which `seen` already has priority `p` agrees with the chain
      read off the original state. */
  lemma {:induction false} WalkFollowsChain(s0: State, s: State, at: Option<SemaId>, p: int, seen: set<Tid>)
    requires HoldersExist(s0) && RaisedTo(s0, s, seen, p)
    ensures DonationWalk(Walk(s, at), p).Some? <==> ChainBelow(s0, at, p, seen)
    ensures ChainBelow(s0, at, p, seen) ==>
              && RaisedTo(s0, DonationWalk(Walk(s, at), p).value, seen + Chain(s0, at, p, seen), p)
              && Chain(s0, at, p, seen) <= Below(s0.threads, p)
    decreases s0.threads.Keys - seen
  {
    hide RaisedTo, Donate, HoldersExist;
    RaisedReads(s0, s, at, p, seen);
    if Finished(Walk(s, at)) {
      assert seen + Chain(s0, at, p, seen) == seen;
    } else {
      hide DonationWalk;
      var h := s.locks[at.value].holder.value;
      var next := s0.threads[h].waitingLock;
      if h !in seen && s0.threads[h].priority < p {
        DonateRaises(s0, s, at.value, p, seen);
        WalkUnfolds(s, at.value, p);
        WalkFollowsChain(s0, Donate(s, at.value, p), next, p, seen + {h});
        assert ChainBelow(s0, at, p, seen) == ChainBelow(s0, next, p, seen + {h});
        if ChainBelow(s0, at, p, seen) {
          assert seen + Chain(s0, at, p, seen) == (seen + {h}) + Chain(s0, next, p, seen + {h});
        }
      } else {
        WalkStuck(s, at.value, p);
      }
    }
  }

  /** Donation: lock_acquire()'s loop terminates if and only if following holder and
      waiting_lock from `x` ends and every holder met is below the caller's priority. In
      that case exactly those holders are raised, all of them to the caller's priority. */
  lemma DonationTerminatesIff(s: State, x: SemaId, p: int)
    requires HoldersExist(s)
    ensures (exists n: nat :: Finished(Iterate(Walk(s, Some(x)), p, n))) <==> ChainBelow(s, Some(x), p, {})
    ensures ChainBelow(s, Some(x), p, {}) ==>
              && DonationWalk(Walk(s, Some(x)), p).Some?
              && RaisedTo(s, DonationWalk(Walk(s, Some(x)), p).value, Chain(s, Some(x), p, {}), p)
              && Chain(s, Some(x), p, {}) <= Below(s.threads, p)
  {
    WalkEndsOrSpins(Walk(s, Some(x)), p);
    WalkFollowsChain(s, s, Some(x), p, {});
    if ChainBelow(s, Some(x), p, {}) {
      assert {} + Chain(s, Some(x), p, {}) == Chain(s, Some(x), p, {});
    }
  }

  /** Exactly the locks walked over end with max_waiter_priority equal to the donated
      priority; the walk from a state in which `seen` was raised. */
  lemma {:induction false} WalkMarksFrom(s0: State, s: State, at: Option<SemaId>, p: int, seen: set<Tid>, y: SemaId)
    requires HoldersExist(s0) && RaisedTo(s0, s, seen, p) && ChainBelow(s0, at, p, seen) && y in s.locks
    ensures DonationWalk(Walk(s, at), p).Some? && y in DonationWalk(Walk(s, at), p).value.locks
    ensures DonationWalk(Walk(s, at), p).value.locks[y].maxWaiterPriority
         == if y in ChainLocks(s0, at, p, seen) then p else s.locks[y].maxWaiterPriority
    decreases s0.threads.Keys - seen
  {
    hide RaisedTo, HoldersExist;
    RaisedReads(s0, s, at, p, seen);
    if !Finished(Walk(s, at)) {
      hide DonationWalk;
      var h := s.locks[at.value].holder.value;
      var next := s0.threads[h].waitingLock;
      DonateRaises(s0, s, at.value, p, seen);
      WalkUnfolds(s, at.value, p);
      WalkMarksFrom(s0, Donate(s, at.value, p), next, p, seen + {h}, y);
      assert ChainLocks(s0, at, p, seen) == {at.value} + ChainLocks(s0, next, p, seen + {h});
    }
  }

  /** Every lock walked over records the donated priority, and no other lock changes. */
  lemma WalkMarksLocks(s: State, x: SemaId, p: int, y: SemaId)
    requires HoldersExist(s) && ChainBelow(s, Some(x), p, {}) && y in s.locks
    ensures DonationWalk(Walk(s, Some(x)), p).Some? && y in DonationWalk(Walk(s, Some(x)), p).value.locks
    ensures DonationWalk(Walk(s, Some(x)), p).value.locks[y].maxWaiterPriority
         == if y in ChainLocks(s, Some(x), p, {}) then p else s.locks[y].maxWaiterPriority
  {
    WalkMarksFrom(s, s, Some(x), p, {}, y);
  }

  /** A holder whose priority is not below the caller's hangs the caller: no number of
      iterations leaves the loop. Equal priorities are enough. */
  lemma EqualPriorityContentionSpins(s: State, x: SemaId, p: int, n: nat)
    requires HoldersExist(s) && x in s.locks && s.locks[x].holder.Some?
    requires s.threads[s.locks[x].holder.value].priority >= p
    ensures !Finished(Iterate(Walk(s, Some(x)), p, n))
  {
    StuckForever(Walk(s, Some(x)), p, n);
  }
}
