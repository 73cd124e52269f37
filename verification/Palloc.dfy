/** threads/palloc.c: two pools of pages, each with a bitmap of the pages in use.  Pages are
    identified by page number. */
module Palloc {

  import opened Lists
  import B = Bitmap

  const PGSIZE := 4096

  datatype Pool = Pool(base: nat, used: seq<bool>)

  /** A group of `cnt` contiguous pages, as handed out by one call. */
  datatype Group = Group(first: nat, cnt: nat)

  /** `live` records the groups that clients hold; the allocator does not store it. */
  datatype State = State(kernel: Pool, user: Pool, live: set<Group>)

  predicate Covers(g: Group, page: nat) {
    g.first <= page < g.first + g.cnt
  }

  /** page_from_pool(). */
  predicate FromPool(p: Pool, page: nat) {
    p.base <= page < p.base + |p.used|
  }

  ghost predicate Overlap(g: Group, h: Group) {
    exists page: nat :: Covers(g, page) && Covers(h, page)
  }

  ghost predicate Within(p: Pool, g: Group) {
    g.cnt > 0 && p.base <= g.first && g.first + g.cnt <= p.base + |p.used|
  }

  /** A page of the pool is marked exactly when some live group covers it. */
  ghost predicate Accounted(p: Pool, live: set<Group>) {
    forall i :: 0 <= i < |p.used| ==> (p.used[i] <==> exists g :: g in live && Covers(g, p.base + i))
  }

  ghost predicate Inv(s: State) {
    && s.kernel.base + |s.kernel.used| <= s.user.base
    && (forall g :: g in s.live ==> Within(s.kernel, g) || Within(s.user, g))
    && (forall g, h :: g in s.live && h in s.live && g != h ==> !Overlap(g, h))
    && Accounted(s.kernel, s.live)
    && Accounted(s.user, s.live)
  }

  /** The pages that a pool gives up to hold its own bitmap. */
  function BitmapPages(pages: nat): nat {
    (8 + 4 * B.ElemCnt(pages) + PGSIZE - 1) / PGSIZE
  }

  /** init_pool(). */
  function InitPool(base: nat, pages: nat): Option<Pool> {
    var bm := BitmapPages(pages);
    if bm > pages then None else Some(Pool(base + bm, seq(pages - bm, i => false)))
  }

  /** palloc_init() on `free` pages from page `start`. */
  function Init(start: nat, free: nat, userLimit: nat): Option<State> {
    var userPages := if free / 2 > userLimit then userLimit else free / 2;
    var kernelPages := free - userPages;
    var kernel, user := InitPool(start, kernelPages), InitPool(start + kernelPages, userPages);
    if kernel.None? || user.None? then None else Some(State(kernel.value, user.value, {}))
  }

  lemma InitSatisfiesInv(start: nat, free: nat, userLimit: nat)
    requires Init(start, free, userLimit).Some?
    ensures Inv(Init(start, free, userLimit).value)
    ensures var s := Init(start, free, userLimit).value;
            start <= s.kernel.base && s.user.base + |s.user.used| <= start + free
  {
  }

  /** `bm` pages are just enough for a bitmap of `pages` bits. */
  predicate JustHoldsBitmap(pages: nat, bm: nat) {
    PGSIZE * (bm - 1) < 8 + 4 * B.ElemCnt(pages) <= PGSIZE * bm
  }

  /** Of the free pages the user pool gets the end, half of them but no more than the limit; the
      kernel pool gets the rest.  Each pool gives up the pages at its start that its own bitmap
      takes, and all others are free.  The kernel panics exactly when a bitmap does not fit. */
  lemma InitSplits(start: nat, free: nat, userLimit: nat, userPages: nat)
    requires userPages <= free / 2 && userPages <= userLimit && (userPages == free / 2 || userPages == userLimit)
    ensures Init(start, free, userLimit).None? <==>
              || 8 + 4 * B.ElemCnt(userPages) > PGSIZE * userPages
              || 8 + 4 * B.ElemCnt(free - userPages) > PGSIZE * (free - userPages)
    ensures Init(start, free, userLimit).Some? ==>
              var s := Init(start, free, userLimit).value;
              && s.kernel.base + |s.kernel.used| == start + free - userPages
                 && s.user.base + |s.user.used| == start + free
              && s.kernel.base >= start && JustHoldsBitmap(free - userPages, s.kernel.base - start)
              && s.user.base >= start + free - userPages
              && JustHoldsBitmap(userPages, s.user.base - (start + free - userPages))
              && s.live == {} && true !in s.kernel.used && true !in s.user.used
  {
    hide InitPool, B.ElemCnt, JustHoldsBitmap;
    PoolSplits(start, free - userPages);
    PoolSplits(start + (free - userPages), userPages);
  }

  lemma PoolSplits(base: nat, pages: nat)
    ensures InitPool(base, pages).None? <==> 8 + 4 * B.ElemCnt(pages) > PGSIZE * pages
    ensures InitPool(base, pages).Some? ==>
              var p := InitPool(base, pages).value;
              && base <= p.base && p.base + |p.used| == base + pages && JustHoldsBitmap(pages, p.base - base)
              && true !in p.used
  {
    BitmapPagesHold(pages);
    hide BitmapPages, B.ElemCnt, JustHoldsBitmap;
  }

  lemma BitmapPagesHold(pages: nat)
    ensures JustHoldsBitmap(pages, BitmapPages(pages))
    ensures BitmapPages(pages) > pages <==> 8 + 4 * B.ElemCnt(pages) > PGSIZE * pages
  {
    hide B.ElemCnt;
  }

  function PoolOf(s: State, user: bool): Pool {
    if user then s.user else s.kernel
  }

  function WithPool(s: State, user: bool, p: Pool): State {
    if user then s.(user := p) else s.(kernel := p)
  }

  /** palloc_get_multiple(): the first sufficient run of free pages, or none. */
  ghost function Get(s: State, user: bool, cnt: nat): (r: (State, Option<Group>)) {
    if cnt == 0 then (s, None)
    else
      var p := PoolOf(s, user);
      match B.FirstGroup(p.used, 0, cnt, false)
      case None => (s, None)
      case Some(i) =>
        var g := Group(p.base + i, cnt);
        (WithPool(s, user, p.(used := B.SetRange(p.used, i, cnt, true))).(live := s.live + {g}), Some(g))
  }

  /** palloc_free_multiple() of a group: the pool is found from the first page. */
  function Free(s: State, g: Group): State
    requires Within(s.kernel, g) || Within(s.user, g)
  {
    var user := !FromPool(s.kernel, g.first);
    var p := PoolOf(s, user);
    if p.base <= g.first && g.first + g.cnt <= p.base + |p.used|
    then WithPool(s, user, p.(used := B.SetRange(p.used, g.first - p.base, g.cnt, false))).(live := s.live - {g})
    else s
  }

  /** A new group overlaps no live one, and the invariant is kept. */
  lemma GetKeepsInv(s: State, user: bool, cnt: nat)
    requires Inv(s)
    ensures Inv(Get(s, user, cnt).0)
    ensures Get(s, user, cnt).1.Some? <==> cnt > 0 && exists i :: B.AllAre(PoolOf(s, user).used, i, cnt, false)
    ensures Get(s, user, cnt).1.None? ==> Get(s, user, cnt).0 == s
    ensures Get(s, user, cnt).1.Some? ==>
              && Within(PoolOf(s, user), Get(s, user, cnt).1.value)
              && Get(s, user, cnt).1.value.cnt == cnt
                 && Get(s, user, cnt).0.live == s.live + {Get(s, user, cnt).1.value}
              && (forall i: nat :: B.AllAre(PoolOf(s, user).used, i, cnt, false) ==>
                    Get(s, user, cnt).1.value.first <= PoolOf(s, user).base + i)
              && forall h :: h in s.live ==> !Overlap(Get(s, user, cnt).1.value, h)
  {
    var (n, r) := Get(s, user, cnt);
    assert r.None? && cnt > 0 ==> forall i: nat :: !B.AllAre(PoolOf(s, user).used, i, cnt, false);
    if r.Some? {
      var g := r.value;
      var p, p' := PoolOf(s, user), PoolOf(n, user);
      forall h | h in s.live ensures !Overlap(g, h) {
        forall page: nat | Covers(g, page) ensures !Covers(h, page) {
          var i := page - p.base;
          assert !p.used[i] && page == p.base + i;
        }
      }
      AccountedAfterGet(p, p', s.live, g);
      OtherPool(PoolOf(s, !user), s.live, g);
    }
  }

  lemma AccountedAfterGet(p: Pool, p': Pool, live: set<Group>, g: Group)
    requires Accounted(p, live) && Within(p, g)
    requires p' == p.(used := B.SetRange(p.used, g.first - p.base, g.cnt, true))
    ensures Accounted(p', live + {g})
  {
    forall i | 0 <= i < |p'.used|
      ensures p'.used[i] <==> exists h :: h in live + {g} && Covers(h, p.base + i)
    {
      if Covers(g, p.base + i) {
        assert g in live + {g};
      } else if p.used[i] {
        var h :| h in live && Covers(h, p.base + i);
        assert h in live + {g};
      }
    }
  }

  /** A group outside the pool does not matter to it. */
  lemma OtherPool(p: Pool, live: set<Group>, g: Group)
    requires Accounted(p, live)
    requires forall page: nat :: FromPool(p, page) ==> !Covers(g, page)
    ensures Accounted(p, live + {g}) && Accounted(p, live - {g})
  {
    forall i | 0 <= i < |p.used|
      ensures p.used[i] <==> exists h :: h in live + {g} && Covers(h, p.base + i)
      ensures p.used[i] <==> exists h :: h in live - {g} && Covers(h, p.base + i)
    {
      assert FromPool(p, p.base + i);
      if p.used[i] {
        var h :| h in live && Covers(h, p.base + i);
        assert h in live + {g} && h in live - {g};
      }
    }
  }

  lemma AccountedAfterFree(p: Pool, p': Pool, live: set<Group>, g: Group)
    requires Accounted(p, live) && Within(p, g) && g in live
    requires forall h :: h in live && h != g ==> !Overlap(g, h)
    requires p' == p.(used := B.SetRange(p.used, g.first - p.base, g.cnt, false))
    ensures Accounted(p', live - {g})
  {
    forall i | 0 <= i < |p'.used|
      ensures p'.used[i] <==> exists h :: h in live - {g} && Covers(h, p.base + i)
    {
      if Covers(g, p.base + i) {
        forall h | h in live - {g} ensures !Covers(h, p.base + i) {
          assert !Overlap(g, h);
        }
      } else if p.used[i] {
        var h :| h in live && Covers(h, p.base + i);
        assert h in live - {g};
      }
    }
  }

  /** Freeing a live group keeps the invariant; the ASSERT that all its pages are marked
      holds, and it is looked up in the pool it came from. */
  lemma FreeKeepsInv(s: State, g: Group)
    requires Inv(s) && g in s.live
    ensures Inv(Free(s, g))
    ensures Within(PoolOf(s, !FromPool(s.kernel, g.first)), g)
    ensures var p := PoolOf(s, !FromPool(s.kernel, g.first)); B.AllAre(p.used, g.first - p.base, g.cnt, true)
    ensures Free(s, g).live == s.live - {g}
  {
    var user := !FromPool(s.kernel, g.first);
    var p, p' := PoolOf(s, user), PoolOf(Free(s, g), user);
    assert Within(p, g);
    forall k | g.first - p.base <= k < g.first - p.base + g.cnt ensures p.used[k] {
      assert Covers(g, p.base + k);
    }
    AccountedAfterFree(p, p', s.live, g);
    OtherPool(PoolOf(s, !user), s.live, g);
  }

  /** Taking a group and giving it back restores both bitmaps. */
  lemma GetFreeRestores(s: State, user: bool, cnt: nat)
    requires Inv(s) && Get(s, user, cnt).1.Some?
    ensures var (n, r) := Get(s, user, cnt);
            && (Within(n.kernel, r.value) || Within(n.user, r.value))
            && Free(n, r.value).kernel == s.kernel && Free(n, r.value).user == s.user
  {
    var (n, r) := Get(s, user, cnt);
    var p := PoolOf(s, user);
    GetKeepsInv(s, user, cnt);
    B.FlipFlop(p.used, r.value.first - p.base, cnt, false);
    assert FromPool(s.kernel, r.value.first) <==> !user;
  }

  // ----- Runs -----

  datatype Op = GetOp(user: bool, cnt: nat) | FreeOp(g: Group)

  ghost predicate Legal(s: State, op: Op) {
    op.FreeOp? ==> op.g in s.live && (Within(s.kernel, op.g) || Within(s.user, op.g))
  }

  ghost function Step(s: State, op: Op): State
    requires Legal(s, op)
  {
    match op
    case GetOp(user, cnt) => Get(s, user, cnt).0
    case FreeOp(g) => Free(s, g)
  }

  ghost predicate IsRun(states: seq<State>, ops: seq<Op>) {
    && |states| == |ops| + 1
    && (exists start, free, limit :: Init(start, free, limit) == Some(states[0]))
    && (forall i :: 0 <= i < |ops| ==> Legal(states[i], ops[i]) && states[i + 1] == Step(states[i], ops[i]))
  }

  /** In every run live groups never overlap, each lies in one pool, and the pools are
      disjoint. */
  lemma {:induction false} LiveGroupsNeverOverlap(states: seq<State>, ops: seq<Op>, i: nat)
    requires IsRun(states, ops) && i < |states|
    ensures Inv(states[i])
  {
    if i == 0 {
      var start, free, limit :| Init(start, free, limit) == Some(states[0]);
      InitSatisfiesInv(start, free, limit);
    } else {
      LiveGroupsNeverOverlap(states, ops, i - 1);
      match ops[i - 1]
      case GetOp(user, cnt) => GetKeepsInv(states[i - 1], user, cnt);
      case FreeOp(g) => FreeKeepsInv(states[i - 1], g);
    }
  }

  // ----- The allocator over its bitmaps -----

  class PageAllocator {
    const kernelBase: nat
    const userBase: nat
    const kernelMap: B.Bitmap
    const userMap: B.Bitmap
    ghost var live: set<Group>

    ghost predicate Valid()
      reads this, kernelMap, userMap
    {
      kernelMap != userMap && kernelMap.bits != userMap.bits && kernelMap.Valid() && userMap.Valid()
    }

    ghost function St(): State
      requires Valid()
      reads this, kernelMap, userMap, kernelMap.bits, userMap.bits
    {
      State(Pool(kernelBase, kernelMap.Contents()), Pool(userBase, userMap.Contents()), live)
    }

    constructor (kernelBase: nat, kernelPages: nat, userBase: nat, userPages: nat)
      ensures Valid()
      ensures St() == State(Pool(kernelBase, seq(kernelPages, i => false)),
                            Pool(userBase, seq(userPages, i => false)), {})
    {
      this.kernelBase, this.userBase := kernelBase, userBase;
      var k := new B.Bitmap(kernelPages);
      var u := new B.Bitmap(userPages);
      kernelMap, userMap := k, u;
      live := {};
    }

    /** palloc_get_multiple(); the result is a page number. */
    method GetMultiple(user: bool, cnt: nat) returns (page: Option<nat>)
      requires Valid()
      modifies this, kernelMap.bits, userMap.bits
      ensures Valid()
      ensures St() == Get(old(St()), user, cnt).0
      ensures page == (if Get(old(St()), user, cnt).1.Some? then Some(Get(old(St()), user, cnt).1.value.first)
                       else None)
    {
      hide B.FirstGroup, B.AllAre, B.SetRange;
      if cnt == 0 {
        return None;
      }
      var m, base := if user then userMap else kernelMap, if user then userBase else kernelBase;
      ghost var before := m.Contents();
      var idx := m.ScanAndFlip(0, cnt, false);
      B.FirstGroupUnique(before, 0, cnt, false, idx, B.FirstGroup(before, 0, cnt, false));
      if idx.Some? {
        live := live + {Group(base + idx.value, cnt)};
        page := Some(base + idx.value);
      } else {
        page := None;
      }
    }

    /** palloc_free_multiple(); None is the null pointer. */
    method FreeMultiple(pages: Option<nat>, cnt: nat)
      requires Valid()
      requires pages.Some? && cnt > 0 ==>
                 Within(St().kernel, Group(pages.value, cnt)) || Within(St().user, Group(pages.value, cnt))
      requires kernelBase + kernelMap.bitCnt <= userBase
      modifies this, kernelMap.bits, userMap.bits
      ensures Valid()
      ensures St() == if pages.Some? && cnt > 0 then Free(old(St()), Group(pages.value, cnt)) else old(St())
    {
      if pages.None? || cnt == 0 {
        return;
      }
      var page := pages.value;
      if kernelBase <= page < kernelBase + kernelMap.bitCnt {
        kernelMap.SetMultiple(page - kernelBase, cnt, false);
      } else {
        userMap.SetMultiple(page - userBase, cnt, false);
      }
      live := live - {Group(page, cnt)};
    }
  }
}
