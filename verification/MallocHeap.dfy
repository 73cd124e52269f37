/** threads/malloc.c as the kernel runs it: descriptors with free lists, arenas, and loops over
    them, proved to do what `Malloc.Alloc` and `Malloc.Dealloc` say. */
module MallocHeap {

  import opened Lists
  import opened M = Malloc

  /** The free list after the first n blocks of an arena were unlinked, one by one. */
  function Unlinked(list: seq<nat>, a: nat, d: nat, n: nat): seq<nat>
    requires d < DESC_CNT && n <= BlocksPerArena(d)
  {
    if n == 0 then list else var b := BlockAt(a, d, n - 1); Filter(Unlinked(list, a, d, n - 1), c => c != b)
  }

  lemma {:induction false} FilterFilter<T>(q: seq<T>, f: T -> bool, g: T -> bool, h: T -> bool)
    requires forall t :: t in q ==> h(t) == (f(t) && g(t))
    ensures Filter(Filter(q, f), g) == Filter(q, h)
  {
    if q != [] {
      var init, last := q[..|q| - 1], q[|q| - 1];
      FilterFilter(init, f, g, h);
      assert last in q;
      if f(last) {
        assert (Filter(init, f) + [last])[..|Filter(init, f)|] == Filter(init, f);
      }
    }
  }

  lemma {:induction false} FilterSame<T>(q: seq<T>, f: T -> bool, g: T -> bool)
    requires forall t :: t in q ==> f(t) == g(t)
    ensures Filter(q, f) == Filter(q, g)
  {
    if q != [] {
      FilterSame(q[..|q| - 1], f, g);
      assert q[|q| - 1] in q;
    }
  }

  lemma {:induction false} FilterAll<T>(q: seq<T>, f: T -> bool)
    requires forall t :: t in q ==> f(t)
    ensures Filter(q, f) == q
  {
    if q != [] {
      FilterAll(q[..|q| - 1], f);
      assert q[|q| - 1] in q;
    }
  }

  /** c is none of the first n blocks of the arena. */
  ghost predicate NotAmong(a: nat, d: nat, n: nat, c: nat)
    requires d < DESC_CNT
  {
    forall i: nat :: i < n ==> c != BlockAt(a, d, i)
  }

  lemma {:induction false} UnlinkedIsFilter(list: seq<nat>, a: nat, d: nat, n: nat)
    requires d < DESC_CNT && n <= BlocksPerArena(d)
    ensures Unlinked(list, a, d, n) == Filter(list, c => NotAmong(a, d, n, c))
  {
    if n == 0 {
      FilterAll(list, c => NotAmong(a, d, n, c));
    } else {
      var b := BlockAt(a, d, n - 1);
      UnlinkedIsFilter(list, a, d, n - 1);
      forall c ensures NotAmong(a, d, n, c) == (NotAmong(a, d, n - 1, c) && c != b) {
        if NotAmong(a, d, n - 1, c) && c != b {
          forall i: nat | i < n ensures c != BlockAt(a, d, i) {
            assert i == n - 1 || i < n - 1;
          }
        }
      }
      FilterFilter(list, c => NotAmong(a, d, n - 1, c), c => c != b, c => NotAmong(a, d, n, c));
    }
  }

  /** Unlinking all blocks of an arena leaves exactly the blocks of other pages. */
  lemma UnlinkedAll(h: Heap, a: nat, d: nat)
    requires ArenaInv(h) && FreeInv(h) && d < DESC_CNT && Small(h, a, d)
    ensures Unlinked(h.free[d], a, d, BlocksPerArena(d)) == Filter(h.free[d], b => RoundDown(b) != a)
  {
    var n := BlocksPerArena(d);
    UnlinkedIsFilter(h.free[d], a, d, n);
    forall c | c in h.free[d] ensures NotAmong(a, d, n, c) == (RoundDown(c) != a) {
      if RoundDown(c) == a {
        assert IsBlock(a, d, c);
      } else {
        forall i: nat | i < n ensures c != BlockAt(a, d, i) {
          BlockToArena(a, d, i);
        }
      }
    }
    FilterSame(h.free[d], c => NotAmong(a, d, n, c), b => RoundDown(b) != a);
  }

  /** descs, the arenas in memory, and the page allocator below. */
  class MallocHeap {
    const pages: P.PageAllocator
    var arenas: map<nat, Arena>
    var free: seq<seq<nat>>
    ghost var live: map<nat, nat>

    ghost predicate Valid()
      reads this, pages, pages.kernelMap, pages.userMap
    {
      pages.Valid() && |free| == DESC_CNT
    }

    ghost function H(): (h: Heap)
      requires Valid()
      reads this, pages, pages.kernelMap, pages.userMap, pages.kernelMap.bits, pages.userMap.bits
    {
      Heap(pages.St(), arenas, free, live)
    }

    /** malloc_init(). */
    constructor (pages: P.PageAllocator)
      requires pages.Valid()
      ensures Valid() && this.pages == pages && H() == Initial(pages.St())
    {
      this.pages := pages;
      arenas, live := map[], map[];
      free := seq(DESC_CNT, i => []);
    }

    /** malloc(); None is the null pointer. */
    method Malloc(size: nat) returns (r: Option<nat>)
      requires Valid() && Inv(H())
      modifies this, pages, pages.kernelMap.bits, pages.userMap.bits
      ensures Valid() && (H(), r) == Alloc(old(H()), size)
      ensures Inv(H())
    {
      hide Inv, P.Get, TakeFirst, MallocBig, Refill;
      ghost var h := H();
      AllocKeepsInv(h, size);
      if size == 0 {
        return None;
      }
      var d := FindDesc(size);
      if d == DESC_CNT {
        r := BigBlock(size);
        return;
      }
      if |free[d]| == 0 {
        RefillShape(h, d);
        var ok := NewArena(d);
        if !ok {
          return None;
        }
        AllBlocksLinked(h, d);
      } else {
        FirstPlaced(h, d);
      }
      var b := PopFirst(d, size);
      r := Some(b);
    }

    /** The search for a descriptor. */
    method FindDesc(size: nat) returns (d: nat)
      ensures d == DescFor(size)
    {
      d := 0;
      while d < DESC_CNT && BlockSize(d) < size
        invariant d <= DESC_CNT && DescFor(size) == DescFor(size, d)
        decreases DESC_CNT - d
      {
        d := d + 1;
      }
    }

    /** The branch of malloc() for blocks too big for any descriptor. */
    method BigBlock(size: nat) returns (r: Option<nat>)
      requires Valid()
      modifies this, pages, pages.kernelMap.bits, pages.userMap.bits
      ensures Valid() && (H(), r) == MallocBig(old(H()), size)
    {
      hide P.Get;
      var pageCnt := BigPages(size);
      var page := pages.GetMultiple(false, pageCnt);
      if page.None? {
        NothingTaken(old(H()).pages, pageCnt);
        return None;
      }
      var a := page.value * PGSIZE;
      arenas := arenas[a := Arena(None, pageCnt)];
      live := live[a + ARENA_SIZE := size];
      r := Some(a + ARENA_SIZE);
    }

    /** A new arena with all its blocks on the free list. */
    method NewArena(d: nat) returns (ok: bool)
      requires Valid() && d < DESC_CNT
      modifies this, pages, pages.kernelMap.bits, pages.userMap.bits
      ensures Valid() && ok == Refill(old(H()), d).Some?
      ensures H() == if ok then Refill(old(H()), d).value else old(H())
    {
      hide P.Get, BlockAt, BlocksPerArena;
      ghost var h := H();
      var page := pages.GetMultiple(false, 1);
      if page.None? {
        NothingTaken(h.pages, 1);
        return false;
      }
      var a := page.value * PGSIZE;
      ghost var mid, all := H(), AllBlocks(a, d);
      arenas := arenas[a := Arena(Some(d), BlocksPerArena(d))];
      var i := 0;
      while i < BlocksPerArena(d)
        invariant 0 <= i <= BlocksPerArena(d) && Valid()
        invariant H() == mid.(arenas := mid.arenas[a := Arena(Some(d), BlocksPerArena(d))], free := free)
        invariant free[d] == mid.free[d] + all[..i] && free == mid.free[d := free[d]]
      {
        free := free[d := free[d] + [BlockAt(a, d, i)]];
        i := i + 1;
        assert all[..i] == all[..i - 1] + [all[i - 1]];
      }
      assert all[..i] == all;
      return true;
    }

    /** Taking the first block of a free list. */
    method PopFirst(d: nat, ghost size: nat) returns (b: nat)
      requires Valid() && d < DESC_CNT && free[d] != [] && RoundDown(free[d][0]) in arenas
      modifies this
      ensures Valid() && H() == TakeFirst(old(H()), d, size) && b == old(free[d][0])
    {
      b := free[d][0];
      free := free[d := free[d][1..]];
      var a := RoundDown(b);
      var cnt := arenas[a].freeCnt;
      arenas := arenas[a := arenas[a].(freeCnt := if cnt > 0 then cnt - 1 else 0)];
      live := live[b := size];
    }

    /** free(); None is the null pointer. */
    method Free(p: Option<nat>)
      requires Valid() && Inv(H()) && (p.Some? ==> p.value in live)
      modifies this, pages, pages.kernelMap.bits, pages.userMap.bits
      ensures Valid() && H() == if p.Some? then Dealloc(old(H()), p.value) else old(H())
      ensures Inv(H())
    {
      if p.Some? {
        FreeBlock(p.value);
      }
    }

    method FreeBlock(b: nat)
      requires Valid() && Inv(H()) && b in live
      modifies this, pages, pages.kernelMap.bits, pages.userMap.bits
      ensures Valid() && H() == Dealloc(old(H()), b)
      ensures Inv(H())
    {
      hide Inv, P.Free, PutBack, DropArena, FreeBig, P.Within, ArenaInv, FreeInv, GroupOf, RoundDown, BlocksPerArena;
      ghost var h := H();
      DeallocKeepsInv(h, b);
      var a := RoundDown(b);
      LiveArena(h, b);
      var desc := arenas[a].desc;
      if desc.None? {
        FreeBigBlock(a, b);
        return;
      }
      var d := desc.value;
      PutBackShape(h, a, d, b);
      PushBlock(a, d, b);
      if arenas[a].freeCnt >= BlocksPerArena(d) {
        ReturnArena(a, d);
      }
    }

    method PushBlock(a: nat, d: nat, b: nat)
      requires Valid() && d < DESC_CNT && a in arenas
      modifies this
      ensures Valid() && H() == PutBack(old(H()), a, d, b)
    {
      free := free[d := [b] + free[d]];
      arenas := arenas[a := arenas[a].(freeCnt := arenas[a].freeCnt + 1)];
      live := live - {b};
    }

    method FreeBigBlock(a: nat, ghost b: nat)
      requires Valid() && ArenaInv(H()) && a in arenas && arenas[a].desc.None?
      requires P.Within(H().pages.kernel, GroupOf(a, arenas[a])) || P.Within(H().pages.user, GroupOf(a, arenas[a]))
      modifies this, pages, pages.kernelMap.bits, pages.userMap.bits
      ensures Valid() && H() == FreeBig(old(H()), a, b)
    {
      hide P.Free, P.Inv, P.Within;
      PoolsApart(H().pages);
      GroupNonEmpty(H().pages, GroupOf(a, arenas[a]));
      pages.FreeMultiple(Some(a / PGSIZE), arenas[a].freeCnt);
      arenas := arenas - {a};
      live := live - {b};
    }

    /** Unlinking every block of an unused arena and giving its page back. */
    method ReturnArena(a: nat, d: nat)
      requires Valid() && ArenaInv(H()) && FreeInv(H()) && d < DESC_CNT && Small(H(), a, d)
      requires P.Within(H().pages.kernel, GroupOf(a, arenas[a])) || P.Within(H().pages.user, GroupOf(a, arenas[a]))
      modifies this, pages, pages.kernelMap.bits, pages.userMap.bits
      ensures Valid() && H() == DropArena(old(H()), a, d)
    {
      hide P.Free, P.Inv, P.Within, FreeInv, ArenaInv, BlocksPerArena, BlockAt, Filter;
      ghost var h := H();
      var i := 0;
      while i < BlocksPerArena(d)
        invariant 0 <= i <= BlocksPerArena(d) && Valid()
        invariant H() == h.(free := h.free[d := Unlinked(h.free[d], a, d, i)])
      {
        var b := BlockAt(a, d, i);
        free := free[d := Filter(free[d], c => c != b)];
        i := i + 1;
      }
      UnlinkedAll(h, a, d);
      PagesOk(h);
      PoolsApart(H().pages);
      pages.FreeMultiple(Some(a / PGSIZE), 1);
      arenas := arenas - {a};
    }
  }

  lemma NothingTaken(p: P.State, cnt: nat)
    requires P.Get(p, false, cnt).1.None?
    ensures P.Get(p, false, cnt).0 == p
  {
  }

  lemma RefillShape(h: Heap, d: nat)
    requires d < DESC_CNT == |h.free|
    ensures Refill(h, d).Some? ==> |Refill(h, d).value.free| == DESC_CNT
  {
  }

  lemma FirstPlaced(h: Heap, d: nat)
    requires Inv(h) && d < DESC_CNT && h.free[d] != []
    ensures RoundDown(h.free[d][0]) in h.arenas
  {
    assert h.free[d][0] in h.free[d];
  }

  lemma LiveArena(h: Heap, b: nat)
    requires Inv(h) && b in h.live
    ensures var a := RoundDown(b);
            && a in h.arenas && ArenaInv(h) && (h.arenas[a].desc.Some? ==> h.arenas[a].desc.value < DESC_CNT)
            && (P.Within(h.pages.kernel, GroupOf(a, h.arenas[a])) || P.Within(h.pages.user, GroupOf(a, h.arenas[a])))
  {
    assert LiveBlock(h, b);
    ArenaPlaced(h, RoundDown(b));
  }

  lemma PutBackShape(h: Heap, a: nat, d: nat, b: nat)
    requires Inv(h) && b in h.live && a == RoundDown(b) && d < DESC_CNT && a in h.arenas && h.arenas[a].desc == Some(d)
    ensures var n := PutBack(h, a, d, b);
            && ArenaInv(n) && FreeInv(n) && Small(n, a, d) && n.pages == h.pages
               && GroupOf(a, n.arenas[a]) == GroupOf(a, h.arenas[a])
  {
    assert LiveBlock(h, b);
    PutBackKeeps(h, a, d, b);
  }

  lemma PoolsApart(p: P.State)
    requires P.Inv(p)
    ensures p.kernel.base + |p.kernel.used| <= p.user.base
  {
  }

  lemma PagesOk(h: Heap)
    requires ArenaInv(h)
    ensures P.Inv(h.pages)
  {
  }

  lemma GroupNonEmpty(p: P.State, g: P.Group)
    requires P.Within(p.kernel, g) || P.Within(p.user, g)
    ensures g.cnt > 0
  {
  }
}
