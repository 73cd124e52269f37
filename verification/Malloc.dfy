/** threads/malloc.c: blocks of power-of-two size carved out of one-page arenas, and big
    blocks on page groups of their own, over the page allocator. */
module Malloc {

  import opened Lists
  import A = Arithmetic
  import B = Bitmap
  import P = Palloc

  const PGSIZE: nat := 4096
  const ARENA_SIZE: nat := 12
  const DESC_CNT: nat := 7

  /** The descriptors that malloc_init() sets up: 16, 32, ... below half a page. */
  function BlockSize(d: nat): (n: nat)
    requires d < DESC_CNT
    ensures 16 <= n <= 1024
  {
    [16, 32, 64, 128, 256, 512, 1024][d]
  }

  function BlocksPerArena(d: nat): (n: nat)
    requires d < DESC_CNT
    ensures 3 <= n <= 255
  {
    if d == 0 then 255 else if d == 1 then 127 else if d == 2 then 63 else if d == 3 then 31
    else if d == 4 then 15 else if d == 5 then 7 else 3
  }

  /** The loop of malloc_init(): sizes double from 16 on as long as they are below half a page. */
  lemma BlockSizesDouble(d: nat)
    requires d < DESC_CNT
    ensures BlockSize(0) == 16 && 2 * BlockSize(d) == if d + 1 < DESC_CNT then BlockSize(d + 1) else PGSIZE / 2
  {
  }

  /** blocks_per_arena as malloc_init() computes it. */
  lemma BlocksPerArenaValue(d: nat)
    requires d < DESC_CNT
    ensures BlocksPerArena(d) == (PGSIZE - ARENA_SIZE) / BlockSize(d)
  {
  }

  // ----- Address arithmetic -----

  /** pg_round_down(). */
  function RoundDown(b: nat): nat {
    b / PGSIZE * PGSIZE
  }

  /** arena_to_block(). */
  function BlockAt(a: nat, d: nat, i: nat): nat
    requires d < DESC_CNT
  {
    a + ARENA_SIZE + i * BlockSize(d)
  }

  lemma OffsetFits(d: nat, i: nat)
    requires d < DESC_CNT && i < BlocksPerArena(d)
    ensures 0 <= i * BlockSize(d) && ARENA_SIZE + i * BlockSize(d) + BlockSize(d) <= PGSIZE
  {
    A.MulMono(i + 1, BlocksPerArena(d), BlockSize(d));
    A.MulMono(0, i, BlockSize(d));
    A.MulDist(i, 1, BlockSize(d));
    assert BlocksPerArena(d) * BlockSize(d) <= PGSIZE - ARENA_SIZE;
  }

  lemma RoundDownOffset(a: nat, off: nat)
    requires a % PGSIZE == 0 && off < PGSIZE
    ensures RoundDown(a + off) == a
  {
  }

  /** block_to_arena() inverts arena_to_block(), for the block's first and last byte. */
  lemma BlockToArena(a: nat, d: nat, i: nat)
    requires a % PGSIZE == 0 && d < DESC_CNT && i < BlocksPerArena(d)
    ensures RoundDown(BlockAt(a, d, i)) == a
    ensures RoundDown(BlockAt(a, d, i) + BlockSize(d) - 1) == a
    ensures (BlockAt(a, d, i) % PGSIZE - ARENA_SIZE) % BlockSize(d) == 0
  {
    OffsetFits(d, i);
    RoundDownOffset(a, ARENA_SIZE + i * BlockSize(d));
    RoundDownOffset(a, ARENA_SIZE + i * BlockSize(d) + BlockSize(d) - 1);
    assert BlockAt(a, d, i) % PGSIZE == ARENA_SIZE + i * BlockSize(d);
    MultipleMod(i, BlockSize(d));
  }

  lemma {:induction false} MultipleMod(i: nat, n: nat)
    requires n > 0
    ensures i * n % n == 0
  {
    A.MulDist(i, 1, n);
    A.DivUnique(i * n, n, i);
    A.DivBounds(i * n, n);
  }

  /** Blocks of one arena do not overlap. */
  lemma BlocksApart(a: nat, d: nat, i: nat, j: nat)
    requires d < DESC_CNT && i < j
    ensures BlockAt(a, d, i) + BlockSize(d) <= BlockAt(a, d, j)
  {
    A.MulMono(i + 1, j, BlockSize(d));
    A.MulDist(i, 1, BlockSize(d));
  }

  // ----- The heap -----

  /** `desc` is None for a big block; `freeCnt` then counts its pages. */
  datatype Arena = Arena(desc: Option<nat>, freeCnt: nat)

  /** `live` maps the blocks clients hold to the size they asked for; the allocator does not
      store it. */
  datatype Heap = Heap(
    pages: P.State,
    arenas: map<nat, Arena>,
    free: seq<seq<nat>>,
    live: map<nat, nat>)

  function GroupOf(a: nat, ar: Arena): P.Group {
    P.Group(a / PGSIZE, if ar.desc.Some? then 1 else ar.freeCnt)
  }

  predicate Small(h: Heap, a: nat, d: nat) {
    a in h.arenas && h.arenas[a].desc == Some(d)
  }

  /** The indices of an arena's blocks that are on the free list of its descriptor. */
  ghost function FreeIdx(a: nat, d: nat, list: seq<nat>): set<nat>
    requires d < DESC_CNT
  {
    set i: nat | i < BlocksPerArena(d) && BlockAt(a, d, i) in list
  }

  ghost predicate IsBlock(a: nat, d: nat, b: nat)
    requires d < DESC_CNT
  {
    exists i: nat :: i < BlocksPerArena(d) && b == BlockAt(a, d, i)
  }

  /** Arenas sit on page groups obtained from the page allocator. */
  ghost predicate ArenaInv(h: Heap) {
    && P.Inv(h.pages)
    && |h.free| == DESC_CNT
    && (forall a :: a in h.arenas ==>
          && a % PGSIZE == 0
          && GroupOf(a, h.arenas[a]) in h.pages.live
          && (h.arenas[a].desc.Some? ==> h.arenas[a].desc.value < DESC_CNT))
  }

  /** Free lists hold blocks of arenas of their descriptor, each once. */
  ghost predicate FreeInv(h: Heap)
    requires |h.free| == DESC_CNT
  {
    forall d :: 0 <= d < DESC_CNT ==>
      && NoDup(h.free[d])
      && (forall b :: b in h.free[d] ==> Small(h, RoundDown(b), d) && IsBlock(RoundDown(b), d, b))
  }

  /** free_cnt counts the arena's blocks on the free list. */
  ghost predicate CountInv(h: Heap)
    requires |h.free| == DESC_CNT
  {
    forall a: nat, d: nat :: d < DESC_CNT && Small(h, a, d) ==>
      h.arenas[a].freeCnt == |FreeIdx(a, d, h.free[d])|
  }

  /** Every arena but `except` has a block in use; an unused one is given back. */
  ghost predicate InUse(h: Heap, except: set<nat>) {
    forall a: nat, d: nat :: d < DESC_CNT && Small(h, a, d) && a !in except ==>
      h.arenas[a].freeCnt < BlocksPerArena(d)
  }

  /** A live block of descriptor `d`, or a big one, lies in its arena and is big enough. */
  ghost predicate LiveBlock(h: Heap, b: nat)
    requires |h.free| == DESC_CNT && b in h.live
  {
    var a := RoundDown(b);
    && a in h.arenas
    && (match h.arenas[a].desc
        case None => b == a + ARENA_SIZE && ARENA_SIZE + h.live[b] <= PGSIZE * h.arenas[a].freeCnt
        case Some(d) => d < DESC_CNT && IsBlock(a, d, b) && b !in h.free[d] && h.live[b] <= BlockSize(d))
  }

  ghost predicate LiveInv(h: Heap)
    requires |h.free| == DESC_CNT
  {
    && (forall b :: b in h.live ==> LiveBlock(h, b))
    && (forall a: nat, d: nat, i: nat :: d < DESC_CNT && i < BlocksPerArena(d) && Small(h, a, d) ==>
          BlockAt(a, d, i) in h.free[d] || BlockAt(a, d, i) in h.live)
  }

  ghost predicate Inv(h: Heap) {
    ArenaInv(h) && FreeInv(h) && CountInv(h) && LiveInv(h) && InUse(h, {})
  }

  // ----- What the invariant means -----

  lemma InGroup(h: Heap, b: nat, x: nat)
    requires ArenaInv(h) && b in h.live && LiveBlock(h, b) && b <= x < b + h.live[b]
    ensures P.Covers(GroupOf(RoundDown(b), h.arenas[RoundDown(b)]), x / PGSIZE)
  {
    var a := RoundDown(b);
    match h.arenas[a].desc
    case None =>
      PageOf(a, h.arenas[a].freeCnt, x);
    case Some(d) =>
      var i: nat :| i < BlocksPerArena(d) && b == BlockAt(a, d, i);
      OffsetFits(d, i);
      PageOf(a, 1, x);
  }

  lemma PageOf(a: nat, cnt: nat, x: nat)
    requires a % PGSIZE == 0 && a <= x < a + PGSIZE * cnt
    ensures a / PGSIZE <= x / PGSIZE < a / PGSIZE + cnt
  {
  }

  /** Live blocks never overlap, whichever arenas they come from. */
  lemma LiveBlocksDisjoint(h: Heap, b: nat, c: nat, x: nat)
    requires Inv(h) && b in h.live && c in h.live
    requires b <= x < b + h.live[b] && c <= x < c + h.live[c]
    ensures b == c
  {
    hide RoundDown, BlockAt, P.Covers, P.Inv, BlocksPerArena, BlockSize, FreeInv, CountInv, InUse;
    var ab: nat, ac: nat := RoundDown(b), RoundDown(c);
    assert LiveBlock(h, b) && LiveBlock(h, c);
    InGroup(h, b, x);
    InGroup(h, c, x);
    SamePage(h, ab, ac, x / PGSIZE);
    if h.arenas[ab].desc.Some? {
      OneBlock(ab, h.arenas[ab].desc.value, b, c, x);
    }
  }

  /** Two blocks of an arena that share a byte are one. */
  lemma OneBlock(a: nat, d: nat, b: nat, c: nat, x: nat)
    requires d < DESC_CNT && IsBlock(a, d, b) && IsBlock(a, d, c)
    requires b <= x < b + BlockSize(d) && c <= x < c + BlockSize(d)
    ensures b == c
  {
    hide BlockAt, BlocksPerArena, BlockSize;
    var i: nat :| i < BlocksPerArena(d) && b == BlockAt(a, d, i);
    var j: nat :| j < BlocksPerArena(d) && c == BlockAt(a, d, j);
    if i < j {
      BlocksApart(a, d, i, j);
    } else if j < i {
      BlocksApart(a, d, j, i);
    }
  }

  /** Two arenas whose groups share a page are one. */
  lemma SamePage(h: Heap, a: nat, b: nat, page: nat)
    requires ArenaInv(h) && a in h.arenas && b in h.arenas
    requires P.Covers(GroupOf(a, h.arenas[a]), page) && P.Covers(GroupOf(b, h.arenas[b]), page)
    ensures a == b
  {
    hide P.Covers;
    var g, k := GroupOf(a, h.arenas[a]), GroupOf(b, h.arenas[b]);
    assert P.Overlap(g, k);
    assert g == k;
    assert a == a / PGSIZE * PGSIZE && b == b / PGSIZE * PGSIZE;
  }

  // ----- malloc() -----

  /** The smallest descriptor that satisfies the request, or DESC_CNT. */
  function DescFor(size: nat, from: nat := 0): (d: nat)
    requires from <= DESC_CNT
    ensures from <= d <= DESC_CNT
    ensures d < DESC_CNT ==> size <= BlockSize(d)
    ensures forall e :: from <= e < d ==> BlockSize(e) < size
    decreases DESC_CNT - from
  {
    if from == DESC_CNT || size <= BlockSize(from) then from else DescFor(size, from + 1)
  }

  /** Pages for a block too big for any descriptor. */
  function BigPages(size: nat): nat {
    (size + ARENA_SIZE + PGSIZE - 1) / PGSIZE
  }

  ghost function MallocBig(h: Heap, size: nat): (Heap, Option<nat>) {
    var (pages, g) := P.Get(h.pages, false, BigPages(size));
    match g
    case None => (h, None)
    case Some(g) =>
      var a := g.first * PGSIZE;
      (Heap(pages, h.arenas[a := Arena(None, BigPages(size))], h.free, h.live[a + ARENA_SIZE := size]),
       Some(a + ARENA_SIZE))
  }

  function AllBlocks(a: nat, d: nat): seq<nat>
    requires d < DESC_CNT
  {
    seq(BlocksPerArena(d), i requires 0 <= i < BlocksPerArena(d) => BlockAt(a, d, i))
  }

  /** A new arena whose blocks all go to the back of the free list. */
  function AddArena(h: Heap, pages: P.State, a: nat, d: nat): Heap
    requires d < DESC_CNT == |h.free|
  {
    Heap(pages, h.arenas[a := Arena(Some(d), BlocksPerArena(d))], h.free[d := h.free[d] + AllBlocks(a, d)], h.live)
  }

  ghost function Refill(h: Heap, d: nat): Option<Heap>
    requires d < DESC_CNT == |h.free|
  {
    var (pages, g) := P.Get(h.pages, false, 1);
    match g
    case None => None
    case Some(g) => Some(AddArena(h, pages, g.first * PGSIZE, d))
  }

  /** Taking the first block of the free list. */
  function TakeFirst(h: Heap, d: nat, size: nat): Heap
    requires d < DESC_CNT == |h.free| && h.free[d] != [] && RoundDown(h.free[d][0]) in h.arenas
  {
    var b := h.free[d][0];
    var a := RoundDown(b);
    var ar := h.arenas[a];
    h.(arenas := h.arenas[a := ar.(freeCnt := if ar.freeCnt > 0 then ar.freeCnt - 1 else 0)],
       free := h.free[d := h.free[d][1..]],
       live := h.live[b := size])
  }

  ghost function Alloc(h: Heap, size: nat): (Heap, Option<nat>)
    requires Inv(h)
  {
    if size == 0 then (h, None)
    else
      var d := DescFor(size);
      if d == DESC_CNT then MallocBig(h, size)
      else if h.free[d] != [] then (TakeFirst(h, d, size), Some(h.free[d][0]))
      else
        match Refill(h, d)
        case None => (h, None)
        case Some(h1) =>
          AllBlocksLinked(h, d);
          (TakeFirst(h1, d, size), Some(h1.free[d][0]))
  }

  lemma AllBlocksLinked(h: Heap, d: nat)
    requires Inv(h) && d < DESC_CNT && Refill(h, d).Some? && h.free[d] == []
    ensures var h1 := Refill(h, d).value; h1.free[d] != [] && RoundDown(h1.free[d][0]) in h1.arenas
  {
    var h1 := Refill(h, d).value;
    var g := P.Get(h.pages, false, 1).1.value;
    var a: nat := g.first * PGSIZE;
    BlockToArena(a, d, 0);
    assert h1.free[d][0] == BlockAt(a, d, 0);
  }

  // ----- malloc() keeps the invariant -----

  lemma NewGroup(h: Heap, cnt: nat)
    requires ArenaInv(h) && P.Get(h.pages, false, cnt).1.Some?
    ensures var (pages, g) := P.Get(h.pages, false, cnt);
            && P.Inv(pages) && g.value.cnt == cnt > 0
            && pages.live == h.pages.live + {g.value}
            && (g.value.first * PGSIZE) % PGSIZE == 0 && g.value.first * PGSIZE / PGSIZE == g.value.first
            && g.value.first * PGSIZE !in h.arenas
  {
    P.GetKeepsInv(h.pages, false, cnt);
    var (pages, g) := P.Get(h.pages, false, cnt);
    var a := g.value.first * PGSIZE;
    forall x | x in h.arenas ensures x / PGSIZE != g.value.first {
      ArenaNonEmpty(h, x);
      FirstsDiffer(g.value, GroupOf(x, h.arenas[x]));
    }
  }

  lemma FirstsDiffer(g: P.Group, k: P.Group)
    requires !P.Overlap(g, k) && g.cnt > 0 && k.cnt > 0
    ensures g.first != k.first
  {
    assert P.Covers(g, g.first) && P.Covers(k, k.first);
  }

  lemma ArenaNonEmpty(h: Heap, a: nat)
    requires ArenaInv(h) && a in h.arenas
    ensures GroupOf(a, h.arenas[a]).cnt > 0
  {
    assert GroupOf(a, h.arenas[a]) in h.pages.live;
  }

  lemma BigPagesFit(size: nat)
    ensures ARENA_SIZE + size <= PGSIZE * BigPages(size)
  {
  }

  lemma MallocBigKeepsInv(h: Heap, size: nat)
    requires Inv(h)
    ensures Inv(MallocBig(h, size).0)
  {
    hide P.Inv, P.Get, BigPages, BlockAt, BlocksPerArena, LiveBlock, LiveInv;
    var (n, r) := MallocBig(h, size);
    if r.Some? {
      var (pages, g) := P.Get(h.pages, false, BigPages(size));
      var a: nat := g.value.first * PGSIZE;
      NewGroup(h, BigPages(size));
      BigPagesFit(size);
      assert forall x: nat, d: nat :: Small(n, x, d) ==> Small(h, x, d) && x != a;
      MallocBigLive(h, n, a, size);
    }
  }

  lemma MallocBigLive(h: Heap, n: Heap, a: nat, size: nat)
    requires |h.free| == |n.free| == DESC_CNT && LiveInv(h) && a % PGSIZE == 0 && a !in h.arenas
    requires ARENA_SIZE + size <= PGSIZE * BigPages(size)
    requires n == h.(pages := n.pages, arenas := h.arenas[a := Arena(None, BigPages(size))],
                     live := h.live[a + ARENA_SIZE := size])
    ensures LiveInv(n)
  {
    hide BigPages, BlockAt, BlocksPerArena, IsBlock, BlockSize;
    RoundDownOffset(a, ARENA_SIZE);
    assert forall x: nat, d: nat :: Small(n, x, d) ==> Small(h, x, d) && x != a;
    forall b | b in n.live ensures LiveBlock(n, b) {
      if b != a + ARENA_SIZE {
        assert LiveBlock(h, b);
      }
    }
  }

  lemma AllBlocksElements(a: nat, d: nat)
    requires a % PGSIZE == 0 && d < DESC_CNT
    ensures NoDup(AllBlocks(a, d))
    ensures forall b :: b in AllBlocks(a, d) <==> IsBlock(a, d, b)
    ensures forall b :: b in AllBlocks(a, d) ==> RoundDown(b) == a
  {
    var q := AllBlocks(a, d);
    forall i, j | 0 <= i < j < |q| ensures q[i] != q[j] {
      BlocksApart(a, d, i, j);
    }
    forall b | b in q ensures IsBlock(a, d, b) && RoundDown(b) == a {
      var i :| 0 <= i < |q| && q[i] == b;
      BlockToArena(a, d, i);
    }
    forall b | IsBlock(a, d, b) ensures b in q {
      var i: nat :| i < BlocksPerArena(d) && b == BlockAt(a, d, i);
      assert q[i] == b;
    }
  }

  /** The numbers below n. */
  ghost function Indices(n: nat): (r: set<nat>)
    ensures |r| == n
    ensures forall i: nat :: i in r <==> i < n
  {
    if n == 0 then {} else Indices(n - 1) + {n - 1}
  }

  lemma FreeIdxBound(a: nat, d: nat, list: seq<nat>)
    requires d < DESC_CNT
    ensures FreeIdx(a, d, list) <= Indices(BlocksPerArena(d))
    ensures |FreeIdx(a, d, list)| <= BlocksPerArena(d)
    ensures |FreeIdx(a, d, list)| == BlocksPerArena(d) ==> FreeIdx(a, d, list) == Indices(BlocksPerArena(d))
  {
    SubsetSize(FreeIdx(a, d, list), Indices(BlocksPerArena(d)));
  }

  /** Blocks of other arenas on a list do not change an arena's free indices. */
  lemma FreeIdxOther(a: nat, d: nat, list: seq<nat>, more: seq<nat>)
    requires a % PGSIZE == 0 && d < DESC_CNT
    requires forall b :: b in more ==> RoundDown(b) != a
    ensures FreeIdx(a, d, list + more) == FreeIdx(a, d, list) == FreeIdx(a, d, more + list)
  {
    forall i: nat | i < BlocksPerArena(d) ensures BlockAt(a, d, i) !in more {
      BlockToArena(a, d, i);
    }
  }

  lemma AllIdxFree(a: nat, d: nat)
    requires a % PGSIZE == 0 && d < DESC_CNT
    ensures FreeIdx(a, d, AllBlocks(a, d)) == Indices(BlocksPerArena(d))
  {
    AllBlocksElements(a, d);
    forall i: nat | i < BlocksPerArena(d) ensures BlockAt(a, d, i) in AllBlocks(a, d) {
      assert IsBlock(a, d, BlockAt(a, d, i));
    }
  }

  lemma AddArenaKeeps(h: Heap, pages: P.State, a: nat, d: nat)
    requires Inv(h) && d < DESC_CNT && h.free[d] == []
    requires a % PGSIZE == 0 && a !in h.arenas
    requires P.Inv(pages) && h.pages.live <= pages.live && P.Group(a / PGSIZE, 1) in pages.live
    ensures var n := AddArena(h, pages, a, d);
            ArenaInv(n) && FreeInv(n) && CountInv(n) && LiveInv(n) && InUse(n, {a})
  {
    var n := AddArena(h, pages, a, d);
    AllBlocksElements(a, d);
    assert n.free[d] == AllBlocks(a, d);
    assert forall x: nat, e: nat :: Small(n, x, e) ==> (x == a && e == d) || (x != a && Small(h, x, e));
    AddArenaFree(h, n, a, d);
    AddArenaCount(h, n, a, d);
    AddArenaLive(h, n, a, d);
  }

  lemma AddArenaFree(h: Heap, n: Heap, a: nat, d: nat)
    requires Inv(h) && d < DESC_CNT && a !in h.arenas && a % PGSIZE == 0
    requires n == h.(pages := n.pages, arenas := h.arenas[a := Arena(Some(d), BlocksPerArena(d))],
                     free := h.free[d := AllBlocks(a, d)])
    ensures FreeInv(n)
  {
    AllBlocksElements(a, d);
  }

  lemma AddArenaCount(h: Heap, n: Heap, a: nat, d: nat)
    requires Inv(h) && d < DESC_CNT && a !in h.arenas && a % PGSIZE == 0 && h.free[d] == []
    requires n == h.(pages := n.pages, arenas := h.arenas[a := Arena(Some(d), BlocksPerArena(d))],
                     free := h.free[d := AllBlocks(a, d)])
    ensures CountInv(n)
  {
    hide FreeIdx, AllBlocks, BlockAt, BlocksPerArena, P.Inv, LiveInv, InUse, FreeInv, RoundDown;
    AllBlocksElements(a, d);
    forall x: nat, e: nat | e < DESC_CNT && Small(n, x, e)
      ensures n.arenas[x].freeCnt == |FreeIdx(x, e, n.free[e])|
    {
      if x == a {
        AllIdxFree(a, d);
      } else if e == d {
        FreeIdxOther(x, d, [], AllBlocks(a, d));
        assert [] + AllBlocks(a, d) == AllBlocks(a, d);
      }
    }
  }

  lemma AddArenaLive(h: Heap, n: Heap, a: nat, d: nat)
    requires Inv(h) && d < DESC_CNT && a !in h.arenas && a % PGSIZE == 0 && h.free[d] == []
    requires n == h.(pages := n.pages, arenas := h.arenas[a := Arena(Some(d), BlocksPerArena(d))],
                     free := h.free[d := AllBlocks(a, d)])
    ensures LiveInv(n)
  {
    AllBlocksElements(a, d);
    forall b | b in n.live ensures LiveBlock(n, b) {
      assert LiveBlock(h, b) && RoundDown(b) != a;
    }
    forall x: nat, e: nat, i: nat | e < DESC_CNT && i < BlocksPerArena(e) && Small(n, x, e)
      ensures BlockAt(x, e, i) in n.free[e] || BlockAt(x, e, i) in n.live
    {
      if x == a {
        assert IsBlock(a, d, BlockAt(a, d, i));
      } else {
        assert Small(h, x, e);
        assert BlockAt(x, e, i) in h.free[e] || BlockAt(x, e, i) in h.live;
      }
    }
  }

  /** The state in which malloc() pops the free list. */
  ghost predicate Popping(h: Heap, d: nat) {
    && d < DESC_CNT && ArenaInv(h) && FreeInv(h) && CountInv(h) && LiveInv(h)
    && h.free[d] != []
    && InUse(h, {RoundDown(h.free[d][0])})
  }

  lemma PopIdx(h: Heap, d: nat)
    requires Popping(h, d)
    ensures var b := h.free[d][0]; var a := RoundDown(b);
            && Small(h, a, d) && a % PGSIZE == 0
            && |FreeIdx(a, d, h.free[d][1..])| == h.arenas[a].freeCnt - 1
            && h.arenas[a].freeCnt <= BlocksPerArena(d)
  {
    hide FreeIdx, BlockAt, BlocksPerArena, RoundDown, LiveInv, P.Inv, FreeInv, InUse;
    var b := h.free[d][0];
    var a := RoundDown(b);
    var list, rest := h.free[d], h.free[d][1..];
    FirstFree(h, d);
    assert list == [b] + rest;
    OneMoreIdx(a, d, b, rest);
    FreeIdxBound(a, d, list);
  }

  lemma FirstFree(h: Heap, d: nat)
    requires ArenaInv(h) && FreeInv(h) && d < DESC_CNT && h.free[d] != []
    ensures var b := h.free[d][0]; var a := RoundDown(b);
            Small(h, a, d) && a % PGSIZE == 0 && IsBlock(a, d, b) && b !in h.free[d][1..]
  {
    assert h.free[d][0] in h.free[d];
  }

  /** A block more on the free list is an index more. */
  lemma OneMoreIdx(a: nat, d: nat, b: nat, list: seq<nat>)
    requires d < DESC_CNT && IsBlock(a, d, b) && b !in list
    ensures |FreeIdx(a, d, [b] + list)| == |FreeIdx(a, d, list)| + 1
  {
    hide BlockAt, BlocksPerArena;
    var i: nat :| i < BlocksPerArena(d) && b == BlockAt(a, d, i);
    forall j: nat | j < BlocksPerArena(d) && j != i ensures BlockAt(a, d, j) != b {
      if j < i { BlocksApart(a, d, j, i); } else { BlocksApart(a, d, i, j); }
    }
    assert FreeIdx(a, d, [b] + list) == FreeIdx(a, d, list) + {i};
  }

  lemma TakeFirstFree(h: Heap, d: nat, size: nat)
    requires Popping(h, d) && RoundDown(h.free[d][0]) in h.arenas
    ensures FreeInv(TakeFirst(h, d, size))
  {
    var n := TakeFirst(h, d, size);
    assert forall x: nat, e: nat :: Small(n, x, e) <==> Small(h, x, e);
    assert forall b :: b in n.free[d] ==> b in h.free[d];
  }

  lemma TakeFirstCount(h: Heap, d: nat, size: nat)
    requires Popping(h, d) && RoundDown(h.free[d][0]) in h.arenas
    ensures CountInv(TakeFirst(h, d, size)) && InUse(TakeFirst(h, d, size), {})
  {
    var n := TakeFirst(h, d, size);
    var b := h.free[d][0];
    var a: nat := RoundDown(b);
    PopIdx(h, d);
    assert h.free[d] == [b] + h.free[d][1..];
    forall x: nat, e: nat | e < DESC_CNT && Small(n, x, e)
      ensures n.arenas[x].freeCnt == |FreeIdx(x, e, n.free[e])| && n.arenas[x].freeCnt < BlocksPerArena(e)
    {
      assert Small(h, x, e);
      if x != a && e == d {
        FreeIdxOther(x, d, h.free[d][1..], [b]);
      }
    }
  }

  lemma TakeFirstLive(h: Heap, d: nat, size: nat)
    requires Popping(h, d) && RoundDown(h.free[d][0]) in h.arenas && size <= BlockSize(d)
    ensures LiveInv(TakeFirst(h, d, size))
  {
    var n := TakeFirst(h, d, size);
    var b := h.free[d][0];
    assert b in h.free[d] && b !in n.free[d];
    forall c | c in n.live ensures LiveBlock(n, c) {
      if c != b {
        assert LiveBlock(h, c);
      }
    }
    forall x: nat, e: nat, i: nat | e < DESC_CNT && i < BlocksPerArena(e) && Small(n, x, e)
      ensures BlockAt(x, e, i) in n.free[e] || BlockAt(x, e, i) in n.live
    {
      assert Small(h, x, e);
      assert BlockAt(x, e, i) in h.free[e] || BlockAt(x, e, i) in h.live;
      assert h.free[d] == [b] + h.free[d][1..];
    }
  }

  lemma TakeFirstKeeps(h: Heap, d: nat, size: nat)
    requires Popping(h, d) && size <= BlockSize(d)
    ensures RoundDown(h.free[d][0]) in h.arenas && Inv(TakeFirst(h, d, size))
  {
    PopIdx(h, d);
    TakeFirstFree(h, d, size);
    TakeFirstCount(h, d, size);
    TakeFirstLive(h, d, size);
  }

  /** malloc() keeps the heap invariant; a block it returns was not live before, is live
      now for the requested size, and every other live block is untouched. */
  lemma AllocKeepsInv(h: Heap, size: nat)
    requires Inv(h)
    ensures var (n, r) := Alloc(h, size);
            && Inv(n)
            && (r.None? ==> n.live == h.live)
            && (r.Some? ==> r.value !in h.live && n.live == h.live[r.value := size])
  {
    var (n, r) := Alloc(h, size);
    if size != 0 {
      var d := DescFor(size);
      if d == DESC_CNT {
        MallocBigKeepsInv(h, size);
        if r.Some? {
          MallocBigFresh(h, size);
        }
      } else if h.free[d] != [] {
        assert InUse(h, {RoundDown(h.free[d][0])});
        TakeFirstKeeps(h, d, size);
        FreeNotLive(h, d);
      } else if Refill(h, d).Some? {
        AllBlocksLinked(h, d);
        RefillPops(h, d);
        TakeFirstKeeps(Refill(h, d).value, d, size);
        FreeNotLive(Refill(h, d).value, d);
      }
    }
  }

  lemma LiveInArenas(h: Heap)
    requires |h.free| == DESC_CNT && LiveInv(h)
    ensures forall b :: b in h.live ==> RoundDown(b) in h.arenas
  {
    forall b | b in h.live ensures RoundDown(b) in h.arenas {
      assert LiveBlock(h, b);
    }
  }

  lemma MallocBigFresh(h: Heap, size: nat)
    requires Inv(h) && MallocBig(h, size).1.Some?
    ensures MallocBig(h, size).1.value !in h.live
  {
    hide P.Inv, P.Get, BigPages, BlockAt, BlocksPerArena, LiveBlock, LiveInv;
    var g := P.Get(h.pages, false, BigPages(size)).1.value;
    var a: nat := g.first * PGSIZE;
    NewGroup(h, BigPages(size));
    RoundDownOffset(a, ARENA_SIZE);
    LiveInArenas(h);
  }

  lemma FreeNotLive(h: Heap, d: nat)
    requires d < DESC_CNT && ArenaInv(h) && FreeInv(h) && LiveInv(h) && h.free[d] != []
    ensures h.free[d][0] !in h.live
  {
    var b := h.free[d][0];
    assert b in h.free[d];
    assert b in h.live ==> LiveBlock(h, b);
  }

  lemma RefillPops(h: Heap, d: nat)
    requires Inv(h) && d < DESC_CNT && h.free[d] == [] && Refill(h, d).Some?
    ensures Popping(Refill(h, d).value, d)
  {
    var (pages, g) := P.Get(h.pages, false, 1);
    var a: nat := g.value.first * PGSIZE;
    NewGroup(h, 1);
    AddArenaKeeps(h, pages, a, d);
    BlockToArena(a, d, 0);
    assert Refill(h, d).value.free[d][0] == BlockAt(a, d, 0);
  }

  // ----- When malloc() succeeds -----

  /** The smallest block size that is enough for the request. */
  ghost predicate BestFit(d: nat, size: nat) {
    d < DESC_CNT && size <= BlockSize(d) && forall e :: 0 <= e < d ==> BlockSize(e) < size
  }

  /** Some page of the kernel pool is not in use; a run of `cnt` pages is not. */
  ghost predicate PageFree(p: P.State) {
    exists i :: 0 <= i < |p.kernel.used| && !p.kernel.used[i]
  }

  ghost predicate RunFree(p: P.State, cnt: nat) {
    exists i: nat :: B.AllAre(p.kernel.used, i, cnt, false)
  }

  lemma OnePage(p: P.State)
    ensures RunFree(p, 1) <==> PageFree(p)
  {
    if PageFree(p) {
      var i :| 0 <= i < |p.kernel.used| && !p.kernel.used[i];
      assert B.AllAre(p.kernel.used, i, 1, false);
    }
    if RunFree(p, 1) {
      var i: nat :| B.AllAre(p.kernel.used, i, 1, false);
      assert !p.kernel.used[i];
    }
  }

  lemma GetsPages(p: P.State, cnt: nat)
    requires P.Inv(p) && cnt > 0
    ensures P.Get(p, false, cnt).1.Some? <==> RunFree(p, cnt)
  {
    P.GetKeepsInv(p, false, cnt);
  }

  /** malloc() of up to 1024 bytes succeeds exactly when a block of the smallest sufficient size
      is on its free list or a page of the kernel pool is free, and it returns a block of that
      size. */
  lemma SmallSucceedsIff(h: Heap, size: nat, d: nat)
    requires Inv(h) && 0 < size && BestFit(d, size)
    ensures Alloc(h, size).1.Some? <==> h.free[d] != [] || PageFree(h.pages)
    ensures Alloc(h, size).1.Some? ==>
              var (n, r) := Alloc(h, size);
              Small(n, RoundDown(r.value), d) && IsBlock(RoundDown(r.value), d, r.value)
    ensures h.free[d] != [] ==> Alloc(h, size).0.pages == h.pages && Alloc(h, size).1 == Some(h.free[d][0])
  {
    hide P.Inv, P.Get, BlockAt, BlocksPerArena, PageFree, RunFree, IsBlock;
    DescIsBest(size, d);
    if h.free[d] == [] {
      OnePage(h.pages);
      GetsPages(h.pages, 1);
      if Refill(h, d).Some? {
        RefillPops(h, d);
        AllBlocksLinked(h, d);
        FirstIsBlock(Refill(h, d).value, d);
      }
    } else {
      FirstIsBlock(h, d);
    }
  }

  lemma DescIsBest(size: nat, d: nat)
    requires BestFit(d, size)
    ensures DescFor(size) == d
  {
    hide BlockSize;
    var e := DescFor(size);
  }

  lemma FirstIsBlock(h: Heap, d: nat)
    requires d < DESC_CNT && ArenaInv(h) && FreeInv(h) && h.free[d] != []
    ensures Small(h, RoundDown(h.free[d][0]), d) && IsBlock(RoundDown(h.free[d][0]), d, h.free[d][0])
  {
    assert h.free[d][0] in h.free[d];
  }

  /** malloc() of more succeeds exactly when enough pages in a row are free for the request and
      the arena header. */
  lemma BigSucceedsIff(h: Heap, size: nat)
    requires Inv(h) && size > 1024
    ensures Alloc(h, size).1.Some? <==> RunFree(h.pages, (size + ARENA_SIZE + PGSIZE - 1) / PGSIZE)
  {
    hide P.Inv, P.Get, RunFree;
    assert DescFor(size) == DESC_CNT;
    GetsPages(h.pages, BigPages(size));
  }

  /** malloc(0) returns null. */
  lemma NothingAllocated(h: Heap)
    requires Inv(h)
    ensures Alloc(h, 0) == (h, None)
  {
  }

  // ----- free() -----

  /** Putting block `b` of arena `a` in front of its free list. */
  function PutBack(h: Heap, a: nat, d: nat, b: nat): Heap
    requires d < DESC_CNT == |h.free| && a in h.arenas
  {
    h.(arenas := h.arenas[a := h.arenas[a].(freeCnt := h.arenas[a].freeCnt + 1)],
       free := h.free[d := [b] + h.free[d]],
       live := h.live - {b})
  }

  /** Unlinking every block of arena `a` and returning its page. */
  function DropArena(h: Heap, a: nat, d: nat): Heap
    requires d < DESC_CNT == |h.free| && a in h.arenas
    requires P.Within(h.pages.kernel, GroupOf(a, h.arenas[a])) || P.Within(h.pages.user, GroupOf(a, h.arenas[a]))
  {
    h.(pages := P.Free(h.pages, GroupOf(a, h.arenas[a])),
       arenas := h.arenas - {a},
       free := h.free[d := Filter(h.free[d], b => RoundDown(b) != a)])
  }

  function FreeBig(h: Heap, a: nat, b: nat): Heap
    requires a in h.arenas
    requires P.Within(h.pages.kernel, GroupOf(a, h.arenas[a])) || P.Within(h.pages.user, GroupOf(a, h.arenas[a]))
  {
    h.(pages := P.Free(h.pages, GroupOf(a, h.arenas[a])), arenas := h.arenas - {a}, live := h.live - {b})
  }

  lemma ArenaPlaced(h: Heap, a: nat)
    requires ArenaInv(h) && a in h.arenas
    ensures P.Within(h.pages.kernel, GroupOf(a, h.arenas[a])) || P.Within(h.pages.user, GroupOf(a, h.arenas[a]))
  {
    assert GroupOf(a, h.arenas[a]) in h.pages.live;
  }

  ghost function Dealloc(h: Heap, b: nat): Heap
    requires Inv(h) && b in h.live
  {
    assert LiveBlock(h, b);
    var a := RoundDown(b);
    ArenaPlaced(h, a);
    match h.arenas[a].desc
    case None => FreeBig(h, a, b)
    case Some(d) =>
      var n := PutBack(h, a, d, b);
      if n.arenas[a].freeCnt >= BlocksPerArena(d) then DropArena(n, a, d) else n
  }

  /** The state in which free() tests whether the arena of `b` is unused. */
  lemma PutBackKeeps(h: Heap, a: nat, d: nat, b: nat)
    requires Inv(h) && b in h.live && a == RoundDown(b) && Small(h, a, d) && d < DESC_CNT
    requires IsBlock(a, d, b) && b !in h.free[d]
    ensures var n := PutBack(h, a, d, b);
            ArenaInv(n) && FreeInv(n) && CountInv(n) && LiveInv(n) && InUse(n, {a})
            && n.arenas[a].freeCnt <= BlocksPerArena(d)
  {
    hide FreeInv, LiveInv, FreeIdx, BlocksPerArena, P.Inv, RoundDown;
    var n := PutBack(h, a, d, b);
    assert forall x: nat, e: nat :: Small(n, x, e) <==> Small(h, x, e);
    PutBackFree(h, a, d, b);
    PutBackCount(h, a, d, b);
    FreeIdxBound(a, d, n.free[d]);
    PutBackLive(h, a, d, b);
  }

  lemma PutBackFree(h: Heap, a: nat, d: nat, b: nat)
    requires |h.free| == DESC_CNT && FreeInv(h) && a == RoundDown(b) && d < DESC_CNT && Small(h, a, d)
    requires IsBlock(a, d, b) && b !in h.free[d]
    ensures FreeInv(PutBack(h, a, d, b))
  {
    var n := PutBack(h, a, d, b);
    assert forall x: nat, e: nat :: Small(n, x, e) <==> Small(h, x, e);
    NoDupAppend([b], h.free[d]);
  }

  lemma PutBackCount(h: Heap, a: nat, d: nat, b: nat)
    requires ArenaInv(h) && CountInv(h) && a == RoundDown(b) && d < DESC_CNT && Small(h, a, d)
    requires IsBlock(a, d, b) && b !in h.free[d]
    ensures CountInv(PutBack(h, a, d, b))
  {
    hide FreeIdx, BlocksPerArena, P.Inv, BlockAt;
    var n := PutBack(h, a, d, b);
    OneMoreIdx(a, d, b, h.free[d]);
    forall x: nat, e: nat | e < DESC_CNT && Small(n, x, e)
      ensures n.arenas[x].freeCnt == |FreeIdx(x, e, n.free[e])|
    {
      assert Small(h, x, e);
      if x != a && e == d {
        FreeIdxOther(x, d, h.free[d], [b]);
      }
    }
  }

  lemma PutBackLive(h: Heap, a: nat, d: nat, b: nat)
    requires Inv(h) && b in h.live && a == RoundDown(b) && Small(h, a, d) && d < DESC_CNT
    ensures LiveInv(PutBack(h, a, d, b))
  {
    var n := PutBack(h, a, d, b);
    forall c | c in n.live ensures LiveBlock(n, c) {
      assert LiveBlock(h, c);
    }
    forall x: nat, e: nat, i: nat | e < DESC_CNT && i < BlocksPerArena(e) && Small(n, x, e)
      ensures BlockAt(x, e, i) in n.free[e] || BlockAt(x, e, i) in n.live
    {
      assert Small(h, x, e);
      assert BlockAt(x, e, i) in h.free[e] || BlockAt(x, e, i) in h.live;
      if BlockAt(x, e, i) == b {
        assert LiveBlock(h, b);
        BlockToArena(x, e, i);
      }
    }
  }

  /** An arena whose free_cnt has reached the total has all its blocks on the free list,
      hence none in use. */
  lemma UnusedArena(h: Heap, a: nat, d: nat)
    requires ArenaInv(h) && FreeInv(h) && CountInv(h) && LiveInv(h) && d < DESC_CNT && Small(h, a, d)
    requires h.arenas[a].freeCnt == BlocksPerArena(d)
    ensures forall i: nat :: i < BlocksPerArena(d) ==> BlockAt(a, d, i) in h.free[d]
    ensures forall b :: b in h.live ==> RoundDown(b) != a
  {
    hide P.Inv, FreeInv, CountInv, BlockAt, BlocksPerArena, RoundDown, BlockSize;
    AllFree(h, a, d);
    forall b | b in h.live ensures RoundDown(b) != a {
      assert LiveBlock(h, b);
    }
  }

  lemma AllFree(h: Heap, a: nat, d: nat)
    requires ArenaInv(h) && CountInv(h) && d < DESC_CNT && Small(h, a, d)
    requires h.arenas[a].freeCnt == BlocksPerArena(d)
    ensures forall i: nat :: i < BlocksPerArena(d) ==> BlockAt(a, d, i) in h.free[d]
  {
    hide BlockAt, BlocksPerArena, P.Inv, RoundDown;
    FreeIdxBound(a, d, h.free[d]);
    forall i: nat | i < BlocksPerArena(d) ensures BlockAt(a, d, i) in h.free[d] {
      assert i in FreeIdx(a, d, h.free[d]);
    }
  }

  /** Giving a page group back leaves the other arenas' groups alone. */
  lemma OtherArenas(h: Heap, a: nat, x: nat)
    requires ArenaInv(h) && a in h.arenas && x in h.arenas && x != a
    ensures P.Within(h.pages.kernel, GroupOf(a, h.arenas[a])) || P.Within(h.pages.user, GroupOf(a, h.arenas[a]))
    ensures P.Inv(P.Free(h.pages, GroupOf(a, h.arenas[a])))
    ensures GroupOf(x, h.arenas[x]) in P.Free(h.pages, GroupOf(a, h.arenas[a])).live
  {
    ArenaPlaced(h, a);
    P.FreeKeepsInv(h.pages, GroupOf(a, h.arenas[a]));
    assert x / PGSIZE != a / PGSIZE;
  }

  lemma DropArenaInv(h: Heap, a: nat, n: Heap)
    requires ArenaInv(h) && a in h.arenas && |n.free| == DESC_CNT
    requires P.Within(h.pages.kernel, GroupOf(a, h.arenas[a])) || P.Within(h.pages.user, GroupOf(a, h.arenas[a]))
    requires n.pages == P.Free(h.pages, GroupOf(a, h.arenas[a])) && n.arenas == h.arenas - {a}
    ensures ArenaInv(n)
  {
    P.FreeKeepsInv(h.pages, GroupOf(a, h.arenas[a]));
    forall x | x in n.arenas ensures GroupOf(x, n.arenas[x]) in n.pages.live {
      OtherArenas(h, a, x);
    }
  }

  lemma DropArenaKeeps(h: Heap, a: nat, d: nat)
    requires ArenaInv(h) && FreeInv(h) && CountInv(h) && LiveInv(h) && InUse(h, {a}) && d < DESC_CNT && Small(h, a, d)
    requires h.arenas[a].freeCnt == BlocksPerArena(d)
    ensures P.Within(h.pages.kernel, GroupOf(a, h.arenas[a])) || P.Within(h.pages.user, GroupOf(a, h.arenas[a]))
    ensures Inv(DropArena(h, a, d))
  {
    hide P.Inv, P.Free, BlockAt, BlocksPerArena, LiveBlock, LiveInv;
    ArenaPlaced(h, a);
    var n := DropArena(h, a, d);
    var keep := b => RoundDown(b) != a;
    FilterElements(h.free[d], keep);
    DropArenaInv(h, a, n);
    UnusedArena(h, a, d);
    assert forall x: nat, e: nat :: Small(n, x, e) <==> Small(h, x, e) && x != a;
    DropArenaFree(h, n, a, d);
    DropArenaCount(h, n, a, d);
    DropArenaLive(h, n, a, d);
  }

  lemma DropArenaFree(h: Heap, n: Heap, a: nat, d: nat)
    requires |h.free| == DESC_CNT && FreeInv(h) && d < DESC_CNT && Small(h, a, d)
    requires |n.free| == DESC_CNT && n == h.(pages := n.pages, arenas := h.arenas - {a}, free := h.free[d := n.free[d]])
    requires NoDup(n.free[d]) && forall b :: b in n.free[d] <==> b in h.free[d] && RoundDown(b) != a
    ensures FreeInv(n)
  {
    assert forall x: nat, e: nat :: Small(n, x, e) <==> Small(h, x, e) && x != a;
  }

  lemma DropArenaCount(h: Heap, n: Heap, a: nat, d: nat)
    requires ArenaInv(h) && CountInv(h) && InUse(h, {a}) && d < DESC_CNT && Small(h, a, d)
    requires |n.free| == DESC_CNT && n == h.(pages := n.pages, arenas := h.arenas - {a}, free := h.free[d := n.free[d]])
    requires forall b :: b in n.free[d] <==> b in h.free[d] && RoundDown(b) != a
    ensures CountInv(n) && InUse(n, {})
  {
    forall x: nat, e: nat | e < DESC_CNT && Small(n, x, e)
      ensures n.arenas[x].freeCnt == |FreeIdx(x, e, n.free[e])| && n.arenas[x].freeCnt < BlocksPerArena(e)
    {
      assert Small(h, x, e) && x != a;
      if e == d {
        forall i: nat | i < BlocksPerArena(d) ensures BlockAt(x, d, i) in n.free[d] <==> BlockAt(x, d, i) in h.free[d] {
          BlockToArena(x, d, i);
        }
        assert FreeIdx(x, d, n.free[d]) == FreeIdx(x, d, h.free[d]);
      }
    }
  }

  lemma DropArenaLive(h: Heap, n: Heap, a: nat, d: nat)
    requires ArenaInv(h) && LiveInv(h) && d < DESC_CNT && Small(h, a, d)
    requires |n.free| == DESC_CNT && n == h.(pages := n.pages, arenas := h.arenas - {a}, free := h.free[d := n.free[d]])
    requires forall b :: b in n.free[d] <==> b in h.free[d] && RoundDown(b) != a
    requires forall b :: b in h.live ==> RoundDown(b) != a
    ensures LiveInv(n)
  {
    forall c | c in n.live ensures LiveBlock(n, c) {
      assert LiveBlock(h, c);
    }
    forall x: nat, e: nat, i: nat | e < DESC_CNT && i < BlocksPerArena(e) && Small(n, x, e)
      ensures BlockAt(x, e, i) in n.free[e] || BlockAt(x, e, i) in n.live
    {
      assert Small(h, x, e) && x != a;
      assert BlockAt(x, e, i) in h.free[e] || BlockAt(x, e, i) in h.live;
      BlockToArena(x, e, i);
    }
  }

  lemma FreeBigKeeps(h: Heap, a: nat, b: nat)
    requires Inv(h) && b in h.live && a == RoundDown(b) && a in h.arenas && h.arenas[a].desc.None?
    ensures P.Within(h.pages.kernel, GroupOf(a, h.arenas[a])) || P.Within(h.pages.user, GroupOf(a, h.arenas[a]))
    ensures Inv(FreeBig(h, a, b))
  {
    hide P.Inv, P.Free, BlockAt, BlocksPerArena, LiveBlock, LiveInv;
    ArenaPlaced(h, a);
    var n := FreeBig(h, a, b);
    DropArenaInv(h, a, n);
    assert forall x: nat, e: nat :: Small(n, x, e) <==> Small(h, x, e);
    FreeBigLive(h, n, a, b);
  }

  lemma FreeBigLive(h: Heap, n: Heap, a: nat, b: nat)
    requires ArenaInv(h) && |n.free| == DESC_CNT && LiveInv(h)
    requires b in h.live && a == RoundDown(b) && a in h.arenas && h.arenas[a].desc.None?
    requires n == h.(pages := n.pages, arenas := h.arenas - {a}, live := h.live - {b})
    ensures LiveInv(n)
  {
    hide P.Inv, BlockSize, BlockAt, BlocksPerArena, IsBlock;
    assert LiveBlock(h, b);
    assert b == a + ARENA_SIZE;
    forall c | c in n.live ensures LiveBlock(n, c) {
      assert LiveBlock(h, c);
    }
    forall x: nat, e: nat, i: nat | e < DESC_CNT && i < BlocksPerArena(e) && Small(n, x, e)
      ensures BlockAt(x, e, i) in n.free[e] || BlockAt(x, e, i) in n.live
    {
      BlockToArena(x, e, i);
      assert BlockAt(x, e, i) in h.free[e] || BlockAt(x, e, i) in h.live;
    }
  }

  /** free() keeps the heap invariant and ends exactly the block it is given. When the
      arena's last block comes back, the ASSERT on free_cnt holds, and no block of the
      returned page stays on any free list. */
  lemma DeallocKeepsInv(h: Heap, b: nat)
    requires Inv(h) && b in h.live
    ensures Inv(Dealloc(h, b))
    ensures Dealloc(h, b).live == h.live - {b}
    ensures RoundDown(b) !in Dealloc(h, b).arenas ==>
              forall d, c :: 0 <= d < DESC_CNT && c in Dealloc(h, b).free[d] ==> RoundDown(c) != RoundDown(b)
  {
    assert LiveBlock(h, b);
    var a: nat := RoundDown(b);
    match h.arenas[a].desc
    case None => FreeBigKeeps(h, a, b);
    case Some(d) =>
      PutBackKeeps(h, a, d, b);
      var n := PutBack(h, a, d, b);
      if n.arenas[a].freeCnt >= BlocksPerArena(d) {
        DropArenaKeeps(n, a, d);
      }
  }

  // ----- Pages -----

  /** The page groups of the arenas, and those that other clients hold. */
  ghost function ArenaGroups(h: Heap): set<P.Group> {
    set a | a in h.arenas :: GroupOf(a, h.arenas[a])
  }

  ghost function OtherGroups(h: Heap): set<P.Group> {
    h.pages.live - ArenaGroups(h)
  }

  /** The heap changed, and so did the groups in use, by one arena. */
  lemma ArenaAdded(h: Heap, n: Heap, a: nat, g: P.Group)
    requires ArenaInv(h) && a !in h.arenas && g !in h.pages.live && n.pages.live == h.pages.live + {g}
    requires n.arenas.Keys == h.arenas.Keys + {a} && GroupOf(a, n.arenas[a]) == g
    requires forall x :: x in h.arenas ==> GroupOf(x, n.arenas[x]) == GroupOf(x, h.arenas[x])
    ensures OtherGroups(n) == OtherGroups(h)
  {
    hide P.Inv, GroupOf;
    assert ArenaGroups(n) == ArenaGroups(h) + {g} by {
      forall k | k in ArenaGroups(h) ensures k in ArenaGroups(n) {
        var x :| x in h.arenas && k == GroupOf(x, h.arenas[x]);
        assert x in n.arenas && k == GroupOf(x, n.arenas[x]);
      }
      assert a in n.arenas;
    }
  }

  lemma SameGroups(h: Heap, n: Heap)
    requires n.pages.live == h.pages.live && n.arenas.Keys == h.arenas.Keys
    requires forall x :: x in h.arenas ==> GroupOf(x, n.arenas[x]) == GroupOf(x, h.arenas[x])
    ensures OtherGroups(n) == OtherGroups(h)
  {
    hide GroupOf;
    assert ArenaGroups(n) == ArenaGroups(h) by {
      forall k | k in ArenaGroups(h) ensures k in ArenaGroups(n) {
        var x :| x in h.arenas && k == GroupOf(x, h.arenas[x]);
        assert x in n.arenas && k == GroupOf(x, n.arenas[x]);
      }
    }
  }

  /** malloc() takes pages for its arenas alone. */
  lemma AllocKeepsOthers(h: Heap, size: nat)
    requires Inv(h)
    ensures OtherGroups(Alloc(h, size).0) == OtherGroups(h)
  {
    hide P.Inv, P.Get, BigPages, BlockAt, BlocksPerArena, OtherGroups, LiveInv, FreeInv, CountInv, InUse;
    if size != 0 {
      var d := DescFor(size);
      if d == DESC_CNT {
        BigTakes(h, size);
      } else if h.free[d] != [] {
        FreeArena(h, d);
        SameGroups(h, TakeFirst(h, d, size));
      } else if Refill(h, d).Some? {
        RefillTakes(h, d);
        AllBlocksLinked(h, d);
        RefillPops(h, d);
        PopKeepsOthers(Refill(h, d).value, d, size);
      }
    }
  }

  lemma PopKeepsOthers(h: Heap, d: nat, size: nat)
    requires d < DESC_CNT && ArenaInv(h) && FreeInv(h) && h.free[d] != []
    ensures RoundDown(h.free[d][0]) in h.arenas
    ensures OtherGroups(TakeFirst(h, d, size)) == OtherGroups(h)
  {
    hide P.Inv, BlockAt, BlocksPerArena, OtherGroups;
    FreeArena(h, d);
    SameGroups(h, TakeFirst(h, d, size));
  }

  lemma FreeArena(h: Heap, d: nat)
    requires d < DESC_CNT && ArenaInv(h) && FreeInv(h) && h.free[d] != []
    ensures Small(h, RoundDown(h.free[d][0]), d)
  {
    FirstIsBlock(h, d);
  }

  lemma BigTakes(h: Heap, size: nat)
    requires Inv(h) && size > 0
    ensures OtherGroups(MallocBig(h, size).0) == OtherGroups(h)
  {
    hide P.Inv, P.Get, BigPages, OtherGroups, LiveInv, FreeInv, CountInv, InUse;
    if MallocBig(h, size).1.Some? {
      var g := P.Get(h.pages, false, BigPages(size)).1.value;
      NewGroup(h, BigPages(size));
      GroupIsNew(h.pages, BigPages(size));
      ArenaAdded(h, MallocBig(h, size).0, g.first * PGSIZE, g);
    }
  }

  lemma RefillTakes(h: Heap, d: nat)
    requires Inv(h) && d < DESC_CNT && Refill(h, d).Some?
    ensures OtherGroups(Refill(h, d).value) == OtherGroups(h)
  {
    hide P.Inv, P.Get, OtherGroups, LiveInv, FreeInv, CountInv, InUse, AllBlocks;
    var g := P.Get(h.pages, false, 1).1.value;
    NewGroup(h, 1);
    GroupIsNew(h.pages, 1);
    ArenaAdded(h, Refill(h, d).value, g.first * PGSIZE, g);
  }

  lemma GroupIsNew(p: P.State, cnt: nat)
    requires P.Inv(p) && cnt > 0 && P.Get(p, false, cnt).1.Some?
    ensures P.Get(p, false, cnt).1.value !in p.live
  {
    P.GetKeepsInv(p, false, cnt);
    var g := P.Get(p, false, cnt).1.value;
    assert P.Covers(g, g.first);
    assert g in p.live ==> P.Overlap(g, g);
  }

  /** free() gives back pages of its arenas alone, and all of them in the end: with no block in
      use there is no arena. */
  lemma DeallocKeepsOthers(h: Heap, b: nat)
    requires Inv(h) && b in h.live
    ensures OtherGroups(Dealloc(h, b)) == OtherGroups(h)
  {
    hide P.Inv, P.Free, P.Within, BlockAt, BlocksPerArena, OtherGroups, FreeInv, CountInv, InUse;
    assert LiveBlock(h, b);
    var a: nat := RoundDown(b);
    ArenaPlaced(h, a);
    match h.arenas[a].desc
    case None => ArenaDropped(h, Dealloc(h, b), a);
    case Some(d) =>
      var n := PutBack(h, a, d, b);
      SameGroups(h, n);
      PutBackArenas(h, n, a);
      if n.arenas[a].freeCnt >= BlocksPerArena(d) {
        ArenaDropped(n, Dealloc(h, b), a);
      }
  }

  lemma PutBackArenas(h: Heap, n: Heap, a: nat)
    requires ArenaInv(h) && n.pages == h.pages && |n.free| == DESC_CNT && a in h.arenas && h.arenas[a].desc.Some?
    requires n.arenas == h.arenas[a := h.arenas[a].(freeCnt := h.arenas[a].freeCnt + 1)]
    ensures ArenaInv(n)
  {
    hide P.Inv;
  }

  lemma ArenaDropped(h: Heap, n: Heap, a: nat)
    requires ArenaInv(h) && a in h.arenas && n.arenas == h.arenas - {a}
    requires P.Within(h.pages.kernel, GroupOf(a, h.arenas[a])) || P.Within(h.pages.user, GroupOf(a, h.arenas[a]))
    requires n.pages == P.Free(h.pages, GroupOf(a, h.arenas[a]))
    ensures OtherGroups(n) == OtherGroups(h)
  {
    P.FreeKeepsInv(h.pages, GroupOf(a, h.arenas[a]));
    hide P.Inv, P.Free, P.Within;
    var g := GroupOf(a, h.arenas[a]);
    forall x | x in n.arenas ensures GroupOf(x, n.arenas[x]) != g {
      assert x / PGSIZE != a / PGSIZE;
    }
    assert ArenaGroups(h) == ArenaGroups(n) + {g} by {
      forall k | k in ArenaGroups(h) && k != g ensures k in ArenaGroups(n) {
        var x :| x in h.arenas && k == GroupOf(x, h.arenas[x]);
        assert x in n.arenas && k == GroupOf(x, n.arenas[x]);
      }
      forall k | k in ArenaGroups(n) ensures k in ArenaGroups(h) {
        var x :| x in n.arenas && k == GroupOf(x, n.arenas[x]);
        assert x in h.arenas && k == GroupOf(x, h.arenas[x]);
      }
    }
  }

  // ----- Nothing is lost -----

  /** A big arena holds a block in use. */
  ghost predicate BigInUse(h: Heap) {
    forall a :: a in h.arenas && h.arenas[a].desc.None? ==> a + ARENA_SIZE in h.live
  }

  lemma AllocKeepsBig(h: Heap, size: nat)
    requires Inv(h) && BigInUse(h)
    ensures BigInUse(Alloc(h, size).0)
  {
    hide P.Inv, P.Get, BigPages, BlockAt, BlocksPerArena, CountInv, InUse, LiveInv, AllBlocks;
    if size != 0 {
      var d := DescFor(size);
      if d < DESC_CNT && h.free[d] != [] {
        FirstIsBlock(h, d);
      } else if d < DESC_CNT && Refill(h, d).Some? {
        RefillPops(h, d);
        FirstIsBlock(Refill(h, d).value, d);
      }
    }
  }

  lemma DeallocKeepsBig(h: Heap, b: nat)
    requires Inv(h) && b in h.live && BigInUse(h)
    ensures BigInUse(Dealloc(h, b))
  {
    hide Inv, Dealloc;
    DeallocShape(h, b);
    var n := Dealloc(h, b);
    forall x | x in n.arenas && n.arenas[x].desc.None? ensures x + ARENA_SIZE in n.live {
      ArenaAligned(h, x);
      RoundDownOffset(x, ARENA_SIZE);
    }
  }

  lemma ArenaAligned(h: Heap, a: nat)
    requires Inv(h) && a in h.arenas
    ensures a % PGSIZE == 0
  {
    hide P.Inv, FreeInv, CountInv, LiveInv, InUse;
  }

  /** free() makes no arena and keeps the kind of those that stay; a big one goes with its block. */
  lemma DeallocShape(h: Heap, b: nat)
    requires Inv(h) && b in h.live
    ensures var n := Dealloc(h, b);
            && n.live == h.live - {b} && RoundDown(b) in h.arenas
            && (forall x :: x in n.arenas ==> x in h.arenas && n.arenas[x].desc == h.arenas[x].desc)
            && (h.arenas[RoundDown(b)].desc.None? ==> RoundDown(b) !in n.arenas)
  {
    hide P.Inv, P.Free, P.Within, BlockAt, BlocksPerArena, FreeInv, CountInv, InUse, IsBlock, BlockSize;
    assert LiveBlock(h, b);
  }

  /** With no block in use there is no arena. */
  lemma NoArenas(h: Heap)
    requires Inv(h) && BigInUse(h) && h.live == map[]
    ensures h.arenas == map[]
  {
    hide Inv;
    if h.arenas != map[] {
      var a :| a in h.arenas;
      if h.arenas[a].desc.Some? {
        SmallHasBlock(h, a, h.arenas[a].desc.value);
      }
    }
  }

  /** A small arena holds a block in use. */
  lemma SmallHasBlock(h: Heap, a: nat, d: nat)
    requires Inv(h) && Small(h, a, d)
    ensures h.live != map[]
  {
    hide P.Inv, BlockAt, BlocksPerArena, FreeInv, FreeIdx, LiveBlock;
    DescInRange(h, a, d);
    if forall i: nat :: i < BlocksPerArena(d) ==> i in FreeIdx(a, d, h.free[d]) {
      AllIndices(a, d, h.free[d]);
    } else {
      var i: nat :| i < BlocksPerArena(d) && i !in FreeIdx(a, d, h.free[d]);
      NotFree(a, d, h.free[d], i);
      assert BlockAt(a, d, i) in h.live;
    }
  }

  lemma DescInRange(h: Heap, a: nat, d: nat)
    requires Inv(h) && Small(h, a, d)
    ensures d < DESC_CNT
  {
    hide P.Inv, FreeInv, CountInv, LiveInv, InUse;
  }

  lemma NotFree(a: nat, d: nat, list: seq<nat>, i: nat)
    requires d < DESC_CNT && i < BlocksPerArena(d) && i !in FreeIdx(a, d, list)
    ensures BlockAt(a, d, i) !in list
  {
    hide BlocksPerArena, BlockAt;
  }

  lemma AllIndices(a: nat, d: nat, list: seq<nat>)
    requires d < DESC_CNT && forall i: nat :: i < BlocksPerArena(d) ==> i in FreeIdx(a, d, list)
    ensures |FreeIdx(a, d, list)| == BlocksPerArena(d)
  {
    hide BlocksPerArena, BlockAt;
    assert FreeIdx(a, d, list) == Indices(BlocksPerArena(d));
  }

  // ----- Runs -----

  /** Besides malloc() and free(), other clients use the page allocator. */
  datatype Op = MallocOp(size: nat) | FreeOp(b: nat) | PageGet(user: bool, cnt: nat) | PageFree(g: P.Group)

  ghost predicate Legal(h: Heap, op: Op) {
    match op
    case FreeOp(b) => b in h.live
    case PageFree(g) => g in h.pages.live && forall a :: a in h.arenas ==> g != GroupOf(a, h.arenas[a])
    case _ => true
  }

  ghost function Step(h: Heap, op: Op): Heap
    requires Inv(h) && Legal(h, op)
  {
    match op
    case MallocOp(size) => Alloc(h, size).0
    case FreeOp(b) => Dealloc(h, b)
    case PageGet(user, cnt) => h.(pages := P.Get(h.pages, user, cnt).0)
    case PageFree(g) => h.(pages := P.Free(h.pages, g))
  }

  lemma PagesChangeKeeps(h: Heap, pages: P.State)
    requires Inv(h) && P.Inv(pages)
    requires forall a :: a in h.arenas ==> GroupOf(a, h.arenas[a]) in pages.live
    ensures Inv(h.(pages := pages))
  {
    var n := h.(pages := pages);
    assert forall x: nat, e: nat :: Small(n, x, e) <==> Small(h, x, e);
    forall c | c in n.live ensures LiveBlock(n, c) {
      assert LiveBlock(h, c);
    }
    forall x: nat, e: nat, i: nat | e < DESC_CNT && i < BlocksPerArena(e) && Small(n, x, e)
      ensures BlockAt(x, e, i) in n.free[e] || BlockAt(x, e, i) in n.live
    {
      assert BlockAt(x, e, i) in h.free[e] || BlockAt(x, e, i) in h.live;
    }
  }

  lemma StepKeepsInv(h: Heap, op: Op)
    requires Inv(h) && Legal(h, op)
    ensures Inv(Step(h, op))
  {
    match op
    case MallocOp(size) => AllocKeepsInv(h, size);
    case FreeOp(b) => DeallocKeepsInv(h, b);
    case PageGet(user, cnt) =>
      P.GetKeepsInv(h.pages, user, cnt);
      PagesChangeKeeps(h, P.Get(h.pages, user, cnt).0);
    case PageFree(g) =>
      P.FreeKeepsInv(h.pages, g);
      PagesChangeKeeps(h, P.Free(h.pages, g));
  }

  /** malloc_init() over an initialized page allocator. */
  function Initial(pages: P.State): Heap {
    Heap(pages, map[], seq(DESC_CNT, i => []), map[])
  }

  ghost predicate IsRun(heaps: seq<Heap>, ops: seq<Op>) {
    && |heaps| == |ops| + 1
    && P.Inv(heaps[0].pages) && heaps[0] == Initial(heaps[0].pages)
    && (forall i :: 0 <= i < |ops| ==> Inv(heaps[i]) && Legal(heaps[i], ops[i]) ==>
        heaps[i + 1] == Step(heaps[i], ops[i]))
    && (forall i :: 0 <= i < |ops| ==> Legal(heaps[i], ops[i]))
  }

  /** In every run of malloc(), free() and other page traffic the heap invariant holds. */
  lemma {:induction false} HeapInvAlways(heaps: seq<Heap>, ops: seq<Op>, i: nat)
    requires IsRun(heaps, ops) && i < |heaps|
    ensures Inv(heaps[i])
  {
    if i > 0 {
      HeapInvAlways(heaps, ops, i - 1);
      StepKeepsInv(heaps[i - 1], ops[i - 1]);
    }
  }

  /** Hence in every run two blocks in use share no byte. */
  lemma BlocksInUseNeverOverlap(heaps: seq<Heap>, ops: seq<Op>, i: nat, b: nat, c: nat, x: nat)
    requires IsRun(heaps, ops) && i < |heaps| && b in heaps[i].live && c in heaps[i].live
    requires b <= x < b + heaps[i].live[b] && c <= x < c + heaps[i].live[c]
    ensures b == c
  {
    HeapInvAlways(heaps, ops, i);
    LiveBlocksDisjoint(heaps[i], b, c, x);
  }

  lemma {:induction false} BigInUseAlways(heaps: seq<Heap>, ops: seq<Op>, i: nat)
    requires IsRun(heaps, ops) && i < |heaps|
    ensures Inv(heaps[i]) && BigInUse(heaps[i])
  {
    hide Inv, Step, Alloc, Dealloc, Legal;
    HeapInvAlways(heaps, ops, i);
    if i > 0 {
      BigInUseAlways(heaps, ops, i - 1);
      StepKeepsBig(heaps[i - 1], ops[i - 1]);
    }
  }

  lemma StepKeepsBig(h: Heap, op: Op)
    requires Inv(h) && Legal(h, op) && BigInUse(h)
    ensures BigInUse(Step(h, op))
  {
    hide Inv, Alloc, Dealloc, P.Get, P.Free;
    match op
    case MallocOp(size) => AllocKeepsBig(h, size);
    case FreeOp(b) => DeallocKeepsBig(h, b);
    case _ =>
  }

  /** Nothing is lost: in every run, once no block is in use, the page groups in use are those
      that other clients hold. */
  lemma NothingLost(heaps: seq<Heap>, ops: seq<Op>, i: nat)
    requires IsRun(heaps, ops) && i < |heaps| && heaps[i].live == map[]
    ensures heaps[i].arenas == map[] && heaps[i].pages.live == OtherGroups(heaps[i])
  {
    hide Inv, IsRun;
    BigInUseAlways(heaps, ops, i);
    NoArenas(heaps[i]);
  }
}
