/** lib/stdlib.c: heap sort and binary search.  Heap positions are 1-based, as in the source;
    an element is a value instead of `size` bytes. */
module Sort {

  import opened Lists

  /** A strcmp()-style comparison that orders its arguments. */
  ghost predicate TotalPreorder<T(!new)>(cmp: (T, T) -> int) {
    && (forall x, y :: cmp(x, y) > 0 <==> cmp(y, x) < 0)
    && (forall x, y, z :: cmp(x, y) <= 0 && cmp(y, z) <= 0 ==> cmp(x, z) <= 0)
  }

  lemma Trans<T(!new)>(cmp: (T, T) -> int, x: T, y: T, z: T)
    requires TotalPreorder(cmp) && cmp(x, y) <= 0 && cmp(y, z) <= 0
    ensures cmp(x, z) <= 0
  {
  }

  /** Turning a comparison round. */
  lemma Flip<T(!new)>(cmp: (T, T) -> int, x: T, y: T)
    requires TotalPreorder(cmp)
    ensures cmp(x, y) > 0 <==> cmp(y, x) < 0
    ensures cmp(x, y) >= 0 <==> cmp(y, x) <= 0
  {
  }

  ghost predicate Sorted<T>(s: seq<T>, cmp: (T, T) -> int) {
    forall i, j :: 0 <= i < j < |s| ==> cmp(s[i], s[j]) <= 0
  }

  /** The heap property for every position whose parent is at `lo` or later. */
  ghost predicate HeapFrom<T>(s: seq<T>, cmp: (T, T) -> int, lo: nat, cnt: nat) {
    cnt <= |s| && forall k: nat :: 2 <= k <= cnt && lo <= k / 2 ==> cmp(s[k / 2 - 1], s[k - 1]) >= 0
  }

  /** The same, except below position `i`, whose children are no larger than its parent. */
  ghost predicate HeapExcept<T>(s: seq<T>, cmp: (T, T) -> int, lo: nat, cnt: nat, i: nat) {
    && cnt <= |s|
    && (forall k: nat :: 2 <= k <= cnt && lo <= k / 2 && k / 2 != i ==> cmp(s[k / 2 - 1], s[k - 1]) >= 0)
    && (forall k: nat :: 2 <= k <= cnt && k / 2 == i && i >= 2 && lo <= i / 2 ==> cmp(s[i / 2 - 1], s[k - 1]) >= 0)
  }

  /** t is s with its first cnt elements permuted. */
  ghost predicate Permutes<T>(s: seq<T>, t: seq<T>, cnt: nat) {
    cnt <= |s| == |t| && multiset(s[..cnt]) == multiset(t[..cnt]) && s[cnt..] == t[cnt..]
  }

  function Swapped<T>(s: seq<T>, i: nat, j: nat): (r: seq<T>)
    requires i < |s| && j < |s|
  {
    s[i := s[j]][j := s[i]]
  }

  lemma SwapPermutes<T>(s: seq<T>, i: nat, j: nat, cnt: nat)
    requires i < cnt <= |s| && j < cnt
    ensures Permutes(s, Swapped(s, i, j), cnt)
  {
    var p, q := s[..cnt], Swapped(s, i, j)[..cnt];
    assert q == p[i := p[j]][j := p[i]];
  }

  lemma PermutesTrans<T>(s: seq<T>, t: seq<T>, u: seq<T>, cnt: nat)
    requires Permutes(s, t, cnt) && Permutes(t, u, cnt)
    ensures Permutes(s, u, cnt)
  {
  }

  /** Permuting a prefix permutes every longer prefix. */
  lemma PermutesMore<T>(s: seq<T>, t: seq<T>, cnt: nat, more: nat)
    requires Permutes(s, t, cnt) && cnt <= more <= |s|
    ensures Permutes(s, t, more)
  {
    assert s[..more] == s[..cnt] + s[cnt..][..more - cnt];
    assert t[..more] == t[..cnt] + t[cnt..][..more - cnt];
    assert s[more..] == s[cnt..][more - cnt..];
    assert t[more..] == t[cnt..][more - cnt..];
  }

  lemma PermutesElement<T>(s: seq<T>, t: seq<T>, cnt: nat, k: nat) returns (j: nat)
    requires Permutes(s, t, cnt) && k < cnt
    ensures j < cnt && s[j] == t[k]
  {
    assert t[..cnt][k] in multiset(t[..cnt]);
    assert t[k] in multiset(s[..cnt]);
    assert t[k] in s[..cnt];
    j :| 0 <= j < cnt && s[..cnt][j] == t[k];
  }

  // ----- Floating an element down -----

  /** The largest of position i and its children. */
  ghost predicate IsLargest<T>(s: seq<T>, cmp: (T, T) -> int, cnt: nat, i: nat, m: nat) {
    && 1 <= i <= cnt <= |s| && 1 <= m <= cnt && (m == i || m / 2 == i)
    && (m != i ==> cmp(s[m - 1], s[i - 1]) > 0)
    && (forall k: nat :: 2 <= k <= cnt && k / 2 == i ==> cmp(s[m - 1], s[k - 1]) >= 0)
  }

  lemma SiftStep<T(!new)>(s: seq<T>, cmp: (T, T) -> int, lo: nat, cnt: nat, i: nat, m: nat)
    requires TotalPreorder(cmp) && 1 <= lo <= i && HeapExcept(s, cmp, lo, cnt, i) && IsLargest(s, cmp, cnt, i, m)
             && m != i
    ensures HeapExcept(Swapped(s, i - 1, m - 1), cmp, lo, cnt, m)
    ensures Permutes(s, Swapped(s, i - 1, m - 1), cnt)
  {
    hide TotalPreorder, Permutes;
    SwapPermutes(s, i - 1, m - 1, cnt);
    SiftAway(s, cmp, lo, cnt, i, m);
    var t := Swapped(s, i - 1, m - 1);
    forall k: nat | 2 <= k <= cnt && k / 2 == m ensures cmp(t[m / 2 - 1], t[k - 1]) >= 0 {
      assert cmp(s[k / 2 - 1], s[k - 1]) >= 0;
    }
  }

  /** After the swap every node but m is at least as large as its children. */
  lemma SiftAway<T(!new)>(s: seq<T>, cmp: (T, T) -> int, lo: nat, cnt: nat, i: nat, m: nat)
    requires 1 <= lo <= i && HeapExcept(s, cmp, lo, cnt, i) && IsLargest(s, cmp, cnt, i, m) && m != i
    ensures var t := Swapped(s, i - 1, m - 1);
            forall k: nat :: 2 <= k <= cnt && lo <= k / 2 && k / 2 != m ==> cmp(t[k / 2 - 1], t[k - 1]) >= 0
  {
    var t := Swapped(s, i - 1, m - 1);
    forall k: nat | 2 <= k <= cnt && lo <= k / 2 && k / 2 != m ensures cmp(t[k / 2 - 1], t[k - 1]) >= 0 {
      if k == i {
        assert cmp(s[i / 2 - 1], s[m - 1]) >= 0;
      } else if k == m {
        assert cmp(s[m - 1], s[i - 1]) >= 0;
      } else if k / 2 == i {
        assert cmp(s[m - 1], s[k - 1]) >= 0;
      }
    }
  }

  lemma SiftDone<T>(s: seq<T>, cmp: (T, T) -> int, lo: nat, cnt: nat, i: nat)
    requires HeapExcept(s, cmp, lo, cnt, i) && IsLargest(s, cmp, cnt, i, i)
    ensures HeapFrom(s, cmp, lo, cnt)
  {
  }

  /** The root of a heap is a largest element. */
  lemma {:induction false} RootIsLargest<T(!new)>(s: seq<T>, cmp: (T, T) -> int, cnt: nat, k: nat)
    requires TotalPreorder(cmp) && HeapFrom(s, cmp, 1, cnt) && 1 <= k <= cnt
    ensures cmp(s[k - 1], s[0]) <= 0
  {
    hide TotalPreorder;
    if k > 1 {
      RootIsLargest(s, cmp, cnt, k / 2);
      Flip(cmp, s[k / 2 - 1], s[k - 1]);
      Trans(cmp, s[k - 1], s[k / 2 - 1], s[0]);
    } else {
      Flip(cmp, s[0], s[0]);
    }
  }

  /** do_swap(). */
  method Swap<T>(a: array<T>, i: nat, j: nat)
    requires 1 <= i <= a.Length && 1 <= j <= a.Length
    modifies a
    ensures a[..] == Swapped(old(a[..]), i - 1, j - 1)
  {
    a[i - 1], a[j - 1] := a[j - 1], a[i - 1];
  }

  /** The choice of `max` in heapify(). */
  method Largest<T(!new)>(a: array<T>, i: nat, cnt: nat, cmp: (T, T) -> int) returns (m: nat)
    requires TotalPreorder(cmp) && 1 <= i <= cnt <= a.Length
    ensures IsLargest(a[..], cmp, cnt, i, m)
  {
    hide TotalPreorder;
    var left, right := 2 * i, 2 * i + 1;
    m := i;
    Flip(cmp, a[i - 1], a[i - 1]);
    if left <= cnt {
      Flip(cmp, a[left - 1], a[i - 1]);
      Flip(cmp, a[left - 1], a[left - 1]);
    }
    if left <= cnt && cmp(a[left - 1], a[m - 1]) > 0 {
      m := left;
    }
    if right <= cnt {
      Flip(cmp, a[right - 1], a[m - 1]);
      Flip(cmp, a[right - 1], a[right - 1]);
      LargerStill(cmp, a[right - 1], a[m - 1], a[i - 1]);
      LargerStill(cmp, a[right - 1], a[m - 1], a[left - 1]);
    }
    if right <= cnt && cmp(a[right - 1], a[m - 1]) > 0 {
      m := right;
    }
    ghost var s := a[..];
    forall k: nat | 2 <= k <= cnt && k / 2 == i ensures cmp(s[m - 1], s[k - 1]) >= 0 {
      assert k == left || k == right;
    }
  }

  /** What exceeds m exceeds everything that m is not below. */
  lemma LargerStill<T(!new)>(cmp: (T, T) -> int, x: T, m: T, y: T)
    requires TotalPreorder(cmp)
    ensures cmp(x, m) > 0 && cmp(m, y) >= 0 ==> cmp(x, y) > 0
  {
    hide TotalPreorder;
    Flip(cmp, x, m);
    Flip(cmp, m, y);
    Flip(cmp, x, y);
    if cmp(x, m) > 0 && cmp(m, y) >= 0 && cmp(x, y) <= 0 {
      Flip(cmp, y, m);
      Trans(cmp, x, y, m);
    }
  }

  /** heapify(): restores the heap property at position i and below. */
  method Heapify<T(!new)>(a: array<T>, i: nat, cnt: nat, cmp: (T, T) -> int)
    requires TotalPreorder(cmp) && 1 <= i && cnt <= a.Length && HeapFrom(a[..], cmp, i + 1, cnt)
    modifies a
    ensures HeapFrom(a[..], cmp, i, cnt)
    ensures Permutes(old(a[..]), a[..], cnt)
  {
    hide Permutes, Swapped, IsLargest;
    var k := i;
    PermutesRefl(a[..], cnt);
    ghost var before := a[..];
    if i > cnt {
      return;
    }
    while true
      invariant i <= k <= cnt
      invariant HeapExcept(a[..], cmp, i, cnt, k)
      invariant Permutes(before, a[..], cnt)
      decreases cnt - k
    {
      ghost var s := a[..];
      var m := Largest(a, k, cnt, cmp);
      if m == k {
        SiftDone(s, cmp, i, cnt, k);
        break;
      }
      LargestBelow(s, cmp, cnt, k, m);
      SiftStep(s, cmp, i, cnt, k, m);
      Swap(a, k, m);
      PermutesTrans(before, s, a[..], cnt);
      k := m;
    }
  }

  lemma LargestBelow<T>(s: seq<T>, cmp: (T, T) -> int, cnt: nat, i: nat, m: nat)
    requires IsLargest(s, cmp, cnt, i, m) && m != i
    ensures i < m <= cnt
  {
  }

  lemma PermutesRefl<T>(s: seq<T>, cnt: nat)
    requires cnt <= |s|
    ensures Permutes(s, s, cnt)
  {
  }

  // ----- Heap sort -----

  /** The state of the second loop: a heap of i elements, and above it the rest in order. */
  ghost predicate PartlySorted<T>(s: seq<T>, cmp: (T, T) -> int, i: nat) {
    && i <= |s|
    && (forall p, q :: 0 <= p < q < |s| && i <= q ==> cmp(s[p], s[q]) <= 0)
  }

  /** Moving the root behind the heap. */
  lemma ExtractStep<T(!new)>(s: seq<T>, cmp: (T, T) -> int, i: nat)
    requires TotalPreorder(cmp) && 2 <= i && PartlySorted(s, cmp, i) && HeapFrom(s, cmp, 1, i)
    ensures var t := Swapped(s, 0, i - 1);
            && PartlySorted(t, cmp, i - 1) && HeapFrom(t, cmp, 2, i - 1) && Permutes(s, t, |s|)
  {
    hide TotalPreorder, Permutes;
    var t := Swapped(s, 0, i - 1);
    SwapPermutes(s, 0, i - 1, |s|);
    forall p, q | 0 <= p < q < |s| && i - 1 <= q ensures cmp(t[p], t[q]) <= 0 {
      if q == i - 1 {
        RootIsLargest(s, cmp, i, if p == 0 then i else p + 1);
      }
    }
  }

  /** Permuting the heap keeps the order of the rest. */
  lemma PermuteHeap<T(!new)>(s: seq<T>, t: seq<T>, cmp: (T, T) -> int, i: nat)
    requires TotalPreorder(cmp) && PartlySorted(s, cmp, i) && Permutes(s, t, i)
    ensures PartlySorted(t, cmp, i) && Permutes(s, t, |s|)
  {
    hide TotalPreorder;
    forall p, q | 0 <= p < q < |t| && i <= q ensures cmp(t[p], t[q]) <= 0 {
      assert t[q] == t[i..][q - i] == s[q];
      if p < i {
        var j := PermutesElement(s, t, i, p);
      } else {
        assert t[p] == t[i..][p - i] == s[p];
      }
    }
    PermutesMore(s, t, i, |s|);
  }

  /** sort(). */
  method HeapSort<T(!new)>(a: array<T>, cmp: (T, T) -> int)
    requires TotalPreorder(cmp)
    modifies a
    ensures Sorted(a[..], cmp)
    ensures multiset(a[..]) == multiset(old(a[..]))
  {
    hide Permutes, Swapped, HeapFrom;
    var cnt := a.Length;
    ghost var before := a[..];
    BuildHeap(a, cmp);
    ghost var s := a[..];
    var i := cnt;
    while i > 1
      invariant 0 <= i <= cnt
      invariant PartlySorted(a[..], cmp, i) && HeapFrom(a[..], cmp, 1, i)
      invariant Permutes(before, a[..], cnt)
    {
      s := a[..];
      ExtractStep(s, cmp, i);
      Swap(a, 1, i);
      PermutesTrans(before, s, a[..], cnt);
      s := a[..];
      Heapify(a, 1, i - 1, cmp);
      PermuteHeap(s, a[..], cmp, i - 1);
      PermutesTrans(before, s, a[..], cnt);
      i := i - 1;
    }
    WholePermutes(before, a[..]);
  }

  /** The first loop of sort(). */
  method BuildHeap<T(!new)>(a: array<T>, cmp: (T, T) -> int)
    requires TotalPreorder(cmp)
    modifies a
    ensures HeapFrom(a[..], cmp, 1, a.Length)
    ensures Permutes(old(a[..]), a[..], a.Length)
  {
    hide Permutes;
    var cnt := a.Length;
    ghost var before := a[..];
    PermutesRefl(before, cnt);
    var i := cnt / 2;
    while i > 0
      invariant 0 <= i <= cnt / 2
      invariant HeapFrom(a[..], cmp, i + 1, cnt)
      invariant Permutes(before, a[..], cnt)
    {
      ghost var s := a[..];
      Heapify(a, i, cnt, cmp);
      PermutesTrans(before, s, a[..], cnt);
      i := i - 1;
    }
  }

  lemma WholePermutes<T>(s: seq<T>, t: seq<T>)
    requires Permutes(s, t, |s|)
    ensures multiset(s) == multiset(t)
  {
    assert s[..|s|] == s && t[..|s|] == t;
  }

  // ----- Binary search -----

  /** binary_search(): finds a match exactly when there is one. */
  method BinarySearch<T(!new)>(key: T, a: array<T>, cmp: (T, T) -> int) returns (r: Option<nat>)
    requires TotalPreorder(cmp) && Sorted(a[..], cmp)
    ensures r.Some? ==> r.value < a.Length && cmp(key, a[r.value]) == 0
    ensures r.None? ==> forall k :: 0 <= k < a.Length ==> cmp(key, a[k]) != 0
  {
    hide TotalPreorder, Sorted;
    var first, last := 0, a.Length;
    while first < last
      invariant 0 <= first <= last <= a.Length
      invariant forall k :: 0 <= k < first ==> cmp(key, a[k]) > 0
      invariant forall k :: last <= k < a.Length ==> cmp(key, a[k]) < 0
    {
      var middle := first + (last - first) / 2;
      var c := cmp(key, a[middle]);
      if c < 0 {
        BelowFrom(a[..], cmp, key, middle);
        last := middle;
      } else if c > 0 {
        AboveUpTo(a[..], cmp, key, middle);
        first := middle + 1;
      } else {
        return Some(middle);
      }
    }
    return None;
  }

  lemma BelowFrom<T(!new)>(s: seq<T>, cmp: (T, T) -> int, key: T, m: nat)
    requires TotalPreorder(cmp) && Sorted(s, cmp) && m < |s| && cmp(key, s[m]) < 0
    ensures forall k :: m <= k < |s| ==> cmp(key, s[k]) < 0
  {
    hide TotalPreorder;
    forall k | m < k < |s| ensures cmp(key, s[k]) < 0 {
      Flip(cmp, s[k], s[m]);
      Flip(cmp, s[m], key);
      LargerStill(cmp, s[m], key, s[k]);
      Flip(cmp, key, s[k]);
      Flip(cmp, s[k], key);
    }
  }

  lemma AboveUpTo<T(!new)>(s: seq<T>, cmp: (T, T) -> int, key: T, m: nat)
    requires TotalPreorder(cmp) && Sorted(s, cmp) && m < |s| && cmp(key, s[m]) > 0
    ensures forall k :: 0 <= k <= m ==> cmp(key, s[k]) > 0
  {
    hide TotalPreorder;
    forall k | 0 <= k < m ensures cmp(key, s[k]) > 0 {
      Flip(cmp, s[m], s[k]);
      LargerStill(cmp, key, s[m], s[k]);
    }
  }
}
