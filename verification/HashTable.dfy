/** lib/kernel/hash.c: a hash table of chained buckets whose number follows the number of
    elements.  It refines a finite set in which no two elements are equal under the equality
    that `less` induces. */
module HashTable {

  import opened Lists
  import A = Arithmetic

  const MIN_BUCKETS := 4

  /** The functions a table is made with. */
  datatype Order<!E> = Order(hash: E -> nat, less: (E, E) -> bool)

  /** The equality that `less` induces. */
  predicate Same<E>(o: Order<E>, x: E, y: E) {
    !o.less(x, y) && !o.less(y, x)
  }

  /** What the table needs of its functions. */
  ghost predicate Lawful<E(!new)>(o: Order<E>) {
    && (forall x :: Same(o, x, x))
    && (forall x, y, z :: Same(o, x, y) && Same(o, y, z) ==> Same(o, x, z))
    && (forall x, y :: Same(o, x, y) ==> o.hash(x) == o.hash(y))
  }

  // ----- Bucket counts -----

  /** Bitwise and of unsigned numbers. */
  function And(x: nat, y: nat): (r: nat)
    ensures r <= y
  {
    if x == 0 || y == 0 then 0 else x % 2 * (y % 2) + 2 * And(x / 2, y / 2)
  }

  lemma {:induction false} AndSelf(x: nat)
    ensures And(x, x) == x
  {
    if x > 0 {
      AndSelf(x / 2);
    }
  }

  /** turn_off_least_1bit(). */
  function TurnOffLeast(x: nat): nat
    requires x > 0
  {
    And(x, x - 1)
  }

  /** is_power_of_2(). */
  predicate IsPowerOf2(x: nat) {
    x != 0 && TurnOffLeast(x) == 0
  }

  /** The least bit that is set. */
  function LowBit(x: nat): (r: nat)
    requires x > 0
    ensures 0 < r <= x
  {
    if x % 2 == 1 then 1 else 2 * LowBit(x / 2)
  }

  lemma TurnOffEven(x: nat)
    requires x > 0
    ensures TurnOffLeast(2 * x) == 2 * TurnOffLeast(x)
  {
    assert (2 * x - 1) / 2 == x - 1;
  }

  lemma {:induction false} TurnOffIsMinus(x: nat)
    requires x > 0
    ensures TurnOffLeast(x) == x - LowBit(x)
  {
    if x % 2 == 1 {
      AndSelf(x / 2);
      assert (x - 1) / 2 == x / 2;
    } else {
      TurnOffIsMinus(x / 2);
      TurnOffEven(x / 2);
    }
  }

  lemma {:induction false} NextLowBit(x: nat)
    requires x > 0 && TurnOffLeast(x) > 0
    ensures LowBit(TurnOffLeast(x)) >= 2 * LowBit(x)
  {
    TurnOffIsMinus(x);
    if x % 2 == 0 {
      TurnOffEven(x / 2);
      NextLowBit(x / 2);
    }
  }

  lemma {:induction false} PowerLowBit(n: nat)
    ensures LowBit(A.Pow2(n)) == A.Pow2(n)
  {
    hide LowBit;
    if n > 0 {
      PowerLowBit(n - 1);
      LowBitDouble(A.Pow2(n - 1));
    } else {
      LowBitOne();
    }
  }

  lemma LowBitOne()
    ensures LowBit(1) == 1
  {
  }

  lemma LowBitDouble(x: nat)
    requires x > 0
    ensures LowBit(2 * x) == 2 * LowBit(x)
  {
    assert 2 * x % 2 == 0 && 2 * x / 2 == x;
  }

  lemma {:induction false} LowBitPower(x: nat) returns (n: nat)
    requires x > 0
    ensures LowBit(x) == A.Pow2(n)
  {
    if x % 2 == 1 {
      n := 0;
      assert A.Pow2(0) == 1;
    } else {
      var m := LowBitPower(x / 2);
      n := m + 1;
      assert A.Pow2(m + 1) == 2 * A.Pow2(m);
    }
  }

  /** is_power_of_2() tells the powers of two. */
  lemma PowerOf2Meaning(x: nat)
    requires x > 0
    ensures IsPowerOf2(x) <==> exists n: nat :: x == A.Pow2(n)
  {
    hide TurnOffLeast, LowBit, A.Pow2;
    TurnOffIsMinus(x);
    var m := LowBitPower(x);
    assert IsPowerOf2(x) ==> x == A.Pow2(m);
    forall n: nat | x == A.Pow2(n) ensures IsPowerOf2(x) {
      PowerLowBit(n);
    }
  }

  /** find_bucket(): the hash modulo the number of buckets. */
  function Index(hash: nat, cnt: nat): (b: nat)
    requires cnt > 0
    ensures b < cnt
  {
    And(hash, cnt - 1)
  }

  lemma {:induction false} IndexIsMod(hash: nat, n: nat)
    ensures A.Pow2(n) > 0 && Index(hash, A.Pow2(n)) == hash % A.Pow2(n)
  {
    if n > 0 {
      hide Index;
      var p := A.Pow2(n - 1);
      IndexIsMod(hash / 2, n - 1);
      IndexHalves(hash, p);
      HalvesMod(hash, p);
    }
  }

  lemma IndexHalves(hash: nat, p: nat)
    requires p > 0
    ensures Index(hash, 2 * p) == hash % 2 + 2 * Index(hash / 2, p)
  {
    assert (2 * p - 1) / 2 == p - 1 && (2 * p - 1) % 2 == 1;
  }

  lemma HalvesMod(h: nat, p: nat)
    requires p > 0
    ensures h % (2 * p) == h % 2 + 2 * (h / 2 % p)
  {
    var q, r := h / 2 / p, h / 2 % p;
    assert h / 2 == q * p + r;
    var low := h % 2 + 2 * r;
    assert h == q * (2 * p) + low by {
      assert q * (2 * p) == 2 * (q * p);
    }
    assert q * (2 * p) <= h < (q + 1) * (2 * p) by {
      assert (q + 1) * (2 * p) == q * (2 * p) + 2 * p;
    }
    A.DivUnique(h, 2 * p, q);
  }

  /** The loop of rehash() clears only low bits of its start value. */
  predicate OnlyLowCleared(x0: nat, x: nat) {
    0 < x <= x0 && x0 - x < LowBit(x)
  }

  lemma TurnOffClearsLow(x0: nat, x: nat)
    requires OnlyLowCleared(x0, x) && TurnOffLeast(x) != 0
    ensures OnlyLowCleared(x0, TurnOffLeast(x)) && TurnOffLeast(x) < x
  {
    TurnOffIsMinus(x);
    NextLowBit(x);
  }

  /** So it ends at the largest power of two that is not larger. */
  lemma LargestPower(x0: nat, x: nat)
    requires OnlyLowCleared(x0, x) && IsPowerOf2(x)
    ensures x <= x0 < 2 * x
  {
    TurnOffIsMinus(x);
  }

  /** The number of buckets that rehash() aims at: the largest power of two not above half the
      number of elements, and at least four. */
  ghost predicate IsBucketCount(elems: nat, cnt: nat) {
    var best := if elems / 2 < MIN_BUCKETS then MIN_BUCKETS else elems / 2;
    IsPowerOf2(cnt) && cnt <= best < 2 * cnt
  }

  // ----- Buckets -----

  type Buckets<E> = seq<seq<E>>

  function Flatten<E>(bs: Buckets<E>): (r: seq<E>) {
    if bs == [] then [] else bs[0] + Flatten(bs[1..])
  }

  /** Every element is in the bucket of its hash. */
  ghost predicate Placed<E>(o: Order<E>, bs: Buckets<E>, cnt: nat) {
    && cnt > 0 && |bs| == cnt
    && forall b, x :: 0 <= b < |bs| && x in bs[b] ==> Index(o.hash(x), cnt) == b
  }

  ghost predicate Distinct<E>(o: Order<E>, q: seq<E>) {
    forall i, j :: 0 <= i < j < |q| ==> !Same(o, q[i], q[j])
  }

  ghost predicate AllDistinct<E>(o: Order<E>, bs: Buckets<E>) {
    forall b :: 0 <= b < |bs| ==> Distinct(o, bs[b])
  }

  lemma {:induction false} FlattenMembers<E>(bs: Buckets<E>, x: E)
    ensures x in Flatten(bs) <==> exists b :: 0 <= b < |bs| && x in bs[b]
  {
    if bs != [] {
      FlattenMembers(bs[1..], x);
      if x in Flatten(bs[1..]) {
        var b :| 0 <= b < |bs[1..]| && x in bs[1..][b];
        assert x in bs[b + 1];
      }
      forall b | 0 <= b < |bs| && x in bs[b] ensures x in Flatten(bs) {
        assert b > 0 ==> x in bs[1..][b - 1];
      }
    }
  }

  lemma {:induction false} FlattenUpdate<E>(bs: Buckets<E>, b: nat, q: seq<E>)
    requires b < |bs|
    ensures |Flatten(bs[b := q])| == |Flatten(bs)| - |bs[b]| + |q|
  {
    if b > 0 {
      FlattenUpdate(bs[1..], b - 1, q);
      assert bs[b := q][1..] == bs[1..][b - 1 := q];
    } else {
      assert bs[b := q][1..] == bs[1..];
    }
  }

  lemma {:induction false} FlattenSnoc<E>(bs: Buckets<E>, q: seq<E>)
    ensures Flatten(bs + [q]) == Flatten(bs) + q
  {
    if bs == [] {
      assert [q][1..] == [];
    } else {
      FlattenSnoc(bs[1..], q);
      assert (bs + [q])[1..] == bs[1..] + [q];
    }
  }

  /** Elements in different buckets have different hashes, so they are not equal. */
  lemma Apart<E(!new)>(o: Order<E>, bs: Buckets<E>, cnt: nat, a: nat, b: nat, x: E, y: E)
    requires Lawful(o) && Placed(o, bs, cnt) && a < |bs| && b < |bs| && a != b && x in bs[a] && y in bs[b]
    ensures !Same(o, x, y)
  {
  }

  lemma {:induction false} FlattenDistinct<E(!new)>(o: Order<E>, bs: Buckets<E>, cnt: nat, from: nat)
    requires Lawful(o) && Placed(o, bs, cnt) && AllDistinct(o, bs) && from <= |bs|
    ensures Distinct(o, Flatten(bs[from..]))
    decreases |bs| - from
  {
    hide Lawful;
    if from < |bs| {
      FlattenDistinct(o, bs, cnt, from + 1);
      var q, rest := bs[from], Flatten(bs[from + 1..]);
      assert bs[from..][1..] == bs[from + 1..];
      forall i, j | 0 <= i < |q| && 0 <= j < |rest| ensures !Same(o, q[i], rest[j]) {
        FlattenMembers(bs[from + 1..], rest[j]);
        var b :| 0 <= b < |bs[from + 1..]| && rest[j] in bs[from + 1..][b];
        Apart(o, bs, cnt, from, from + 1 + b, q[i], rest[j]);
      }
      DistinctAppend(o, q, rest);
    }
  }

  lemma DistinctAppend<E>(o: Order<E>, p: seq<E>, q: seq<E>)
    requires Distinct(o, p) && Distinct(o, q) && forall i, j :: 0 <= i < |p| && 0 <= j < |q| ==> !Same(o, p[i], q[j])
    ensures Distinct(o, p + q)
  {
  }

  // ----- Pushing elements -----

  /** list_push_front() onto the bucket of the element. */
  function Push<E>(o: Order<E>, bs: Buckets<E>, cnt: nat, x: E): (r: Buckets<E>)
    requires |bs| == cnt > 0
    ensures |r| == |bs|
  {
    hide Index;
    var b := Index(o.hash(x), cnt);
    bs[b := [x] + bs[b]]
  }

  lemma PushKeeps<E(!new)>(o: Order<E>, bs: Buckets<E>, cnt: nat, x: E)
    requires Placed(o, bs, cnt) && AllDistinct(o, bs)
    requires forall y :: y in Flatten(bs) ==> !Same(o, x, y)
    ensures var r := Push(o, bs, cnt, x);
            && Placed(o, r, cnt) && AllDistinct(o, r) && |Flatten(r)| == |Flatten(bs)| + 1
            && forall y :: y in Flatten(r) <==> y in Flatten(bs) || y == x
  {
    hide Same, Index;
    var b := Index(o.hash(x), cnt);
    var r := Push(o, bs, cnt, x);
    FlattenUpdate(bs, b, [x] + bs[b]);
    forall i | 0 <= i < |bs[b]| ensures !Same(o, x, bs[b][i]) {
      FlattenMembers(bs, bs[b][i]);
    }
    assert Distinct(o, r[b]);
    forall y ensures y in Flatten(r) <==> y in Flatten(bs) || y == x {
      PushMembers(o, bs, cnt, x, y);
    }
  }

  lemma PushMembers<E>(o: Order<E>, bs: Buckets<E>, cnt: nat, x: E, y: E)
    requires |bs| == cnt > 0
    ensures y in Flatten(Push(o, bs, cnt, x)) <==> y in Flatten(bs) || y == x
  {
    hide Index;
    var c := Index(o.hash(x), cnt);
    var r := Push(o, bs, cnt, x);
    FlattenMembers(r, y);
    FlattenMembers(bs, y);
    if y == x {
      assert y in r[c];
    }
    if y in Flatten(bs) {
      var b :| 0 <= b < |bs| && y in bs[b];
      assert y in r[b];
    }
  }

  /** Pushing a sequence of elements, in order. */
  function PushAll<E>(o: Order<E>, bs: Buckets<E>, cnt: nat, q: seq<E>): (r: Buckets<E>)
    requires |bs| == cnt > 0
    ensures |r| == |bs|
  {
    if q == [] then bs else Push(o, PushAll(o, bs, cnt, q[..|q| - 1]), cnt, q[|q| - 1])
  }

  function EmptyBuckets<E>(cnt: nat): (bs: Buckets<E>)
    ensures |bs| == cnt
  {
    seq(cnt, i => [])
  }

  lemma {:induction false} EmptyFlatten<E>(bs: Buckets<E>)
    requires forall b :: 0 <= b < |bs| ==> bs[b] == []
    ensures Flatten(bs) == []
  {
    if bs != [] {
      EmptyFlatten(bs[1..]);
    }
  }

  lemma {:induction false} PushAllKeeps<E(!new)>(o: Order<E>, cnt: nat, q: seq<E>)
    requires cnt > 0 && Distinct(o, q)
    ensures var r := PushAll(o, EmptyBuckets(cnt), cnt, q);
            && Placed(o, r, cnt) && AllDistinct(o, r) && |Flatten(r)| == |q|
            && forall y :: y in Flatten(r) <==> y in q
  {
    hide Index, Push;
    if q == [] {
      EmptyFlatten(EmptyBuckets<E>(cnt));
    } else {
      var init, last := q[..|q| - 1], q[|q| - 1];
      PushAllKeeps(o, cnt, init);
      var bs := PushAll(o, EmptyBuckets(cnt), cnt, init);
      forall y | y in Flatten(bs) ensures !Same(o, last, y) {
        var i :| 0 <= i < |init| && init[i] == y;
        assert !Same(o, q[i], q[|q| - 1]);
      }
      PushKeeps(o, bs, cnt, last);
      assert q == init + [last];
    }
  }

  // ----- Elements as a set -----

  ghost function Members<E(!new)>(bs: Buckets<E>): set<E> {
    set x | x in Flatten(bs)
  }

  lemma {:induction false} NoDupCard<E>(q: seq<E>)
    requires NoDup(q)
    ensures |set x | x in q| == |q|
  {
    if q != [] {
      var init, last := q[..|q| - 1], q[|q| - 1];
      NoDupCard(init);
      assert q == init + [last] && last !in init;
      assert (set x | x in q) == (set x | x in init) + {last};
    }
  }

  /** The element count is the size of the set, in which no two elements are equal. */
  lemma MembersSize<E(!new)>(o: Order<E>, bs: Buckets<E>, cnt: nat)
    requires Lawful(o) && Placed(o, bs, cnt) && AllDistinct(o, bs)
    ensures |Members(bs)| == |Flatten(bs)|
    ensures forall x, y :: x in Members(bs) && y in Members(bs) && x != y ==> !Same(o, x, y)
  {
    FlattenDistinct(o, bs, cnt, 0);
    assert bs[0..] == bs;
    var q := Flatten(bs);
    DistinctNoDup(o, q);
    NoDupCard(q);
    assert Members(bs) == set x | x in q;
    forall x, y | x in q && y in q && x != y ensures !Same(o, x, y) {
      var i :| 0 <= i < |q| && q[i] == x;
      var j :| 0 <= j < |q| && q[j] == y;
      assert !Same(o, q[if i < j then i else j], q[if i < j then j else i]);
    }
  }

  lemma DistinctNoDup<E(!new)>(o: Order<E>, q: seq<E>)
    requires Lawful(o) && Distinct(o, q)
    ensures NoDup(q)
  {
    forall i, j | 0 <= i < j < |q| ensures q[i] != q[j] {
      assert !Same(o, q[i], q[j]) && Same(o, q[i], q[i]);
    }
  }

  /** Looking in the bucket of the hash is enough. */
  lemma OneBucket<E(!new)>(o: Order<E>, bs: Buckets<E>, cnt: nat, e: E, x: E)
    requires Lawful(o) && Placed(o, bs, cnt) && x in Flatten(bs) && Same(o, x, e)
    ensures x in bs[Index(o.hash(e), cnt)]
  {
    FlattenMembers(bs, x);
  }

  lemma RemoveKeeps<E(!new)>(o: Order<E>, bs: Buckets<E>, cnt: nat, b: nat, i: nat)
    requires Lawful(o) && Placed(o, bs, cnt) && AllDistinct(o, bs) && b < |bs| && i < |bs[b]|
    ensures var r := bs[b := RemoveAt(bs[b], i)];
            && Placed(o, r, cnt) && AllDistinct(o, r) && |Flatten(r)| == |Flatten(bs)| - 1
            && forall y :: y in Flatten(r) <==> y in Flatten(bs) && y != bs[b][i]
  {
    var r := bs[b := RemoveAt(bs[b], i)];
    DistinctNoDup(o, bs[b]);
    hide Lawful, Index;
    RemoveAtElements(bs[b], i);
    FlattenUpdate(bs, b, RemoveAt(bs[b], i));
    assert Distinct(o, r[b]);
    forall y ensures y in Flatten(r) <==> y in Flatten(bs) && y != bs[b][i] {
      FlattenMembers(bs, y);
      FlattenMembers(r, y);
      if y in Flatten(bs) && y != bs[b][i] {
        var c :| 0 <= c < |bs| && y in bs[c];
        assert y in r[c];
      }
      if y in Flatten(r) {
        var c :| 0 <= c < |r| && y in r[c];
        assert y in bs[c];
        assert c != b ==> Index(o.hash(y), cnt) != Index(o.hash(bs[b][i]), cnt);
      }
    }
  }

  // ----- struct hash -----

  class HashTable<E(==,!new)> {
    const o: Order<E>
    var elemCnt: nat
    var bucketCnt: nat
    var buckets: Buckets<E>

    ghost predicate Valid()
      reads this
    {
      && Lawful(o) && bucketCnt >= MIN_BUCKETS && IsPowerOf2(bucketCnt)
      && Placed(o, buckets, bucketCnt) && AllDistinct(o, buckets)
      && elemCnt == |Flatten(buckets)|
    }

    /** The set that the table stands for. */
    ghost function Elements(): set<E>
      reads this
    {
      Members(buckets)
    }

    /** The struct before hash_init(). */
    constructor (o: Order<E>)
      ensures this.o == o
    {
      this.o := o;
      elemCnt, bucketCnt, buckets := 0, 0, [];
    }

    /** hash_init(); `memory` says whether the buckets can be allocated. */
    method Init(memory: bool) returns (ok: bool)
      requires Lawful(o)
      modifies this
      ensures ok == memory
      ensures ok ==> Valid() && Elements() == {} && bucketCnt == MIN_BUCKETS
    {
      elemCnt, bucketCnt := 0, MIN_BUCKETS;
      if !memory {
        return false;
      }
      buckets := EmptyBuckets(bucketCnt);
      EmptyFlatten(buckets);
      PowerOf2Meaning(4);
      assert A.Pow2(0) == 1 && A.Pow2(1) == 2 && A.Pow2(2) == 4;
      return true;
    }

    /** hash_size(). */
    method Size() returns (n: nat)
      requires Valid()
      ensures n == |Elements()|
    {
      MembersSize(o, buckets, bucketCnt);
      n := elemCnt;
    }

    /** find_elem() in the bucket of e: the bucket and the position in it. */
    method FindElem(e: E) returns (b: nat, r: Option<nat>)
      requires Valid()
      ensures b < |buckets| && b == Index(o.hash(e), bucketCnt)
      ensures r.Some? ==> r.value < |buckets[b]| && buckets[b][r.value] in Elements() && Same(o, buckets[b][r.value], e)
      ensures r.None? ==> forall x :: x in Elements() ==> !Same(o, x, e)
    {
      hide Lawful, Index, Flatten, IsPowerOf2;
      b := Index(o.hash(e), bucketCnt);
      var i := 0;
      while i < |buckets[b]|
        invariant 0 <= i <= |buckets[b]|
        invariant forall k :: 0 <= k < i ==> !Same(o, buckets[b][k], e)
      {
        var hi := buckets[b][i];
        if !o.less(hi, e) && !o.less(e, hi) {
          FlattenMembers(buckets, hi);
          return b, Some(i);
        }
        i := i + 1;
      }
      forall x | x in Elements() ensures !Same(o, x, e) {
        if Same(o, x, e) {
          OneBucket(o, buckets, bucketCnt, e, x);
        }
      }
      return b, None;
    }

    /** hash_find(). */
    method Find(e: E) returns (r: Option<E>)
      requires Valid()
      ensures r.Some? ==> r.value in Elements() && Same(o, r.value, e)
      ensures r.None? ==> forall x :: x in Elements() ==> !Same(o, x, e)
    {
      var b, i := FindElem(e);
      r := if i.Some? then Some(buckets[b][i.value]) else None;
    }

    /** insert_elem(). */
    method InsertElem(e: E)
      requires Valid() && forall x :: x in Elements() ==> !Same(o, e, x)
      modifies this
      ensures Valid() && Elements() == old(Elements()) + {e}
      ensures bucketCnt == old(bucketCnt)
    {
      hide Lawful, Index, Flatten, IsPowerOf2;
      PushKeeps(o, buckets, bucketCnt, e);
      elemCnt := elemCnt + 1;
      var b := Index(o.hash(e), bucketCnt);
      buckets := buckets[b := [e] + buckets[b]];
    }

    /** remove_elem(). */
    method RemoveElem(b: nat, i: nat)
      requires Valid() && b < |buckets| && i < |buckets[b]|
      modifies this
      ensures Valid() && Elements() == old(Elements()) - {old(buckets[b][i])}
      ensures bucketCnt == old(bucketCnt)
    {
      hide Lawful, Index, Flatten, IsPowerOf2;
      RemoveKeeps(o, buckets, bucketCnt, b, i);
      elemCnt := elemCnt - 1;
      buckets := buckets[b := RemoveAt(buckets[b], i)];
    }

    /** hash_insert(): the set gains e unless it has an equal element, which is returned. */
    method Insert(e: E, memory: bool) returns (r: Option<E>)
      requires Valid()
      modifies this
      ensures Valid()
      ensures r.Some? ==> r.value in old(Elements()) && Same(o, r.value, e) && Elements() == old(Elements())
      ensures r.None? ==> (forall x :: x in old(Elements()) ==> !Same(o, x, e)) && Elements() == old(Elements()) + {e}
      ensures memory ==> IsBucketCount(elemCnt, bucketCnt)
      ensures !memory ==> bucketCnt == old(bucketCnt)
    {
      hide Lawful, Placed, AllDistinct, Flatten, Index, IsPowerOf2, IsBucketCount;
      var b, i := FindElem(e);
      if i.Some? {
        r := Some(buckets[b][i.value]);
      } else {
        InsertElem(e);
        r := None;
      }
      Rehash(memory);
    }

    /** hash_replace(): e takes the place of the equal element, which is returned. */
    method Replace(e: E, memory: bool) returns (r: Option<E>)
      requires Valid()
      modifies this
      ensures Valid()
      ensures r.Some? ==>
              r.value in old(Elements()) && Same(o, r.value, e) && Elements() == old(Elements()) - {r.value} + {e}
      ensures r.None? ==> (forall x :: x in old(Elements()) ==> !Same(o, x, e)) && Elements() == old(Elements()) + {e}
      ensures memory ==> IsBucketCount(elemCnt, bucketCnt)
      ensures !memory ==> bucketCnt == old(bucketCnt)
    {
      hide Placed, AllDistinct, Flatten, Index, IsPowerOf2, IsBucketCount;
      var b, i := FindElem(e);
      r := None;
      if i.Some? {
        r := Some(buckets[b][i.value]);
        OnlyOneEqual(o, buckets, bucketCnt, r.value, e);
        RemoveElem(b, i.value);
      }
      InsertElem(e);
      Rehash(memory);
    }

    /** hash_delete(). */
    method Delete(e: E, memory: bool) returns (r: Option<E>)
      requires Valid()
      modifies this
      ensures Valid()
      ensures r.Some? ==> r.value in old(Elements()) && Same(o, r.value, e) && Elements() == old(Elements()) - {r.value}
      ensures r.None? ==> (forall x :: x in old(Elements()) ==> !Same(o, x, e)) && Elements() == old(Elements())
      ensures r.Some? && memory ==> IsBucketCount(elemCnt, bucketCnt)
      ensures r.None? || !memory ==> bucketCnt == old(bucketCnt)
    {
      hide Lawful, Placed, AllDistinct, Flatten, Index, IsPowerOf2, IsBucketCount;
      var b, i := FindElem(e);
      if i.None? {
        return None;
      }
      r := Some(buckets[b][i.value]);
      RemoveElem(b, i.value);
      Rehash(memory);
    }

    /** The number of buckets that rehash() wants. */
    method BestCount() returns (cnt: nat)
      ensures cnt >= MIN_BUCKETS && IsBucketCount(elemCnt, cnt)
    {
      hide TurnOffLeast, LowBit;
      cnt := elemCnt / 2;
      if cnt < MIN_BUCKETS {
        cnt := MIN_BUCKETS;
      }
      ghost var best := cnt;
      while !IsPowerOf2(cnt)
        invariant OnlyLowCleared(best, cnt)
        decreases cnt
      {
        TurnOffClearsLow(best, cnt);
        cnt := TurnOffLeast(cnt);
      }
      LargestPower(best, cnt);
      AtLeastFour(best, cnt);
    }

    /** rehash(): moves every element to the bucket it has among the new number of buckets;
        without memory the table stays as it is. */
    method Rehash(memory: bool)
      requires Valid()
      modifies this
      ensures Valid() && Elements() == old(Elements())
      ensures !memory ==> bucketCnt == old(bucketCnt)
      ensures memory ==> IsBucketCount(elemCnt, bucketCnt)
    {
      hide Lawful, Flatten, IsBucketCount, IsPowerOf2, Index;
      var cnt := BestCount();
      if cnt == bucketCnt || !memory {
        return;
      }
      ghost var all := Flatten(buckets);
      FlattenDistinct(o, buckets, bucketCnt, 0);
      assert buckets[0..] == buckets;
      var moved := Redistribute(cnt);
      PushAllKeeps(o, cnt, all);
      bucketCnt, buckets := cnt, moved;
      CountIsPower(elemCnt, cnt);
    }

    /** The loops of rehash() that move the elements. */
    method Redistribute(cnt: nat) returns (r: Buckets<E>)
      requires cnt > 0
      ensures r == PushAll(o, EmptyBuckets(cnt), cnt, Flatten(buckets))
    {
      hide Flatten, Index, Push;
      ghost var empty := EmptyBuckets<E>(cnt);
      r := EmptyBuckets(cnt);
      var i := 0;
      EmptyFlatten(buckets[..0]);
      while i < |buckets|
        invariant 0 <= i <= |buckets|
        invariant |r| == cnt && r == PushAll(o, empty, cnt, Flatten(buckets[..i]))
      {
        ghost var done := Flatten(buckets[..i]);
        var j := 0;
        assert done + buckets[i][..0] == done;
        while j < |buckets[i]|
          invariant 0 <= j <= |buckets[i]|
          invariant |r| == cnt && r == PushAll(o, empty, cnt, done + buckets[i][..j])
        {
          PushAllSnoc(o, empty, cnt, done + buckets[i][..j], buckets[i][j]);
          assert done + buckets[i][..j + 1] == done + buckets[i][..j] + [buckets[i][j]];
          r := Push(o, r, cnt, buckets[i][j]);
          j := j + 1;
        }
        assert buckets[i][..j] == buckets[i];
        assert buckets[..i + 1] == buckets[..i] + [buckets[i]];
        FlattenSnoc(buckets[..i], buckets[i]);
        i := i + 1;
      }
      assert buckets[..i] == buckets;
    }

    /** The iteration idiom with hash_first() and hash_next() visits every element once. */
    method VisitAll() returns (visited: seq<E>)
      requires Valid()
      ensures NoDup(visited)
      ensures forall x :: x in visited <==> x in Elements()
    {
      hide Lawful, Index, IsPowerOf2, Same, Flatten, Placed, AllDistinct, From, Distinct;
      FlattenNoDup(o, buckets, bucketCnt);
      ghost var all := Flatten(buckets);
      var it := new Iterator(buckets);
      visited := [];
      while true
        invariant it.Valid() && it.buckets == buckets && !it.Done()
        invariant visited + it.Remaining() == all
        decreases |it.Remaining()|
      {
        ghost var rest := it.Remaining();
        var e := it.Next();
        if e.None? {
          assert rest == [] && visited == all;
          break;
        }
        assert rest == [e.value] + it.Remaining();
        visited := visited + [e.value];
      }
    }
  }

  lemma FlattenNoDup<E(!new)>(o: Order<E>, bs: Buckets<E>, cnt: nat)
    requires Lawful(o) && Placed(o, bs, cnt) && AllDistinct(o, bs)
    ensures NoDup(Flatten(bs)) && |bs| > 0
  {
    FlattenDistinct(o, bs, cnt, 0);
    assert bs[0..] == bs;
    DistinctNoDup(o, Flatten(bs));
  }

  lemma PushAllSnoc<E>(o: Order<E>, bs: Buckets<E>, cnt: nat, q: seq<E>, x: E)
    requires |bs| == cnt > 0
    ensures PushAll(o, bs, cnt, q + [x]) == Push(o, PushAll(o, bs, cnt, q), cnt, x)
  {
    assert (q + [x])[..|q|] == q;
  }

  lemma CountIsPower(elems: nat, cnt: nat)
    requires IsBucketCount(elems, cnt)
    ensures IsPowerOf2(cnt)
  {
  }

  lemma AtLeastFour(x0: nat, x: nat)
    requires x0 >= MIN_BUCKETS && IsPowerOf2(x) && x <= x0 < 2 * x
    ensures x >= MIN_BUCKETS
  {
    TurnOffIsMinus(x);
    assert LowBit(3) == 1;
  }

  lemma OnlyOneEqual<E(!new)>(o: Order<E>, bs: Buckets<E>, cnt: nat, x: E, e: E)
    requires Lawful(o) && Placed(o, bs, cnt) && AllDistinct(o, bs) && x in Members(bs) && Same(o, x, e)
    ensures forall y :: y in Members(bs) - {x} ==> !Same(o, e, y)
  {
    MembersSize(o, bs, cnt);
    forall y | y in Members(bs) - {x} ensures !Same(o, e, y) {
      assert !Same(o, x, y);
    }
  }

  /** The elements from position p of bucket b on. */
  function From<E>(bs: Buckets<E>, b: nat, p: nat): seq<E>
    requires b < |bs| ==> p <= |bs[b]|
  {
    if b < |bs| then bs[b][p..] + Flatten(bs[b + 1..]) else []
  }

  lemma FromNextBucket<E>(bs: Buckets<E>, b: nat)
    requires b < |bs|
    ensures From(bs, b, |bs[b]|) == From(bs, b + 1, 0)
  {
    assert b + 1 < |bs| ==> bs[b + 1..][1..] == bs[b + 2..];
  }

  lemma FromHead<E>(bs: Buckets<E>, b: nat, p: nat)
    requires b < |bs| && p < |bs[b]|
    ensures From(bs, b, p) == [bs[b][p]] + From(bs, b, p + 1)
  {
  }

  lemma FromStart<E>(bs: Buckets<E>)
    requires |bs| > 0
    ensures From(bs, 0, 0) == Flatten(bs)
  {
  }

  /** struct hash_iterator: a bucket and a position in it, -1 for the list's head. */
  class Iterator<E> {
    const buckets: Buckets<E>
    var bucket: nat
    var pos: int

    ghost predicate Valid()
      reads this
    {
      bucket < |buckets| ==> -1 <= pos < |buckets[bucket]|
    }

    predicate Done()
      reads this
    {
      bucket >= |buckets|
    }

    /** What hash_next() will still return. */
    ghost function Remaining(): seq<E>
      requires Valid()
      reads this
    {
      From(buckets, bucket, if Done() then 0 else pos + 1)
    }

    /** hash_first(). */
    constructor (buckets: Buckets<E>)
      requires |buckets| > 0
      ensures Valid() && !Done() && this.buckets == buckets && Remaining() == Flatten(buckets)
    {
      this.buckets, bucket, pos := buckets, 0, -1;
      FromStart(buckets);
    }

    /** hash_next(). */
    method Next() returns (r: Option<E>)
      requires Valid() && !Done()
      modifies this
      ensures Valid()
      ensures old(Remaining()) == [] ==> r.None? && Done()
      ensures old(Remaining()) != [] ==>
              !Done() && r == Some(old(Remaining())[0]) && Remaining() == old(Remaining())[1..]
    {
      hide From;
      ghost var rest := Remaining();
      var p := pos + 1;
      while p == |buckets[bucket]|
        invariant bucket < |buckets| && 0 <= p <= |buckets[bucket]|
        invariant rest == From(buckets, bucket, p)
        decreases |buckets| - bucket
      {
        FromNextBucket(buckets, bucket);
        bucket, p := bucket + 1, 0;
        if bucket >= |buckets| {
          EndIsEmpty(buckets, bucket);
          return None;
        }
      }
      FromHead(buckets, bucket, p);
      pos := p;
      r := Some(buckets[bucket][p]);
    }
  }

  lemma EndIsEmpty<E>(bs: Buckets<E>, b: nat)
    requires b >= |bs|
    ensures From(bs, b, 0) == []
  {
  }
}
