/** lib/kernel/bitmap.c: a bitmap packed into 32-bit words, refined to a sequence of
    booleans. */
module Bitmap {

  import opened Lists

  const ELEM_BITS := 32

  // ----- The abstract bitmap -----

  ghost predicate AllAre(b: seq<bool>, start: nat, cnt: nat, value: bool)
  {
    start + cnt <= |b| && forall k :: start <= k < start + cnt ==> b[k] == value
  }

  function SetRange(b: seq<bool>, start: nat, cnt: nat, value: bool): (r: seq<bool>)
    requires start + cnt <= |b|
    ensures |r| == |b|
    ensures forall k :: 0 <= k < |b| ==> r[k] == if start <= k < start + cnt then value else b[k]
  {
    seq(|b|, k requires 0 <= k < |b| => if start <= k < start + cnt then value else b[k])
  }

  /** `r` is the least group of `cnt` bits equal to `value` at or after `start`. */
  ghost predicate IsFirstGroup(b: seq<bool>, start: nat, cnt: nat, value: bool, r: Option<nat>) {
    match r
    case Some(i) =>
      && start <= i && AllAre(b, i, cnt, value)
      && (forall j :: start <= j < i ==> !AllAre(b, j, cnt, value))
    case None => forall j :: start <= j ==> !AllAre(b, j, cnt, value)
  }

  lemma FirstGroupUnique(b: seq<bool>, start: nat, cnt: nat, value: bool, r: Option<nat>, r': Option<nat>)
    requires IsFirstGroup(b, start, cnt, value, r) && IsFirstGroup(b, start, cnt, value, r')
    ensures r == r'
  {
  }

  /** The result of bitmap_scan(). */
  ghost function FirstGroup(b: seq<bool>, start: nat, cnt: nat, value: bool): (r: Option<nat>)
    ensures IsFirstGroup(b, start, cnt, value, r)
    decreases |b| - start
  {
    if start + cnt > |b| then None
    else if AllAre(b, start, cnt, value) then Some(start)
    else if start == |b| then None
    else FirstGroup(b, start + 1, cnt, value)
  }

  /** A group of no bits is found at once, at the start. */
  lemma EmptyGroup(b: seq<bool>, start: nat, value: bool)
    requires start <= |b|
    ensures FirstGroup(b, start, 0, value) == Some(start)
  {
  }

  /** Flipping a group and flipping it back leaves the bitmap as it was. */
  lemma FlipFlop(b: seq<bool>, start: nat, cnt: nat, value: bool)
    requires AllAre(b, start, cnt, value)
    ensures SetRange(SetRange(b, start, cnt, !value), start, cnt, value) == b
  {
  }

  // ----- Words -----

  /** bit_mask(). */
  function Mask(k: nat): bv32
    requires k < ELEM_BITS
  {
    (1 as bv32) << (k as bv8)
  }

  function Overlaps(w: bv32, m: bv32): bool {
    w & m != 0
  }

  function SetBits(w: bv32, m: bv32, value: bool): bv32 {
    if value then w | m else w & !m
  }

  function BitOf(w: bv32, k: nat): bool
    requires k < ELEM_BITS
  {
    Overlaps(w, Mask(k))
  }

  lemma ShiftsDisjoint(j: bv8, k: bv8)
    requires j < 32 && k < 32 && j != k
    ensures ((1 as bv32) << j) & ((1 as bv32) << k) == 0
  {
  }

  lemma ShiftNonZero(j: bv8)
    requires j < 32
    ensures (1 as bv32) << j != 0
  {
  }

  lemma IndexInjective(j: nat, k: nat)
    requires j < 32 && k < 32 && j != k
    ensures j as bv8 != k as bv8
  {
    IndexBack(j);
    IndexBack(k);
  }

  lemma IndexBack(j: nat)
    requires j < 32
    ensures (j as bv8) as int == j
  {
  }

  lemma MasksDisjoint(j: nat, k: nat)
    requires j < 32 && k < 32 && j != k
    ensures Mask(j) & Mask(k) == 0
  {
    IndexInjective(j, k);
    ShiftsDisjoint(j as bv8, k as bv8);
  }

  lemma MaskNonZero(j: nat)
    requires j < 32
    ensures Mask(j) != 0
  {
    ShiftNonZero(j as bv8);
  }

  lemma SetBitsSame(w: bv32, m: bv32, value: bool)
    requires m != 0
    ensures Overlaps(SetBits(w, m, value), m) == value
  {
  }

  lemma SetBitsOther(w: bv32, m: bv32, n: bv32, value: bool)
    requires m & n == 0
    ensures Overlaps(SetBits(w, m, value), n) == Overlaps(w, n)
  {
    hide Overlaps, SetBits;
    if value {
      SetOther(w, m, n);
    } else {
      ClearOther(w, m, n);
    }
  }

  lemma SetOther(w: bv32, m: bv32, n: bv32)
    requires m & n == 0
    ensures Overlaps(SetBits(w, m, true), n) == Overlaps(w, n)
  {
  }

  lemma ClearOther(w: bv32, m: bv32, n: bv32)
    requires m & n == 0
    ensures Overlaps(SetBits(w, m, false), n) == Overlaps(w, n)
  {
    assert SetBits(w, m, false) & n == w & n;
  }

  /** Setting or clearing bit j of a word changes no other bit. */
  lemma WordUpdate(w: bv32, j: nat, k: nat, value: bool)
    requires j < 32 && k < 32
    ensures BitOf(SetBits(w, Mask(j), value), k) == if k == j then value else BitOf(w, k)
  {
    hide Mask, Overlaps, SetBits;
    if j == k {
      MaskNonZero(j);
      SetBitsSame(w, Mask(j), value);
    } else {
      MasksDisjoint(j, k);
      SetBitsOther(w, Mask(j), Mask(k), value);
    }
  }

  /** elem_cnt(). */
  function ElemCnt(bitCnt: nat): nat {
    (bitCnt + ELEM_BITS - 1) / ELEM_BITS
  }

  /** Just enough words of 32 bits. */
  lemma ElemCntHolds(bitCnt: nat)
    ensures 32 * ElemCnt(bitCnt) - 32 < bitCnt <= 32 * ElemCnt(bitCnt)
  {
  }

  class Bitmap {
    const bitCnt: nat
    const bits: array<bv32>

    ghost predicate Valid()
      reads this
    {
      bits.Length == ElemCnt(bitCnt)
    }

    /** The bits, in order. */
    ghost function Contents(): (b: seq<bool>)
      requires Valid()
      reads this, bits
      ensures |b| == bitCnt
    {
      seq(bitCnt, i requires 0 <= i < bitCnt reads this, bits =>
        bits.Length == ElemCnt(bitCnt) && BitOf(bits[i / ELEM_BITS], i % ELEM_BITS))
    }

    /** bitmap_create(). */
    constructor (n: nat)
      ensures Valid() && fresh(bits) && bitCnt == n
      ensures Contents() == seq(n, i => false)
    {
      bitCnt := n;
      bits := new bv32[ElemCnt(n)](i => 0);
    }

    /** bitmap_test(). */
    method Test(idx: nat) returns (value: bool)
      requires Valid() && idx < bitCnt
      ensures value == Contents()[idx]
    {
      value := bits[idx / ELEM_BITS] & Mask(idx % ELEM_BITS) != 0;
    }

    /** bitmap_set(), by way of bitmap_mark() and bitmap_reset(). */
    method Set(idx: nat, value: bool)
      requires Valid() && idx < bitCnt
      modifies bits
      ensures Contents() == old(Contents())[idx := value]
    {
      hide Mask, BitOf, SetBits;
      var e := idx / ELEM_BITS;
      bits[e] := SetBits(bits[e], Mask(idx % ELEM_BITS), value);
      forall i | 0 <= i < bitCnt ensures Contents()[i] == old(Contents())[idx := value][i] {
        if i / ELEM_BITS == e {
          WordUpdate(old(bits[e]), idx % ELEM_BITS, i % ELEM_BITS, value);
          assert i % ELEM_BITS == idx % ELEM_BITS ==> i == idx;
        }
      }
    }

    /** bitmap_set_multiple(). */
    method SetMultiple(start: nat, cnt: nat, value: bool)
      requires Valid() && start + cnt <= bitCnt
      modifies bits
      ensures Contents() == SetRange(old(Contents()), start, cnt, value)
    {
      ghost var before := Contents();
      var i := 0;
      while i < cnt
        invariant 0 <= i <= cnt
        invariant Contents() == SetRange(before, start, i, value)
      {
        Set(start + i, value);
        i := i + 1;
        assert Contents() == SetRange(before, start, i, value);
      }
    }

    /** bitmap_contains(). */
    method ContainsValue(start: nat, cnt: nat, value: bool) returns (found: bool)
      requires Valid() && start + cnt <= bitCnt
      ensures found <==> !AllAre(Contents(), start, cnt, !value)
    {
      var i := 0;
      while i < cnt
        invariant 0 <= i <= cnt
        invariant AllAre(Contents(), start, i, !value)
      {
        var bit := Test(start + i);
        if bit == value {
          return true;
        }
        i := i + 1;
      }
      return false;
    }

    /** bitmap_scan(); None stands for BITMAP_ERROR. */
    method Scan(start: nat, cnt: nat, value: bool) returns (r: Option<nat>)
      requires Valid() && start <= bitCnt
      ensures IsFirstGroup(Contents(), start, cnt, value, r)
    {
      if cnt <= bitCnt {
        var last := bitCnt - cnt;
        var i := start;
        while i <= last
          invariant start <= i
          invariant forall j :: start <= j < i ==> !AllAre(Contents(), j, cnt, value)
          decreases last + 1 - i
        {
          var other := ContainsValue(i, cnt, !value);
          if !other {
            return Some(i);
          }
          i := i + 1;
        }
      }
      return None;
    }

    /** bitmap_scan_and_flip(): the least group of `cnt` bits equal to `value`, or none when
        there is none, and exactly those bits are flipped. */
    method ScanAndFlip(start: nat, cnt: nat, value: bool) returns (r: Option<nat>)
      requires Valid() && start <= bitCnt
      modifies bits
      ensures IsFirstGroup(old(Contents()), start, cnt, value, r)
      ensures r.None? ==> Contents() == old(Contents())
      ensures r.Some? ==> r.value + cnt <= bitCnt && Contents() == SetRange(old(Contents()), r.value, cnt, !value)
    {
      r := Scan(start, cnt, value);
      if r.Some? {
        SetMultiple(r.value, cnt, !value);
      }
    }
  }
}
