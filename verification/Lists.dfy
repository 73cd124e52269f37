/** Pintos's intrusive doubly linked lists, modelled as sequences without duplicates. */
module Lists {

  datatype Option<+T> = None | Some(value: T)

  ghost predicate NoDup<T>(q: seq<T>) {
    forall i, j :: 0 <= i < j < |q| ==> q[i] != q[j]
  }

  function RemoveAt<T>(q: seq<T>, i: nat): (r: seq<T>)
    requires i < |q|
    ensures |r| == |q| - 1
  {
    q[..i] + q[i + 1..]
  }

  lemma RemoveAtElements<T>(q: seq<T>, i: nat)
    requires i < |q| && NoDup(q)
    ensures NoDup(RemoveAt(q, i))
    ensures forall t :: t in RemoveAt(q, i) <==> t in q && t != q[i]
  {
    var r := RemoveAt(q, i);
    forall t | t in q && t != q[i] ensures t in r {
      var k :| 0 <= k < |q| && q[k] == t;
      assert r[if k < i then k else k - 1] == t;
    }
  }

  function Filter<T>(q: seq<T>, keep: T -> bool): (r: seq<T>) {
    if q == [] then []
    else if keep(q[|q| - 1]) then Filter(q[..|q| - 1], keep) + [q[|q| - 1]]
    else Filter(q[..|q| - 1], keep)
  }

  lemma {:induction false} FilterElements<T>(q: seq<T>, keep: T -> bool)
    ensures forall t :: t in Filter(q, keep) <==> t in q && keep(t)
    ensures NoDup(q) ==> NoDup(Filter(q, keep))
  {
    if q != [] {
      var front := q[..|q| - 1];
      FilterElements(front, keep);
      assert q == front + [q[|q| - 1]];
      if NoDup(q) {
        assert NoDup(front);
        assert q[|q| - 1] !in front;
      }
    }
  }

  lemma FilterSnoc<T>(q: seq<T>, i: nat, keep: T -> bool)
    requires i < |q|
    ensures Filter(q[..i + 1], keep) == Filter(q[..i], keep) + (if keep(q[i]) then [q[i]] else [])
  {
    assert q[..i + 1][..i] == q[..i];
  }

  lemma NoDupAppend<T>(p: seq<T>, q: seq<T>)
    requires NoDup(p) && NoDup(q) && forall t :: t in p ==> t !in q
    ensures NoDup(p + q)
  {
    var r := p + q;
    forall i, j | 0 <= i < j < |r| ensures r[i] != r[j] {
      if i < |p| <= j {
        assert r[i] in p && r[j] in q;
      }
    }
  }

  lemma SubsetSize<T>(a: set<T>, b: set<T>)
    requires a <= b
    ensures |a| <= |b| && (|a| == |b| <==> a == b)
  {
    assert b == a + (b - a);
    assert |b| == |a| + |b - a|;
  }
}
