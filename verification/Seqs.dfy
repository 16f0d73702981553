/** Facts about sequences that several modules use. */
module Seqs {
  ghost predicate Distinct<T(!new)>(q: seq<T>) {
    forall j, k :: 0 <= j < k < |q| ==> q[j] != q[k]
  }

  ghost function Elems<T>(q: seq<T>): set<T> {
    set x | x in q
  }

  lemma {:induction false} Pigeonhole(q: seq<nat>, n: nat)
    requires Distinct(q) && forall k :: 0 <= k < |q| ==> q[k] < n
    ensures |q| <= n
  {
    if n > 0 {
      if exists k :: 0 <= k < |q| && q[k] == n - 1 {
        var k :| 0 <= k < |q| && q[k] == n - 1;
        var rest := q[..k] + q[k + 1..];
        assert forall j :: 0 <= j < |rest| ==> rest[j] == q[if j < k then j else j + 1];
        Pigeonhole(rest, n - 1);
      } else {
        Pigeonhole(q, n - 1);
      }
    }
  }

  ghost predicate StrictlyIncreasing(q: seq<int>) {
    forall j, k :: 0 <= j < k < |q| ==> q[j] < q[k]
  }

  lemma AppendIncreasing(q: seq<int>, x: int)
    requires StrictlyIncreasing(q) && forall y :: y in q ==> y < x
    ensures StrictlyIncreasing(q + [x])
    ensures forall y :: y in q + [x] <==> y in q || y == x
  {
    assert forall k :: 0 <= k < |q| ==> q[k] in q;
  }

  lemma HasElement<T>(q: seq<T>)
    ensures q != [] ==> exists x :: x in q
  {
    if q != [] {
      assert q[0] in q;
    }
  }

  lemma {:induction false} SortedUnique(p: seq<int>, q: seq<int>)
    requires StrictlyIncreasing(p) && StrictlyIncreasing(q) && forall x :: x in p <==> x in q
    ensures p == q
  {
    assert (p != [] ==> p[0] in p && p[0] in q) && (q != [] ==> q[0] in q && q[0] in p);
    if p != [] && q != [] {
      var m, n := |p| - 1, |q| - 1;
      assert p[m] in q && q[n] in p;
      WithoutLast(p);
      WithoutLast(q);
      assert p[m] == q[n];
      forall x
        ensures x in p[..m] <==> x in q[..n]
      {
        assert x in p <==> x in q;
      }
      SortedUnique(p[..m], q[..n]);
    }
  }

  lemma WithoutLast(q: seq<int>)
    requires StrictlyIncreasing(q) && q != []
    ensures forall x :: x in q ==> x <= q[|q| - 1]
    ensures forall x :: x in q[..|q| - 1] <==> x in q && x != q[|q| - 1]
    ensures StrictlyIncreasing(q[..|q| - 1]) && q == q[..|q| - 1] + [q[|q| - 1]]
  {
  }
}
