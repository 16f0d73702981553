/** What a file includes, directly or not, and what includes it (src/includegraph.c). */
module IncludeGraphs {
  import opened Seqs

  datatype IncludeEdge = IncludeEdge(includer: int, included: int)

  /** edges is sorted by includer, edgesByIncluded holds the same edges sorted by included. */
  datatype IncludeGraph = IncludeGraph(edges: seq<IncludeEdge>, edgesByIncluded: seq<IncludeEdge>)

  ghost predicate ByIncluder(edges: seq<IncludeEdge>) {
    forall i, j :: 0 <= i < j < |edges| ==> edges[i].includer <= edges[j].includer
  }

  ghost predicate ByIncluded(edges: seq<IncludeEdge>) {
    forall i, j :: 0 <= i < j < |edges| ==> edges[i].included <= edges[j].included
  }

  /** What buildIncludeGraph leaves behind: both orders of the same edges. */
  ghost predicate Sorted(g: IncludeGraph) {
    && ByIncluder(g.edges) && ByIncluded(g.edgesByIncluded) && |g.edges| == |g.edgesByIncluded|
    && forall e :: e in g.edges <==> e in g.edgesByIncluded
  }

  // a includes b.
  ghost predicate Includes(g: IncludeGraph, a: int, b: int) {
    IncludeEdge(a, b) in g.edges
  }

  // a includes b through n files in between.
  ghost predicate IncludesThrough(g: IncludeGraph, a: int, b: int, n: nat)
    decreases n
  {
    if n == 0 then Includes(g, a, b) else exists c :: IncludesThrough(g, a, c, n - 1) && Includes(g, c, b)
  }

  /** a includes b, directly or through other files. */
  ghost predicate Reaches(g: IncludeGraph, a: int, b: int) {
    exists n: nat :: IncludesThrough(g, a, b, n)
  }

  // The same graph, read the other way round.
  ghost function Converse(g: IncludeGraph): IncludeGraph {
    IncludeGraph(Flipped(g.edgesByIncluded), Flipped(g.edges))
  }

  function Flipped(edges: seq<IncludeEdge>): seq<IncludeEdge> {
    seq(|edges|, i requires 0 <= i < |edges| => IncludeEdge(edges[i].included, edges[i].includer))
  }

  lemma FlippedHas(edges: seq<IncludeEdge>, a: int, b: int)
    ensures IncludeEdge(a, b) in Flipped(edges) <==> IncludeEdge(b, a) in edges
  {
    if IncludeEdge(b, a) in edges {
      var i :| 0 <= i < |edges| && edges[i] == IncludeEdge(b, a);
      assert Flipped(edges)[i] == IncludeEdge(a, b);
    }
  }

  lemma ReachesStep(g: IncludeGraph, a: int, c: int, b: int)
    requires Reaches(g, a, c) && Includes(g, c, b)
    ensures Reaches(g, a, b)
  {
    var n: nat :| IncludesThrough(g, a, c, n);
    assert IncludesThrough(g, a, b, n + 1);
  }

  // First b, then what b reaches.
  lemma {:induction false} ReachesFirst(g: IncludeGraph, a: int, b: int, c: int, n: nat)
    requires Includes(g, a, b) && IncludesThrough(g, b, c, n)
    ensures Reaches(g, a, c)
    decreases n
  {
    if n == 0 {
      assert IncludesThrough(g, a, b, 0);
      ReachesStep(g, a, b, c);
    } else {
      var d :| IncludesThrough(g, b, d, n - 1) && Includes(g, d, c);
      ReachesFirst(g, a, b, d, n - 1);
      ReachesStep(g, a, d, c);
    }
  }

  // A set that holds what a includes, and what its members include, holds all that a reaches.
  lemma {:induction false} ReachesWithin(g: IncludeGraph, a: int, s: iset<int>, b: int, n: nat)
    requires IncludesThrough(g, a, b, n) && forall c, d :: (c == a || c in s) && Includes(g, c, d) ==> d in s
    ensures b in s
    decreases n
  {
    if n > 0 {
      var c :| IncludesThrough(g, a, c, n - 1) && Includes(g, c, b);
      ReachesWithin(g, a, s, c, n - 1);
    }
  }

  /** The converse relation: b reaches a in the converse graph just if a reaches b. */
  lemma ConverseReaches(g: IncludeGraph, a: int, b: int)
    requires Sorted(g)
    ensures Reaches(Converse(g), b, a) <==> Reaches(g, a, b)
  {
    ConverseSorted(g);
    if Reaches(g, a, b) {
      var n: nat :| IncludesThrough(g, a, b, n);
      ConverseThrough(g, Converse(g), a, b, n);
    }
    if Reaches(Converse(g), b, a) {
      var n: nat :| IncludesThrough(Converse(g), b, a, n);
      ConverseThrough(Converse(g), g, b, a, n);
    }
  }

  lemma ConverseSorted(g: IncludeGraph)
    requires Sorted(g)
    ensures Sorted(Converse(g)) && forall a, b :: Includes(Converse(g), a, b) <==> Includes(g, b, a)
  {
    forall a, b
      ensures IncludeEdge(a, b) in Flipped(g.edges) <==> IncludeEdge(b, a) in g.edges
      ensures IncludeEdge(a, b) in Flipped(g.edgesByIncluded) <==> IncludeEdge(b, a) in g.edges
    {
      FlippedHas(g.edges, a, b);
      FlippedHas(g.edgesByIncluded, a, b);
    }
    forall e
      ensures e in Flipped(g.edges) <==> e in Flipped(g.edgesByIncluded)
    {
      assert e == IncludeEdge(e.includer, e.included);
    }
  }

  lemma {:induction false} ConverseThrough(g: IncludeGraph, h: IncludeGraph, a: int, b: int, n: nat)
    requires IncludesThrough(g, a, b, n) && forall c, d :: Includes(g, c, d) ==> Includes(h, d, c)
    ensures Reaches(h, b, a)
    decreases n
  {
    if n == 0 {
      assert IncludesThrough(h, b, a, 0);
    } else {
      var c :| IncludesThrough(g, a, c, n - 1) && Includes(g, c, b);
      ConverseThrough(g, h, a, c, n - 1);
      var k: nat :| IncludesThrough(h, c, a, k);
      ReachesFirst(h, b, c, a, k);
    }
  }

  // firstEdgeOf
  method FirstEdgeOf(g: IncludeGraph, includer: int) returns (low: nat)
    requires ByIncluder(g.edges)
    ensures low <= |g.edges| && (forall i :: 0 <= i < low ==> g.edges[i].includer < includer)
    ensures forall i :: low <= i < |g.edges| ==> g.edges[i].includer >= includer
  {
    low := 0;
    var high := |g.edges|;
    while low < high
      invariant low <= high <= |g.edges|
      invariant forall i :: 0 <= i < low ==> g.edges[i].includer < includer
      invariant forall i :: high <= i < |g.edges| ==> g.edges[i].includer >= includer
    {
      var middle := low + (high - low) / 2;
      if g.edges[middle].includer < includer {
        low := middle + 1;
      } else {
        high := middle;
      }
    }
  }

  // firstEdgeIncluding
  method FirstEdgeIncluding(g: IncludeGraph, included: int) returns (low: nat)
    requires ByIncluded(g.edgesByIncluded)
    ensures low <= |g.edgesByIncluded| && (forall i :: 0 <= i < low ==> g.edgesByIncluded[i].included < included)
    ensures forall i :: low <= i < |g.edgesByIncluded| ==> g.edgesByIncluded[i].included >= included
  {
    low := 0;
    var high := |g.edgesByIncluded|;
    while low < high
      invariant low <= high <= |g.edgesByIncluded|
      invariant forall i :: 0 <= i < low ==> g.edgesByIncluded[i].included < included
      invariant forall i :: high <= i < |g.edgesByIncluded| ==> g.edgesByIncluded[i].included >= included
    {
      var middle := low + (high - low) / 2;
      if g.edgesByIncluded[middle].included < included {
        low := middle + 1;
      } else {
        high := middle;
      }
    }
  }

  /** The files collected so far: the first `count` of fileNumbers, or as many as it holds. */
  class CollectedFiles {
    const fileNumbers: array<int>
    var count: nat

    // storedCount
    function StoredCount(): (n: nat)
      reads this
      ensures n <= fileNumbers.Length
    {
      if count < fileNumbers.Length then count else fileNumbers.Length
    }

    ghost function Stored(): seq<int>
      reads this, fileNumbers
    {
      fileNumbers[..StoredCount()]
    }

    /** What has been collected of the files that `from` reaches: each stored file once; and if there are more
        than can be stored, one that is not stored shows it. */
    ghost predicate Collected(g: IncludeGraph, from: int)
      reads this, fileNumbers
    {
      && Distinct(Stored()) && (forall b :: b in Stored() ==> Reaches(g, from, b))
      && (count > fileNumbers.Length ==> exists b :: b !in Stored() && Reaches(g, from, b))
    }

    constructor (fileNumbers: array<int>)
      ensures this.fileNumbers == fileNumbers && count == 0
    {
      this.fileNumbers, count := fileNumbers, 0;
    }

    // isCollected
    method IsCollected(fileNumber: int) returns (found: bool)
      ensures found <==> fileNumber in Stored()
    {
      for i := 0 to StoredCount()
        invariant fileNumber !in fileNumbers[..i]
      {
        if fileNumbers[i] == fileNumber {
          assert Stored()[i] == fileNumber;
          return true;
        }
      }
      found := false;
    }

    // One file, if it has not been collected: the body of the loops of collectIncludedBy and collectIncludersOf.
    method Collect(ghost g: IncludeGraph, ghost from: int, file: int)
      requires Collected(g, from) && Reaches(g, from, file)
      modifies this, fileNumbers
      ensures Collected(g, from) && old(Stored()) <= Stored() && count >= old(count)
      ensures file in Stored() || count > fileNumbers.Length
    {
      var found := IsCollected(file);
      if !found {
        ghost var stored := Stored();
        if count < fileNumbers.Length {
          fileNumbers[count] := file;
          assert fileNumbers[..count + 1] == stored + [file];
        }
        count := count + 1;
      }
    }

    /** collectIncludedBy: the files that `includer` includes. */
    method CollectIncludedBy(g: IncludeGraph, ghost from: int, includer: int)
      requires Sorted(g) && Collected(g, from) && (includer == from || Reaches(g, from, includer))
      modifies this, fileNumbers
      ensures Collected(g, from) && old(Stored()) <= Stored() && count >= old(count)
      ensures count <= fileNumbers.Length ==> forall b :: Includes(g, includer, b) ==> b in Stored()
    {
      hide Reaches;
      var i := FirstEdgeOf(g, includer);
      ghost var first := i;
      while i < |g.edges| && g.edges[i].includer == includer
        invariant first <= i <= |g.edges| && Collected(g, from) && old(Stored()) <= Stored() && count >= old(count)
        invariant count <= fileNumbers.Length ==> forall k :: first <= k < i ==> g.edges[k].included in Stored()
      {
        assert Includes(g, includer, g.edges[i].included) by {
          assert g.edges[i] == IncludeEdge(includer, g.edges[i].included);
        }
        NextReached(g, from, includer, g.edges[i].included);
        Collect(g, from, g.edges[i].included);
        i := i + 1;
      }
    }

    /** collectIncludersOf: the files that include `included`. */
    method CollectIncludersOf(g: IncludeGraph, ghost from: int, included: int)
      requires Sorted(g) && Collected(Converse(g), from) && (included == from || Reaches(Converse(g), from, included))
      modifies this, fileNumbers
      ensures Collected(Converse(g), from) && old(Stored()) <= Stored() && count >= old(count)
      ensures count <= fileNumbers.Length ==> forall b :: Includes(Converse(g), included, b) ==> b in Stored()
    {
      hide Reaches;
      ghost var h := Converse(g);
      ConverseSorted(g);
      var i := FirstEdgeIncluding(g, included);
      ghost var first := i;
      while i < |g.edgesByIncluded| && g.edgesByIncluded[i].included == included
        invariant first <= i <= |g.edgesByIncluded| && Collected(h, from) && old(Stored()) <= Stored() && count >= old(count)
        invariant count <= fileNumbers.Length ==> forall k :: first <= k < i ==> g.edgesByIncluded[k].includer in Stored()
      {
        assert Includes(g, g.edgesByIncluded[i].includer, included) by {
          assert g.edgesByIncluded[i] == IncludeEdge(g.edgesByIncluded[i].includer, included);
        }
        NextReached(h, from, included, g.edgesByIncluded[i].includer);
        Collect(h, from, g.edgesByIncluded[i].includer);
        i := i + 1;
      }
    }
  }

  lemma NextReached(g: IncludeGraph, from: int, a: int, b: int)
    requires (a == from || Reaches(g, from, a)) && Includes(g, a, b)
    ensures Reaches(g, from, b)
  {
    if Reaches(g, from, a) {
      ReachesStep(g, from, a, b);
    } else {
      assert IncludesThrough(g, from, b, 0);
    }
  }

  /** What the result of a collection says, when n places were to be filled: if count is at most n, the first
      count places hold each file that `from` reaches, once; otherwise there are more than n of them. */
  ghost predicate Answers(g: IncludeGraph, from: int, count: nat, places: seq<int>) {
    if count <= |places| then Distinct(places[..count]) && forall b :: b in places[..count] <==> Reaches(g, from, b)
    else exists q :: |q| == |places| + 1 && Distinct(q) && forall b :: b in q ==> Reaches(g, from, b)
  }

  // The stored files are closed under inclusion, up to the i-th.
  ghost predicate ClosedTo(g: IncludeGraph, from: int, stored: seq<int>, i: nat) {
    i <= |stored| && forall c, d :: (c == from || c in stored[..i]) && Includes(g, c, d) ==> d in stored
  }

  lemma ClosedMore(g: IncludeGraph, from: int, stored: seq<int>, stored': seq<int>, i: nat)
    requires i < |stored| && ClosedTo(g, from, stored, i) && stored <= stored'
    requires forall b :: Includes(g, stored[i], b) ==> b in stored'
    ensures ClosedTo(g, from, stored', i + 1)
  {
    hide Includes;
    assert stored'[..i + 1] == stored[..i] + [stored[i]];
    assert forall b :: b in stored ==> b in stored';
  }

  lemma CollectedAnswers(g: IncludeGraph, from: int, count: nat, places: seq<int>)
    requires var stored := places[..if count < |places| then count else |places|];
             && Distinct(stored) && (forall b :: b in stored ==> Reaches(g, from, b))
             && (count > |places| ==> exists b :: b !in stored && Reaches(g, from, b))
             && (count <= |places| ==> ClosedTo(g, from, stored, |stored|))
    ensures Answers(g, from, count, places)
  {
    hide Includes;
    if count <= |places| {
      var stored := places[..count];
      assert stored[..|stored|] == stored;
      forall b | Reaches(g, from, b)
        ensures b in stored
      {
        var n: nat :| IncludesThrough(g, from, b, n);
        ReachesWithin(g, from, (iset x | x in stored), b, n);
      }
    } else {
      assert places[..|places|] == places;
      var b :| b !in places && Reaches(g, from, b);
      assert Distinct(places + [b]);
    }
  }

  /** collectIncludeClosure: the array is filled while it is being walked. */
  method CollectIncludeClosure(g: IncludeGraph, fileNumber: int, fileNumbers: array<int>) returns (count: nat)
    requires Sorted(g)
    modifies fileNumbers
    ensures Answers(g, fileNumber, count, fileNumbers[..])
  {
    hide Reaches, Includes, ClosedTo;
    var files := new CollectedFiles(fileNumbers);
    files.CollectIncludedBy(g, fileNumber, fileNumber);
    if files.count <= fileNumbers.Length {
      NothingClosed(g, fileNumber, files.Stored());
    }
    var i := 0;
    while i < files.StoredCount()
      invariant i <= files.StoredCount() && files.Collected(g, fileNumber)
      invariant files.count <= fileNumbers.Length ==> ClosedTo(g, fileNumber, files.Stored(), i)
      decreases fileNumbers.Length - i
    {
      ghost var stored := files.Stored();
      assert fileNumbers[i] == stored[i];
      files.CollectIncludedBy(g, fileNumber, fileNumbers[i]);
      if files.count <= fileNumbers.Length {
        ClosedMore(g, fileNumber, stored, files.Stored(), i);
      }
      i := i + 1;
    }
    count := files.count;
    assert fileNumbers[..files.StoredCount()] == fileNumbers[..][..files.StoredCount()];
    CollectedAnswers(g, fileNumber, count, fileNumbers[..]);
  }

  /** collectIncluderClosure: the same for the converse relation. */
  method CollectIncluderClosure(g: IncludeGraph, fileNumber: int, fileNumbers: array<int>) returns (count: nat)
    requires Sorted(g)
    modifies fileNumbers
    ensures Answers(Converse(g), fileNumber, count, fileNumbers[..])
  {
    hide Reaches, Includes, ClosedTo, Converse;
    ghost var h := Converse(g);
    var files := new CollectedFiles(fileNumbers);
    files.CollectIncludersOf(g, fileNumber, fileNumber);
    if files.count <= fileNumbers.Length {
      NothingClosed(h, fileNumber, files.Stored());
    }
    var i := 0;
    while i < files.StoredCount()
      invariant i <= files.StoredCount() && files.Collected(h, fileNumber)
      invariant files.count <= fileNumbers.Length ==> ClosedTo(h, fileNumber, files.Stored(), i)
      decreases fileNumbers.Length - i
    {
      ghost var stored := files.Stored();
      assert fileNumbers[i] == stored[i];
      files.CollectIncludersOf(g, fileNumber, fileNumbers[i]);
      if files.count <= fileNumbers.Length {
        ClosedMore(h, fileNumber, stored, files.Stored(), i);
      }
      i := i + 1;
    }
    count := files.count;
    assert fileNumbers[..files.StoredCount()] == fileNumbers[..][..files.StoredCount()];
    CollectedAnswers(h, fileNumber, count, fileNumbers[..]);
  }

  lemma NothingClosed(g: IncludeGraph, from: int, stored: seq<int>)
    requires forall b :: Includes(g, from, b) ==> b in stored
    ensures ClosedTo(g, from, stored, 0)
  {
  }

  /** The count is at most n exactly when at most n files are reached. */
  lemma AnswerExact(g: IncludeGraph, from: int, count: nat, places: seq<int>)
    requires Answers(g, from, count, places)
    ensures count <= |places| <==> forall q :: Distinct(q) && (forall b :: b in q ==> Reaches(g, from, b)) ==> |q| <= |places|
  {
    if count <= |places| {
      forall q | Distinct(q) && forall b :: b in q ==> Reaches(g, from, b)
        ensures |q| <= |places|
      {
        Fewer(q, places[..count]);
      }
    }
  }

  lemma {:induction false} Fewer(q: seq<int>, s: seq<int>)
    requires Distinct(q) && forall x :: x in q ==> x in s
    ensures |q| <= |s|
  {
    if q != [] {
      var x, rest := q[|q| - 1], q[..|q| - 1];
      assert x in q;
      var k :| 0 <= k < |s| && s[k] == x;
      var s' := s[..k] + s[k + 1..];
      forall y | y in rest
        ensures y in s'
      {
        assert y in q && y != x;
        var j :| 0 <= j < |s| && s[j] == y;
        assert s'[if j < k then j else j - 1] == y;
      }
      Fewer(rest, s');
    }
  }
}
