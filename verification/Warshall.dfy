/** In-place transitive closure on packed bit rows (byacc-1.9/warshall.c). */
module Warshall {
  import opened BitRows
  import opened Relations

  // Each row already contains the rows of its elements below n.
  ghost predicate ClosedBelow(g: Graph, n: nat) {
    forall j, m {:trigger g[m], g[j]} :: 0 <= j < |g| && 0 <= m < n && m < |g| && m in g[j] ==> g[m] <= g[j]
  }

  // One pass of the outer loop: rows that contain i take in row i.
  function Absorb(g: Graph, i: nat): Graph
    requires i < |g|
  {
    seq(|g|, j requires 0 <= j < |g| => if i in g[j] then g[j] + g[i] else g[j])
  }

  lemma AbsorbCloses(g: Graph, i: nat)
    requires i < |g| && ClosedBelow(g, i)
    ensures ClosedBelow(Absorb(g, i), i + 1)
  {
  }

  // g lies between the edge relation e and its transitive closure.
  ghost predicate Between(e: Graph, g: Graph) {
    && |g| == |e| && InRange(g)
    && (forall j :: 0 <= j < |g| ==> e[j] <= g[j])
    && (forall j, m :: 0 <= j < |g| && m in g[j] ==> ReachPlus(e, j, m))
  }

  lemma PlusTrans(e: Graph, i: nat, k: nat, j: nat)
    requires ReachPlus(e, i, k) && ReachPlus(e, k, j)
    ensures ReachPlus(e, i, j)
  {
    var a :| a in e[i] && Reach(e, a, k);
    var b :| b in e[k] && Reach(e, b, j);
    ReachFirst(e, b, j);
    ReachStep(e, a, k, b);
    ReachTrans(e, a, b, j);
  }

  lemma AbsorbBetween(e: Graph, g: Graph, i: nat)
    requires Between(e, g) && i < |g|
    ensures Between(e, Absorb(g, i))
  {
    var g' := Absorb(g, i);
    forall j, m | 0 <= j < |g'| && m in g'[j]
      ensures ReachPlus(e, j, m)
    {
      if m !in g[j] {
        PlusTrans(e, j, i, m);
      }
    }
  }

  // A transitive relation that contains e contains everything reached along edges of e.
  lemma ClosedContains(e: Graph, g: Graph, i: nat, j: nat)
    requires |g| == |e| && InRange(e) && InRange(g) && ClosedBelow(g, |g|)
    requires forall j :: 0 <= j < |g| ==> e[j] <= g[j]
    requires ReachPlus(e, i, j)
    ensures j in g[i]
  {
    var k :| k in e[i] && Reach(e, k, j);
    var s := iset m: nat | m in g[i];
    forall a, b | a in s && a < |e| && b in e[a]
      ensures b in s
    {
      assert g[a] <= g[i];
    }
    ReachLeast(e, s, k, j);
  }

  lemma ClosureExact(e: Graph, g: Graph)
    requires InRange(e) && Between(e, g) && ClosedBelow(g, |g|)
    ensures forall i, j: nat :: 0 <= i < |g| ==> (j in g[i] <==> ReachPlus(e, i, j))
  {
    forall i, j: nat | 0 <= i < |g| && ReachPlus(e, i, j)
      ensures j in g[i]
    {
      ClosedContains(e, g, i, j);
    }
  }

  lemma EdgesBetween(e: Graph)
    requires InRange(e)
    ensures Between(e, e)
  {
    forall j, k | 0 <= j < |e| && k in e[j]
      ensures ReachPlus(e, j, k)
    {
      ReachRefl(e, k);
    }
  }

  // The inner loop, over all rows, for column i.
  method AbsorbRows(m: BitMatrix, i: nat)
    requires m.Valid() && i < m.nrows <= 32 * m.rowsize
    modifies m, m.words
    ensures m.Valid() && m.rows == Absorb(old(m.rows), i)
  {
    ghost var g := m.rows;
    var j := 0;
    while j < m.nrows
      invariant 0 <= j <= m.nrows && m.Valid()
      invariant forall k :: 0 <= k < j ==> m.rows[k] == Absorb(g, i)[k]
      invariant forall k :: j <= k < m.nrows ==> m.rows[k] == g[k]
    {
      var hit := m.Bit(j, i);
      if hit {
        assert m.rows[i] == g[i];
        m.OrRow(j, i);
      }
      j := j + 1;
    }
  }

  method TransitiveClosure(m: BitMatrix)
    requires m.Valid() && m.nrows <= 32 * m.rowsize && InRange(m.rows)
    modifies m, m.words
    ensures m.Valid() && |m.rows| == |old(m.rows)|
    ensures forall i, j: nat :: 0 <= i < m.nrows ==> (j in m.rows[i] <==> ReachPlus(old(m.rows), i, j))
  {
    ghost var e := m.rows;
    EdgesBetween(e);
    var i := 0;
    while i < m.nrows
      invariant 0 <= i <= m.nrows && m.Valid()
      invariant Between(e, m.rows) && ClosedBelow(m.rows, i)
    {
      AbsorbCloses(m.rows, i);
      AbsorbBetween(e, m.rows, i);
      AbsorbRows(m, i);
      i := i + 1;
    }
    ClosureExact(e, m.rows);
  }

  method ReflexiveTransitiveClosure(m: BitMatrix)
    requires m.Valid() && m.nrows <= 32 * m.rowsize && InRange(m.rows)
    modifies m, m.words
    ensures m.Valid() && |m.rows| == |old(m.rows)|
    ensures forall i, j :: 0 <= i < m.nrows ==> (j in m.rows[i] <==> Reach(old(m.rows), i, j))
  {
    ghost var e := m.rows;
    TransitiveClosure(m);
    ghost var g := m.rows;
    var i := 0;
    while i < m.nrows
      invariant 0 <= i <= m.nrows && m.Valid()
      invariant forall k :: 0 <= k < i ==> m.rows[k] == g[k] + {k}
      invariant forall k :: i <= k < m.nrows ==> m.rows[k] == g[k]
    {
      m.SetBit(i, i);
      i := i + 1;
    }
    forall i, j: nat | 0 <= i < m.nrows
      ensures j in m.rows[i] <==> Reach(e, i, j)
    {
      if Reach(e, i, j) {
        ReachFirst(e, i, j);
      }
      if i == j {
        ReachRefl(e, i);
      } else if ReachPlus(e, i, j) {
        var k :| k in e[i] && Reach(e, k, j);
        EdgeReach(e, i, k);
        ReachTrans(e, i, k, j);
      }
    }
  }
}
