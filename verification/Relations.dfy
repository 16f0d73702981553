/** Paths in a finite directed graph, given by the successor set of each vertex. */
module Relations {
  type Graph = seq<set<nat>>

  ghost predicate InRange(g: Graph) {
    forall i, j :: 0 <= i < |g| && j in g[i] ==> j < |g|
  }

  ghost predicate IsPath(g: Graph, p: seq<nat>) {
    && |p| > 0
    && (forall k :: 0 <= k < |p| ==> p[k] < |g|)
    && (forall k :: 0 < k < |p| ==> p[k] in g[p[k - 1]])
  }

  // j is i, or is reached from i along edges.
  ghost predicate Reach(g: Graph, i: nat, j: nat) {
    exists p :: IsPath(g, p) && p[0] == i && p[|p| - 1] == j
  }

  // j is reached from i along at least one edge.
  ghost predicate ReachPlus(g: Graph, i: nat, j: nat) {
    i < |g| && exists k :: k in g[i] && Reach(g, k, j)
  }

  lemma ReachRefl(g: Graph, i: nat)
    requires i < |g|
    ensures Reach(g, i, i)
  {
    assert IsPath(g, [i]);
  }

  lemma ReachStep(g: Graph, i: nat, k: nat, j: nat)
    requires Reach(g, i, k) && j < |g| && j in g[k]
    ensures Reach(g, i, j)
  {
    var p :| IsPath(g, p) && p[0] == i && p[|p| - 1] == k;
    assert IsPath(g, p + [j]);
  }

  lemma ReachTrans(g: Graph, i: nat, k: nat, j: nat)
    requires Reach(g, i, k) && Reach(g, k, j)
    ensures Reach(g, i, j)
  {
    var p :| IsPath(g, p) && p[0] == i && p[|p| - 1] == k;
    var q :| IsPath(g, q) && q[0] == k && q[|q| - 1] == j;
    var r := p + q[1..];
    assert r[|r| - 1] == j;
    forall n | 0 < n < |r|
      ensures r[n] in g[r[n - 1]]
    {
      if n >= |p| {
        assert r[n] == q[n - |p| + 1] && r[n - 1] == q[n - |p|];
      }
    }
    assert IsPath(g, r);
  }

  lemma EdgeReach(g: Graph, i: nat, j: nat)
    requires i < |g| && j < |g| && j in g[i]
    ensures Reach(g, i, j)
  {
    ReachRefl(g, i);
    ReachStep(g, i, i, j);
  }

  // Whatever contains i and is closed under edges contains all that i reaches.
  lemma ReachLeast(g: Graph, s: iset<nat>, i: nat, j: nat)
    requires i in s && forall a, b :: a in s && a < |g| && b in g[a] ==> b in s
    requires Reach(g, i, j)
    ensures j in s
  {
    var p :| IsPath(g, p) && p[0] == i && p[|p| - 1] == j;
    PathStays(g, s, p, |p| - 1);
  }

  lemma {:induction false} PathStays(g: Graph, s: iset<nat>, p: seq<nat>, k: nat)
    requires IsPath(g, p) && p[0] in s && k < |p|
    requires forall a, b :: a in s && a < |g| && b in g[a] ==> b in s
    ensures p[k] in s
  {
    if k > 0 {
      PathStays(g, s, p, k - 1);
    }
  }

  // A path is empty or starts with an edge.
  lemma ReachFirst(g: Graph, i: nat, j: nat)
    requires Reach(g, i, j)
    ensures i < |g| && j < |g| && (i == j || ReachPlus(g, i, j))
  {
    var p :| IsPath(g, p) && p[0] == i && p[|p| - 1] == j;
    if |p| > 1 {
      var q := p[1..];
      assert forall n :: 0 < n < |q| ==> q[n] in g[q[n - 1]] by {
        forall n | 0 < n < |q| ensures q[n] in g[q[n - 1]] {
          assert q[n] == p[n + 1] && q[n - 1] == p[n];
        }
      }
      assert IsPath(g, q) && q[0] in g[i] && q[|q| - 1] == j;
    }
  }

  // A path is empty or ends with an edge.
  lemma ReachLast(g: Graph, i: nat, j: nat) returns (k: nat)
    requires Reach(g, i, j) && i != j
    ensures Reach(g, i, k) && k < |g| && j in g[k]
  {
    var p :| IsPath(g, p) && p[0] == i && p[|p| - 1] == j;
    k := p[|p| - 2];
    assert IsPath(g, p[..|p| - 1]);
  }
}
