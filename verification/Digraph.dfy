/** The strongly-connected-component traversal that spreads token sets over a relation
    (byacc-1.9/lalr.c, digraph and traverse). */
module Digraph {
  import Lr0
  import opened BitRows
  import opened Relations
  import opened Seqs

  // Token t is in the initial set of some vertex that v reaches.
  ghost predicate Collects(g: Graph, f0: seq<set<nat>>, v: nat, t: nat)
    requires |f0| == |g|
  {
    exists w: nat :: Reach(g, v, w) && w < |g| && t in f0[w]
  }

  /** What the arrays hold: the sets F, INDEX, and the VERTICES stack from the bottom. INDEX is 0 for a
      vertex not yet visited, `infinity` for one that is finished, and otherwise a stack position,
      counted from 1. */
  datatype State = State(f: seq<set<nat>>, idx: seq<int>, stk: seq<nat>)

  function Infinity(g: Graph): int { |g| + 2 }

  ghost function Unvisited(s: State): set<nat> {
    set v: nat | v < |s.idx| && s.idx[v] == 0
  }

  ghost predicate OnStack(g: Graph, s: State, v: nat)
    requires |s.idx| == |g| && v < |g|
  {
    s.idx[v] != 0 && s.idx[v] != Infinity(g)
  }

  ghost predicate Shape(g: Graph, f0: seq<set<nat>>, s: State) {
    && InRange(g) && |f0| == |s.f| == |s.idx| == |g|
    && (forall k :: 0 <= k < |s.stk| ==> s.stk[k] < |g| && 1 <= s.idx[s.stk[k]] <= k + 1)
    && (forall j, k :: 0 <= j < k < |s.stk| ==> s.stk[j] != s.stk[k])
    && (forall v :: 0 <= v < |g| && OnStack(g, s, v) ==> v in s.stk)
    && |s.stk| <= |g|
  }

  // F only ever holds tokens it should hold; finished rows hold them all.
  ghost predicate Inv(g: Graph, f0: seq<set<nat>>, s: State) {
    && Shape(g, f0, s)
    && (forall v :: 0 <= v < |g| ==> f0[v] <= s.f[v])
    && (forall v, t :: 0 <= v < |g| && t in s.f[v] ==> Collects(g, f0, v, t))
    && (forall v :: 0 <= v < |g| && s.idx[v] == 0 ==> s.f[v] == f0[v])
    && (forall v :: 0 <= v < |g| && s.idx[v] == Infinity(g) ==> Finished(g, f0, s, v))
    && (forall k :: 0 <= k < |s.stk| ==> Reach(g, s.stk[k], s.stk[s.idx[s.stk[k]] - 1]))
  }

  ghost predicate Finished(g: Graph, f0: seq<set<nat>>, s: State, v: nat)
    requires |f0| == |s.f| == |s.idx| == |g| && v < |g| && InRange(g)
  {
    && (forall t :: Collects(g, f0, v, t) ==> t in s.f[v])
    && (forall w :: w in g[v] ==> s.idx[w] == Infinity(g))
  }

  // The edge v -> w has been taken into account in row v and in INDEX[v].
  ghost predicate EdgeDone(g: Graph, s: State, v: nat, w: nat)
    requires |s.f| == |s.idx| == |g| && v < |g| && w < |g|
  {
    || (s.idx[w] == Infinity(g) && s.f[w] <= s.f[v])
    || (exists k :: 0 <= k < |s.stk| && s.stk[k] == w && s.idx[v] <= k + 1)
  }

  // stk[k] has returned from traverse and waits on the stack for a lower vertex.
  ghost predicate Waiting(g: Graph, s: State, k: nat)
    requires |s.f| == |s.idx| == |g| && InRange(g) && k < |s.stk| && s.stk[k] < |g|
  {
    && s.idx[s.stk[k]] <= k
    && forall w :: w in g[s.stk[k]] ==> EdgeDone(g, s, s.stk[k], w)
  }

  // x was first reached below i, and its row and INDEX are already passed up to i.
  ghost predicate Under(g: Graph, s: State, i: nat, x: nat)
    requires |s.f| == |s.idx| == |g| && i < |g| && x < |g|
  {
    s.idx[i] <= s.idx[x] && s.f[x] <= s.f[i] && Reach(g, i, x)
  }

  // Vertices visited in s0 keep their stack positions, INDEX and rows in s.
  ghost predicate Extends(g: Graph, s0: State, s: State) {
    && |s0.f| == |s0.idx| == |s.f| == |s.idx| == |g|
    && s0.stk <= s.stk
    && (forall v :: 0 <= v < |g| && s0.idx[v] != 0 ==> s.idx[v] == s0.idx[v] && s.f[v] == s0.f[v])
  }

  // The contract of traverse(i), called in s0 and returning in s.
  ghost predicate Traversed(g: Graph, f0: seq<set<nat>>, s0: State, i: nat, s: State)
    requires i < |g|
  {
    && Inv(g, f0, s) && Extends(g, s0, s) && s.idx[i] != 0
    && (|s.stk| == |s0.stk| ==> s.idx[i] == Infinity(g))
    && (|s.stk| > |s0.stk| ==> s.stk[|s0.stk|] == i && s.idx[i] <= |s0.stk|)
    && (forall k :: |s0.stk| <= k < |s.stk| ==> Waiting(g, s, k) && Under(g, s, i, s.stk[k]))
  }

  // Inside traverse(i): i sits above s0's stack, the edges in `done` are taken into account, and the
  // vertices above i are below i or, just after a recursive call, below j.
  ghost predicate Working(g: Graph, f0: seq<set<nat>>, s0: State, i: nat, done: set<nat>, j: nat, s: State)
    requires i < |g| && j < |g|
  {
    && Inv(g, f0, s) && Extends(g, s0, s) && s0.idx[i] == 0
    && |s0.stk| < |s.stk| && s.stk[|s0.stk|] == i
    && (forall w :: w in done ==> w < |g| && EdgeDone(g, s, i, w))
    && (forall k :: |s0.stk| < k < |s.stk| ==> Waiting(g, s, k) && (Under(g, s, i, s.stk[k]) || Under(g, s, j, s.stk[k])))
  }

  ghost function Pushed(s: State, i: nat): State
    requires i < |s.idx|
  {
    State(s.f, s.idx[i := |s.stk| + 1], s.stk + [i])
  }

  lemma PushWorks(g: Graph, f0: seq<set<nat>>, s0: State, i: nat)
    requires i < |g| && Inv(g, f0, s0) && s0.idx[i] == 0 && |s0.stk| < |g|
    ensures Working(g, f0, s0, i, {}, i, Pushed(s0, i))
  {
    var s := Pushed(s0, i);
    ReachRefl(g, i);
    forall k | 0 <= k < |s.stk|
      ensures s.stk[k] < |g| && 1 <= s.idx[s.stk[k]] <= k + 1 && Reach(g, s.stk[k], s.stk[s.idx[s.stk[k]] - 1])
    {
      if k < |s0.stk| {
        assert s.stk[k] == s0.stk[k];
      }
    }
    forall v | 0 <= v < |g| && OnStack(g, s, v)
      ensures v in s.stk
    {
      if v == i { assert s.stk[|s0.stk|] == i; } else { assert OnStack(g, s0, v); }
    }
    forall v | 0 <= v < |g| && s.idx[v] == Infinity(g)
      ensures Finished(g, f0, s, v)
    {
      assert Finished(g, f0, s0, v);
    }
  }

  // There is room on the stack for one more unvisited vertex.
  lemma StackRoom(g: Graph, f0: seq<set<nat>>, s: State, i: nat)
    requires Shape(g, f0, s) && i < |g| && s.idx[i] == 0
    ensures |s.stk| < |g|
  {
    Pigeonhole(s.stk + [i], |g|);
  }

  lemma EdgeKept(g: Graph, s: State, s': State, v: nat, w: nat)
    requires |s.f| == |s.idx| == |s'.f| == |s'.idx| == |g| && v < |g| && w < |g|
    requires EdgeDone(g, s, v, w) && s.stk <= s'.stk
    requires s'.idx[v] <= s.idx[v] && s.f[v] <= s'.f[v]
    requires s.idx[w] == Infinity(g) ==> s'.idx[w] == s.idx[w] && s'.f[w] == s.f[w]
    ensures EdgeDone(g, s', v, w)
  {
    if s.idx[w] != Infinity(g) {
      var k :| 0 <= k < |s.stk| && s.stk[k] == w && s.idx[v] <= k + 1;
      assert s'.stk[k] == w;
    }
  }

  // What waits on the stack waits on when vertices above it are visited.
  lemma WaitingKept(g: Graph, f0: seq<set<nat>>, s: State, s': State, k: nat)
    requires Shape(g, f0, s) && Extends(g, s, s') && k < |s.stk| && Waiting(g, s, k)
    ensures Waiting(g, s', k)
  {
    assert s.stk[k] == s'.stk[k];
    forall w | w in g[s.stk[k]]
      ensures EdgeDone(g, s', s.stk[k], w)
    {
      EdgeKept(g, s, s', s.stk[k], w);
    }
  }

  lemma AfterCall(g: Graph, f0: seq<set<nat>>, s0: State, i: nat, done: set<nat>, j: nat, s: State, s1: State)
    requires i < |g| && j < |g| && Working(g, f0, s0, i, done, i, s) && s.idx[j] == 0
    requires Traversed(g, f0, s, j, s1)
    ensures Working(g, f0, s0, i, done, j, s1)
  {
    assert s.stk[|s0.stk|] == i;
    forall w | w in done
      ensures EdgeDone(g, s1, i, w)
    {
      EdgeKept(g, s, s1, i, w);
    }
    forall k | |s0.stk| < k < |s1.stk|
      ensures Waiting(g, s1, k) && (Under(g, s1, i, s1.stk[k]) || Under(g, s1, j, s1.stk[k]))
    {
      if k < |s.stk| {
        WaitingKept(g, f0, s, s1, k);
        assert s1.stk[k] == s.stk[k];
      }
    }
  }

  ghost function Merged(s: State, i: nat, j: nat): State
    requires i < |s.f| == |s.idx| && j < |s.f|
  {
    State(s.f[i := s.f[i] + s.f[j]], s.idx[i := if s.idx[j] < s.idx[i] then s.idx[j] else s.idx[i]], s.stk)
  }

  lemma MergeShape(g: Graph, f0: seq<set<nat>>, s: State, i: nat, j: nat)
    requires i < |g| && j in g[i] && Inv(g, f0, s) && OnStack(g, s, i) && s.idx[j] != 0
    ensures Shape(g, f0, Merged(s, i, j))
  {
    var s' := Merged(s, i, j);
    if s.idx[j] < s.idx[i] {
      assert OnStack(g, s, j);
      var k :| 0 <= k < |s.stk| && s.stk[k] == j;
    }
    forall v | 0 <= v < |g| && OnStack(g, s', v)
      ensures v in s'.stk
    {
      assert OnStack(g, s, v);
    }
  }

  lemma MergeLow(g: Graph, f0: seq<set<nat>>, s: State, i: nat, j: nat, k: nat)
    requires i < |g| && j in g[i] && Inv(g, f0, s) && OnStack(g, s, i) && s.idx[j] != 0
    requires k < |s.stk| && Shape(g, f0, Merged(s, i, j))
    ensures Reach(g, s.stk[k], s.stk[Merged(s, i, j).idx[s.stk[k]] - 1])
  {
    if s.stk[k] == i && s.idx[j] < s.idx[i] {
      EdgeReach(g, i, j);
      assert OnStack(g, s, j);
      ReachTrans(g, i, j, s.stk[s.idx[j] - 1]);
    }
  }

  lemma MergeCollects(g: Graph, f0: seq<set<nat>>, s: State, i: nat, j: nat)
    requires i < |g| && j in g[i] && Inv(g, f0, s) && OnStack(g, s, i) && s.idx[j] != 0
    ensures forall t :: t in s.f[j] ==> Collects(g, f0, i, t)
  {
    EdgeReach(g, i, j);
    forall t | t in s.f[j]
      ensures Collects(g, f0, i, t)
    {
      var w: nat :| Reach(g, j, w) && w < |g| && t in f0[w];
      ReachTrans(g, i, j, w);
    }
  }

  lemma MergeInv(g: Graph, f0: seq<set<nat>>, s: State, i: nat, j: nat)
    requires i < |g| && j in g[i] && Inv(g, f0, s) && OnStack(g, s, i) && s.idx[j] != 0
    ensures Inv(g, f0, Merged(s, i, j))
  {
    hide Reach, Collects;
    var s' := Merged(s, i, j);
    MergeShape(g, f0, s, i, j);
    forall k | 0 <= k < |s.stk|
      ensures Reach(g, s.stk[k], s.stk[s'.idx[s.stk[k]] - 1])
    {
      MergeLow(g, f0, s, i, j, k);
    }
    MergeCollects(g, f0, s, i, j);
    forall v | 0 <= v < |g| && s'.idx[v] == Infinity(g)
      ensures Finished(g, f0, s', v)
    {
      assert Finished(g, f0, s, v);
    }
  }

  lemma EdgeTaken(g: Graph, f0: seq<set<nat>>, s: State, i: nat, j: nat)
    requires i < |g| && j in g[i] && Inv(g, f0, s) && OnStack(g, s, i) && s.idx[j] != 0
    ensures EdgeDone(g, Merged(s, i, j), i, j)
  {
    if s.idx[j] != Infinity(g) {
      assert OnStack(g, s, j);
      var k :| 0 <= k < |s.stk| && s.stk[k] == j;
      assert Merged(s, i, j).stk[k] == j;
    }
  }

  lemma UnderMerged(g: Graph, f0: seq<set<nat>>, s: State, i: nat, j: nat, k: nat)
    requires i < |g| && j in g[i] && Inv(g, f0, s) && OnStack(g, s, i) && s.idx[j] != 0
    requires k < |s.stk| && s.stk[k] != i && Waiting(g, s, k) && (Under(g, s, i, s.stk[k]) || Under(g, s, j, s.stk[k]))
    ensures Waiting(g, Merged(s, i, j), k) && Under(g, Merged(s, i, j), i, s.stk[k])
  {
    var x := s.stk[k];
    forall w | w in g[x]
      ensures EdgeDone(g, Merged(s, i, j), x, w)
    {
      EdgeKept(g, s, Merged(s, i, j), x, w);
    }
    EdgeReach(g, i, j);
    if Under(g, s, j, x) {
      ReachTrans(g, i, j, x);
    }
  }

  lemma AfterEdge(g: Graph, f0: seq<set<nat>>, s0: State, i: nat, done: set<nat>, j: nat, s: State)
    requires i < |g| && j in g[i] && InRange(g) && Working(g, f0, s0, i, done, j, s) && s.idx[j] != 0
    ensures Working(g, f0, s0, i, done + {j}, i, Merged(s, i, j))
  {
    hide Reach, Collects, Finished, Waiting, Under;
    var h := |s0.stk|;
    assert s.stk[h] == i;
    MergeInv(g, f0, s, i, j);
    EdgeTaken(g, f0, s, i, j);
    forall w | w in done
      ensures EdgeDone(g, Merged(s, i, j), i, w)
    {
      EdgeKept(g, s, Merged(s, i, j), i, w);
    }
    forall k | h < k < |s.stk|
      ensures Waiting(g, Merged(s, i, j), k) && Under(g, Merged(s, i, j), i, s.stk[k])
    {
      UnderMerged(g, f0, s, i, j, k);
    }
  }

  // traverse(i) returns leaving i on the stack.
  lemma ReturnBelow(g: Graph, f0: seq<set<nat>>, s0: State, i: nat, s: State)
    requires i < |g| && Working(g, f0, s0, i, g[i], i, s) && s.idx[i] != |s0.stk| + 1
    ensures Traversed(g, f0, s0, i, s)
  {
    assert s.stk[|s0.stk|] == i;
    ReachRefl(g, i);
  }

  // Every vertex from i upwards on the stack reaches i, when nothing reaches lower.
  lemma {:induction false} DownTo(g: Graph, f0: seq<set<nat>>, s0: State, i: nat, s: State, k: nat)
    requires i < |g| && Working(g, f0, s0, i, g[i], i, s) && s.idx[i] == |s0.stk| + 1
    requires |s0.stk| <= k < |s.stk|
    ensures Reach(g, s.stk[k], i)
  {
    if k == |s0.stk| {
      ReachRefl(g, i);
    } else {
      assert Waiting(g, s, k) && Under(g, s, i, s.stk[k]);
      var low := s.idx[s.stk[k]] - 1;
      DownTo(g, f0, s0, i, s, low);
      ReachTrans(g, s.stk[k], s.stk[low], i);
    }
  }

  // The row of a component's root is complete when the component is about to be popped.
  lemma RootComplete(g: Graph, f0: seq<set<nat>>, s0: State, i: nat, s: State, t: nat)
    requires i < |g| && Working(g, f0, s0, i, g[i], i, s) && s.idx[i] == |s0.stk| + 1
    requires Collects(g, f0, i, t)
    ensures t in s.f[i]
  {
    hide Reach, Finished, EdgeDone;
    var h := |s0.stk|;
    var w: nat :| Reach(g, i, w) && w < |g| && t in f0[w];
    var covered := iset v: nat | v < |g| && Covered(g, f0, h, i, s, v);
    assert s.stk[h] == i;
    forall a, b | a in covered && a < |g| && b in g[a]
      ensures b in covered
    {
      CoveredStep(g, f0, s0, i, s, a, b);
    }
    ReachLeast(g, covered, i, w);
    if s.idx[w] == Infinity(g) {
      ReachRefl(g, w);
    }
  }

  ghost predicate Covered(g: Graph, f0: seq<set<nat>>, h: nat, i: nat, s: State, v: nat)
    requires Shape(g, f0, s) && i < |g| && v < |g|
  {
    || (exists k :: h <= k < |s.stk| && s.stk[k] == v)
    || (s.idx[v] == Infinity(g) && forall t :: Collects(g, f0, v, t) ==> t in s.f[i])
  }

  lemma CoveredStep(g: Graph, f0: seq<set<nat>>, s0: State, i: nat, s: State, a: nat, b: nat)
    requires i < |g| && Working(g, f0, s0, i, g[i], i, s) && s.idx[i] == |s0.stk| + 1
    requires a < |g| && b in g[a] && Covered(g, f0, |s0.stk|, i, s, a)
    ensures Covered(g, f0, |s0.stk|, i, s, b)
  {
    var h := |s0.stk|;
    if s.idx[a] == Infinity(g) {
      EdgeReach(g, a, b);
      forall t | Collects(g, f0, b, t)
        ensures t in s.f[i]
      {
        var w: nat :| Reach(g, b, w) && w < |g| && t in f0[w];
        ReachTrans(g, a, b, w);
      }
    } else {
      var k :| h <= k < |s.stk| && s.stk[k] == a;
      assert k > h ==> Waiting(g, s, k) && Under(g, s, i, a);
      assert EdgeDone(g, s, a, b);
      if s.idx[b] != Infinity(g) {
        var m :| 0 <= m < |s.stk| && s.stk[m] == b && s.idx[a] <= m + 1;
      }
    }
  }

  // From position n upwards the stack of s has been popped into s', each row there made equal to row i.
  ghost predicate Popped(g: Graph, n: nat, i: nat, s: State, s': State)
    requires i < |g|
  {
    && |s.f| == |s.idx| == |s'.f| == |s'.idx| == |g|
    && n <= |s.stk| && s'.stk == s.stk[..n]
    && (forall v :: 0 <= v < |g| && v in s.stk[n..] ==> s'.idx[v] == Infinity(g) && s'.f[v] == s.f[i])
    && (forall v :: 0 <= v < |g| && v !in s.stk[n..] ==> s'.idx[v] == s.idx[v] && s'.f[v] == s.f[v])
  }

  lemma PopStep(g: Graph, n: nat, i: nat, s: State, s': State)
    requires i < |g| && 0 < n && Popped(g, n, i, s, s') && s.stk[n - 1] < |g|
    requires i !in s.stk[n..]
    ensures var j := s.stk[n - 1];
            Popped(g, n - 1, i, s, State(s'.f[j := s'.f[i]], s'.idx[j := Infinity(g)], s'.stk[..n - 1]))
  {
    var j := s.stk[n - 1];
    assert s.stk[n - 1..] == [j] + s.stk[n..];
    assert s.stk[..n][..n - 1] == s.stk[..n - 1];
  }

  lemma PopRows(g: Graph, f0: seq<set<nat>>, s0: State, i: nat, s: State, s': State, v: nat)
    requires i < |g| && Working(g, f0, s0, i, g[i], i, s) && s.idx[i] == |s0.stk| + 1
    requires Popped(g, |s0.stk|, i, s, s') && v in s.stk[|s0.stk|..] && v < |g|
    ensures Finished(g, f0, s', v) && f0[v] <= s'.f[v]
    ensures forall t :: t in s'.f[v] ==> Collects(g, f0, v, t)
  {
    var k :| |s0.stk| <= k < |s.stk| && s.stk[k] == v;
    DownTo(g, f0, s0, i, s, k);
    assert v != i ==> Waiting(g, s, k) && Under(g, s, i, v);
    ReachRefl(g, i);
    forall t | Collects(g, f0, v, t)
      ensures t in s'.f[v]
    {
      var w: nat :| Reach(g, v, w) && w < |g| && t in f0[w];
      ReachTrans(g, i, v, w);
      RootComplete(g, f0, s0, i, s, t);
    }
    forall t | t in s'.f[v]
      ensures Collects(g, f0, v, t)
    {
      var w: nat :| Reach(g, i, w) && w < |g| && t in f0[w];
      ReachTrans(g, v, i, w);
    }
    forall w | w in g[v]
      ensures s'.idx[w] == Infinity(g)
    {
      ReachRefl(g, v);
      assert Covered(g, f0, |s0.stk|, i, s, v);
      CoveredStep(g, f0, s0, i, s, v, w);
    }
  }

  lemma PopShape(g: Graph, f0: seq<set<nat>>, s0: State, i: nat, s: State, s': State)
    requires i < |g| && Inv(g, f0, s0) && Working(g, f0, s0, i, g[i], i, s) && Popped(g, |s0.stk|, i, s, s')
    ensures Shape(g, f0, s') && Extends(g, s0, s')
    ensures forall k :: 0 <= k < |s0.stk| ==> s'.idx[s0.stk[k]] == s0.idx[s0.stk[k]]
  {
    var h := |s0.stk|;
    forall v | 0 <= v < |g| && s0.idx[v] != 0
      ensures s'.idx[v] == s0.idx[v] && s'.f[v] == s0.f[v]
    {
      if OnStack(g, s0, v) {
        var k :| 0 <= k < h && s0.stk[k] == v;
        assert s.stk[k] == v;
      }
    }
    forall v | 0 <= v < |g| && OnStack(g, s', v)
      ensures v in s'.stk
    {
      assert OnStack(g, s, v);
    }
  }

  lemma PopTraversed(g: Graph, f0: seq<set<nat>>, s0: State, i: nat, s: State, s': State)
    requires i < |g| && Inv(g, f0, s0) && Working(g, f0, s0, i, g[i], i, s) && s.idx[i] == |s0.stk| + 1
    requires Popped(g, |s0.stk|, i, s, s')
    ensures Traversed(g, f0, s0, i, s')
  {
    var h := |s0.stk|;
    assert s.stk[h..][0] == i;
    PopShape(g, f0, s0, i, s, s');
    forall v | 0 <= v < |g| && v in s.stk[h..]
      ensures Finished(g, f0, s', v) && f0[v] <= s'.f[v] && forall t :: t in s'.f[v] ==> Collects(g, f0, v, t)
    {
      PopRows(g, f0, s0, i, s, s', v);
    }
    forall v | 0 <= v < |g| && s'.idx[v] == Infinity(g) && v !in s.stk[h..]
      ensures Finished(g, f0, s', v)
    {
      assert Finished(g, f0, s, v);
    }
  }

  // What the body of traverse(i) takes from the predicates above.

  lemma StartFacts(g: Graph, f0: seq<set<nat>>, s0: State, i: nat)
    requires Inv(g, f0, s0) && i < |g| && s0.idx[i] == 0
    ensures |s0.stk| < |g| && InRange(g)
  {
    StackRoom(g, f0, s0, i);
  }

  lemma CallFacts(g: Graph, f0: seq<set<nat>>, s0: State, i: nat, done: set<nat>, s: State)
    requires i < |g| && Working(g, f0, s0, i, done, i, s)
    ensures Inv(g, f0, s)
  {
  }

  lemma AnyBelow(g: Graph, f0: seq<set<nat>>, s0: State, i: nat, done: set<nat>, j: nat, s: State)
    requires i < |g| && j < |g| && Working(g, f0, s0, i, done, i, s)
    ensures Working(g, f0, s0, i, done, j, s)
  {
  }

  lemma AfterCallFacts(g: Graph, f0: seq<set<nat>>, s: State, j: nat, s1: State)
    requires j < |g| && |s.idx| == |g| && Traversed(g, f0, s, j, s1)
    ensures |s1.idx| == |g| && s1.idx[j] != 0
    ensures forall v :: 0 <= v < |g| && s.idx[v] != 0 ==> s1.idx[v] != 0
  {
  }

  lemma PopNothing(g: Graph, i: nat, s: State)
    requires i < |g| && |s.f| == |s.idx| == |g|
    ensures Popped(g, |s.stk|, i, s, s)
  {
    assert s.stk[..|s.stk|] == s.stk;
  }

  lemma PopFacts(g: Graph, f0: seq<set<nat>>, s0: State, i: nat, s: State)
    requires i < |g| && Working(g, f0, s0, i, g[i], i, s)
    ensures |s0.stk| < |s.stk| && s.stk[|s0.stk|] == i
    ensures forall k :: 0 <= k < |s.stk| ==> s.stk[k] < |g| && (k > |s0.stk| ==> s.stk[k] != i)
  {
  }

  // The edge lists of a relation, each up to its terminating -1, as a graph.
  ghost function Adjacency(r: seq<seq<nat>>): Graph {
    seq(|r|, i requires 0 <= i < |r| => Elems(r[i]))
  }

  ghost predicate ValidEdges(r: seq<seq<nat>>) {
    forall i, k :: 0 <= i < |r| && 0 <= k < |r[i]| ==> r[i][k] < |r|
  }

  /** The static variables F, R, INDEX, VERTICES, top and infinity that digraph and traverse share. */
  class Traversal {
    const F: BitMatrix
    const R: seq<seq<nat>>
    const INDEX: array<int>
    const VERTICES: array<nat>
    const infinity: int
    var top: nat

    ghost predicate Valid()
      reads this, F, F.words, INDEX, VERTICES
    {
      && F.Valid() && F.nrows == |R| && ValidEdges(R)
      && INDEX.Length == |R| + 1 && VERTICES.Length == |R| + 1 && (INDEX as object) != (VERTICES as object)
      && infinity == |R| + 2 <= Lr0.MAXSHORT
      && top <= |R|
    }

    ghost function Now(): State
      requires Valid()
      reads this, F, F.words, INDEX, VERTICES
    {
      State(F.rows, INDEX[..|R|], VERTICES[1..top + 1])
    }

    constructor (F: BitMatrix, R: seq<seq<nat>>)
      requires F.Valid() && F.nrows == |R| && ValidEdges(R) && |R| + 2 <= Lr0.MAXSHORT
      ensures Valid() && this.F == F && this.R == R && fresh(INDEX) && fresh(VERTICES)
      ensures F.rows == old(F.rows)
      ensures Now() == State(F.rows, seq(|R|, _ => 0), [])
    {
      this.F := F;
      this.R := R;
      this.infinity := |R| + 2;
      this.INDEX := new int[|R| + 1](_ => 0);
      this.VERTICES := new nat[|R| + 1](_ => 0);
      this.top := 0;
    }

    // The inner loop: pop VERTICES down to i.
    method PopComponent(i: nat, ghost h: nat)
      requires Valid() && i < |R| && h < top && Now().stk[h] == i
      requires forall k :: 0 <= k < top ==> Now().stk[k] < |R| && (k > h ==> Now().stk[k] != i)
      modifies F, F.words, INDEX, `top
      ensures Valid() && Popped(Adjacency(R), h, i, old(Now()), Now())
    {
      hide Popped, ValidEdges;
      ghost var g, s := Adjacency(R), Now();
      PopNothing(g, i, s);
      while true
        invariant Valid() && h < top <= |s.stk| && VERTICES[..] == old(VERTICES[..])
        invariant Popped(g, top, i, s, Now())
        decreases top
      {
        var j := VERTICES[top];
        assert s.stk[top - 1] == j;
        assert i !in s.stk[top..];
        PopStep(g, top, i, s, Now());
        ghost var s' := Now();
        top := top - 1;
        INDEX[j] := infinity;
        if i == j {
          assert Now() == State(s'.f[j := s'.f[i]], s'.idx[j := Infinity(g)], s'.stk[..top]);
          break;
        }
        F.CopyRow(j, i);
        assert Now() == State(s'.f[j := s'.f[i]], s'.idx[j := Infinity(g)], s'.stk[..top]);
        assert s.stk[h] == i;
      }
    }

    // An edge from i to j: the lesser index, and the union of the rows.
    method TakeEdge(i: nat, j: nat)
      requires Valid() && i < |R| && j < |R|
      modifies F, F.words, INDEX
      ensures Valid() && Now() == Merged(old(Now()), i, j)
    {
      if INDEX[i] > INDEX[j] {
        INDEX[i] := INDEX[j];
      }
      F.OrRow(i, j);
    }

    // Vertex i goes on the stack, and its height is its index.
    method Push(i: nat)
      requires Valid() && i < |R| && top < |R|
      modifies INDEX, VERTICES, `top
      ensures Valid() && Now() == Pushed(old(Now()), i)
    {
      top := top + 1;
      VERTICES[top] := i;
      INDEX[i] := top;
    }

    method Traverse(i: nat, ghost f0: seq<set<nat>>)
      requires Valid() && i < |R| && Inv(Adjacency(R), f0, Now()) && Now().idx[i] == 0
      modifies F, F.words, INDEX, VERTICES, `top
      ensures Valid() && Traversed(Adjacency(R), f0, old(Now()), i, Now())
      decreases Unvisited(Now()), 0
    {
      hide Inv, Working, Traversed, Reach, Popped;
      ghost var g, s0 := Adjacency(R), Now();
      StartFacts(g, f0, s0, i);
      PushWorks(g, f0, s0, i);
      Push(i);
      var height := top;
      assert i in Unvisited(s0) && i !in Unvisited(Now());
      var k := 0;
      assert Elems(R[i][..k]) == {};
      while k < |R[i]|
        invariant Valid() && 0 <= k <= |R[i]|
        invariant Working(g, f0, s0, i, Elems(R[i][..k]), i, Now())
        invariant Unvisited(Now()) < Unvisited(s0)
      {
        FollowEdge(i, R[i][k], f0, s0, Elems(R[i][..k]));
        assert Elems(R[i][..k + 1]) == Elems(R[i][..k]) + {R[i][k]};
        k := k + 1;
      }
      ghost var s := Now();
      assert R[i][..|R[i]|] == R[i];
      if INDEX[i] == height {
        PopFacts(g, f0, s0, i, s);
        PopComponent(i, |s0.stk|);
        PopTraversed(g, f0, s0, i, s, Now());
      } else {
        ReturnBelow(g, f0, s0, i, s);
      }
    }

    // One turn of the loop over the edges of i.
    method FollowEdge(i: nat, j: nat, ghost f0: seq<set<nat>>, ghost s0: State, ghost done: set<nat>)
      requires Valid() && i < |R| && j in Adjacency(R)[i]
      requires Working(Adjacency(R), f0, s0, i, done, i, Now())
      modifies F, F.words, INDEX, VERTICES, `top
      ensures Valid() && Working(Adjacency(R), f0, s0, i, done + {j}, i, Now())
      ensures Unvisited(Now()) <= Unvisited(old(Now()))
      decreases Unvisited(Now()), 1
    {
      hide Inv, Working, Traversed, Reach, Popped;
      ghost var g, s := Adjacency(R), Now();
      if INDEX[j] == 0 {
        CallFacts(g, f0, s0, i, done, s);
        Traverse(j, f0);
        AfterCall(g, f0, s0, i, done, j, s, Now());
        AfterCallFacts(g, f0, s, j, Now());
      } else {
        AnyBelow(g, f0, s0, i, done, j, s);
      }
      AfterEdge(g, f0, s0, i, done, j, Now());
      TakeEdge(i, j);
    }
  }

  /** What digraph computes: row i holds exactly what the rows reached from i held at the start. */
  ghost predicate Spread(g: Graph, f0: seq<set<nat>>, f: seq<set<nat>>) {
    |f0| == |f| == |g| && forall i: nat, t: nat :: i < |g| ==> (t in f[i] <==> Collects(g, f0, i, t))
  }

  ghost predicate Solves(g: Graph, f0: seq<set<nat>>, f: seq<set<nat>>) {
    && |f0| == |f| == |g| && InRange(g)
    && forall i :: 0 <= i < |g| ==> f0[i] <= f[i] && forall j :: j in g[i] ==> f[j] <= f[i]
  }

  /** Spread is the least solution of F(i) >= F0(i) and F(i) >= F(j) for every edge from i to j. */
  lemma SpreadIsLeastSolution(g: Graph, f0: seq<set<nat>>, f: seq<set<nat>>)
    requires InRange(g) && Spread(g, f0, f)
    ensures Solves(g, f0, f)
    ensures forall f' :: Solves(g, f0, f') ==> forall i :: 0 <= i < |g| ==> f[i] <= f'[i]
  {
    forall i | 0 <= i < |g|
      ensures f0[i] <= f[i] && forall j :: j in g[i] ==> f[j] <= f[i]
    {
      ReachRefl(g, i);
      forall j, t | j in g[i] && t in f[j]
        ensures t in f[i]
      {
        var w: nat :| Reach(g, j, w) && w < |g| && t in f0[w];
        EdgeReach(g, i, j);
        ReachTrans(g, i, j, w);
      }
    }
    forall f', i: nat, t: nat | Solves(g, f0, f') && i < |g| && t in f[i]
      ensures t in f'[i]
    {
      var w: nat :| Reach(g, i, w) && w < |g| && t in f0[w];
      var below := iset v: nat | v < |g| && f'[v] <= f'[i];
      ReachLeast(g, below, i, w);
    }
  }

  lemma AllSpread(g: Graph, f0: seq<set<nat>>, s: State)
    requires Inv(g, f0, s) && s.stk == []
    requires forall v :: 0 <= v < |g| ==> s.idx[v] != 0 || g[v] == {}
    ensures Spread(g, f0, s.f)
  {
    forall v: nat, t: nat | v < |g|
      ensures t in s.f[v] <==> Collects(g, f0, v, t)
    {
      if s.idx[v] == 0 {
        if Collects(g, f0, v, t) {
          var w: nat :| Reach(g, v, w) && w < |g| && t in f0[w];
          ReachFirst(g, v, w);
        }
      } else {
        assert !OnStack(g, s, v);
      }
    }
  }

  lemma StartInv(g: Graph, f0: seq<set<nat>>)
    requires InRange(g) && |f0| == |g|
    ensures Inv(g, f0, State(f0, seq(|g|, _ => 0), []))
  {
    forall v | 0 <= v < |g|
      ensures Reach(g, v, v)
    {
      ReachRefl(g, v);
    }
  }

  // At the top level nothing stays on the stack.
  lemma TopLevel(g: Graph, f0: seq<set<nat>>, s0: State, i: nat, s: State)
    requires i < |g| && s0.stk == [] && Traversed(g, f0, s0, i, s)
    ensures Inv(g, f0, s) && s.stk == [] && s.idx[i] != 0
    ensures |s0.idx| == |g| && forall v :: 0 <= v < |g| && s0.idx[v] != 0 ==> s.idx[v] != 0
  {
  }

  /** digraph. INDEX is an array of shorts, and infinity, which is the number of rows and 2, must fit one. */
  method Digraph(F: BitMatrix, relation: seq<seq<nat>>)
    requires F.Valid() && F.nrows == |relation| && ValidEdges(relation) && |relation| + 2 <= Lr0.MAXSHORT
    modifies F, F.words
    ensures F.Valid() && Spread(Adjacency(relation), old(F.rows), F.rows)
  {
    hide Inv, Traversed, Reach, Popped;
    ghost var g, f0 := Adjacency(relation), F.rows;
    var t := new Traversal(F, relation);
    StartInv(g, f0);
    var i := 0;
    while i < |relation|
      invariant 0 <= i <= |relation| && t.Valid() && Inv(g, f0, t.Now()) && t.Now().stk == []
      invariant forall v :: 0 <= v < i ==> t.Now().idx[v] != 0 || g[v] == {}
    {
      if t.INDEX[i] == 0 && relation[i] != [] {
        ghost var s0 := t.Now();
        t.Traverse(i, f0);
        TopLevel(g, f0, s0, i, t.Now());
      }
      i := i + 1;
    }
    AllSpread(g, f0, t.Now());
  }
}
