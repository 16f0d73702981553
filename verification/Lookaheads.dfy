/** The DeRemer-Pennello relations over numbered gotos, and the look-ahead sets they define. */
module Lookaheads {
  import opened Grammar
  import opened Nullables
  import opened Closures
  import opened Automata
  import opened Relations
  import opened Digraph
  import opened Gotos
  import opened Completeness

  // nullable marks the symbols that derive the empty string.
  ghost predicate NullableTable(g: Grammar, nullable: seq<bool>) {
    |nullable| == g.nsyms && forall x :: 0 <= x < g.nsyms ==> (nullable[x] <==> Nullable(g, x))
  }

  // The variable of goto i.
  function SymbolOf(a: Automaton, m: GotoMap, i: nat): int {
    if i < |m.to| && m.to[i] < |a.acc| then a.acc[m.to[i]] else -1
  }

  // Goto i, on x from s to t.
  ghost predicate GotoIs(g: Grammar, a: Automaton, m: GotoMap, i: nat, s: int, x: int) {
    i < |m.from| == |m.to| && m.from[i] == s && SymbolOf(a, m, i) == x && IsGotoNo(g, a, m, i, s, x, m.to[i])
  }

  /** Token k can be shifted right after goto i; $end can come after goto 0, the goal's. */
  ghost predicate DirectlyReads(g: Grammar, a: Automaton, m: GotoMap, i: nat, k: nat) {
    i < |m.to| && k < g.ntokens && ((i == 0 && k == 0) || exists s :: Trans(a, m.to[i], k, s))
  }

  ghost function DirectReads(g: Grammar, a: Automaton, m: GotoMap): seq<set<nat>> {
    seq(|m.to|, i requires 0 <= i < |m.to| => set k: nat | k < g.ntokens && DirectlyReads(g, a, m, i, k))
  }

  /** Goto i reads goto j: j starts where i ends, on a nullable variable. */
  ghost predicate ReadsGoto(g: Grammar, a: Automaton, m: GotoMap, i: nat, j: nat) {
    i < |m.to| && j < |m.from| && m.from[j] == m.to[i] && Nullable(g, SymbolOf(a, m, j))
  }

  ghost function ReadsGraph(g: Grammar, a: Automaton, m: GotoMap): Graph {
    seq(|m.to|, i requires 0 <= i < |m.to| => set j: nat | j < |m.from| && ReadsGoto(g, a, m, i, j))
  }

  /** Goto j includes goto i: a rule of i's variable, started where i starts, has j's variable at item pos,
      reached where j starts, and only nullable symbols behind it. */
  ghost predicate IncludesAt(g: Grammar, a: Automaton, m: GotoMap, j: nat, i: nat, r: nat, pos: int) {
    && i < |m.from| && j < |m.from| && 3 <= r < |g.rlhs| && r + 1 < |g.rrhs| && g.rlhs[r] == SymbolOf(a, m, i)
    && g.rrhs[r] <= pos < g.rrhs[r + 1] - 1 && 0 <= pos < |g.ritem| && g.IsVar(g.ritem[pos]) && RestNullable(g, pos + 1)
    && PathOver(g, a, m.from[i], g.rrhs[r], pos, m.from[j]) && SymbolOf(a, m, j) == g.ritem[pos]
  }

  ghost predicate Includes(g: Grammar, a: Automaton, m: GotoMap, j: nat, i: nat) {
    exists r: nat, pos: int :: IncludesAt(g, a, m, j, i, r, pos)
  }

  ghost function IncludesGraph(g: Grammar, a: Automaton, m: GotoMap): Graph {
    seq(|m.from|, j requires 0 <= j < |m.from| => set i: nat | i < |m.from| && Includes(g, a, m, j, i))
  }

  /** Reducing by rule r in state q looks back to goto i: r, started where i starts, ends in q. */
  ghost predicate LooksBack(g: Grammar, a: Automaton, m: GotoMap, q: int, r: nat, i: nat) {
    && i < |m.from| && 3 <= r < |g.rlhs| && r + 1 < |g.rrhs| && g.rlhs[r] == SymbolOf(a, m, i)
    && PathOver(g, a, m.from[i], g.rrhs[r], g.rrhs[r + 1] - 1, q)
  }

  /** read and follow are the Read and Follow sets of the gotos: the least solutions over reads and includes. */
  ghost predicate ReadAndFollow(g: Grammar, a: Automaton, m: GotoMap, read: seq<set<nat>>, follow: seq<set<nat>>) {
    && Spread(ReadsGraph(g, a, m), DirectReads(g, a, m), read)
    && Spread(IncludesGraph(g, a, m), read, follow)
  }

  // Token k is in the look-ahead set of rule r in state q.
  ghost predicate InLa(g: Grammar, a: Automaton, m: GotoMap, follow: seq<set<nat>>, q: int, r: nat, k: nat) {
    exists i: nat :: i < |follow| && LooksBack(g, a, m, q, r, i) && k in follow[i]
  }

  /** The look-ahead sets as relations between states, variables and tokens. */
  ghost function Looking(g: Grammar, a: Automaton, m: GotoMap, sets: seq<set<nat>>): Looks {
    iset p, x, k | exists i: nat :: i < |sets| && GotoIs(g, a, m, i, p, x) && k >= 0 && k in sets[i] :: (p, x, k)
  }

  ghost function LaLooking(g: Grammar, a: Automaton, m: GotoMap, follow: seq<set<nat>>): Looks {
    iset q, r, k | r >= 0 && k >= 0 && InLa(g, a, m, follow, q, r, k) :: (q, r, k)
  }

  lemma GotoNumber(g: Grammar, a: Automaton, m: GotoMap, p: int, x: int, q: int) returns (i: nat)
    requires Valid(g) && Canonical(g, a) && ValidGotos(g, a, m) && Trans(a, p, x, q) && g.IsVar(x)
    ensures i < |m.from| == |m.to| && GotoIs(g, a, m, i, p, x) && m.to[i] == q
  {
    VarInRange(g, a, p, x, q);
    i := GotoOfTrans(g, a, m, p, x, q);
    TransFacts(g, a, p, x, q);
  }

  lemma VarInRange(g: Grammar, a: Automaton, p: int, x: int, q: int)
    requires Valid(g) && Canonical(g, a) && Trans(a, p, x, q)
    ensures 0 < x < g.nsyms
  {
    TransFacts(g, a, p, x, q);
    assert a.kernels[q][0] in a.kernels[q];
    SymbolInRange(g, a.kernels[q][0] - 1);
  }

  // Goto k lies among the gotos of its own variable.
  lemma InOwnBucket(g: Grammar, a: Automaton, m: GotoMap, k: nat, s: int, x: int) returns (v: nat)
    requires Valid(g) && Canonical(g, a) && ValidGotos(g, a, m) && GotoIs(g, a, m, k, s, x)
    ensures v < g.Nvars() && m.start[v] <= k < m.start[v + 1] && x == v + g.ntokens
  {
    v := VarOfGoto(g, a, m, k, g.Nvars());
    TransOfGoto(g, a, m, v, k);
    TransFacts(g, a, m.from[k], v + g.ntokens, m.to[k]);
  }

  // Gotos with the same start and variable are the same.
  lemma GotoUnique(g: Grammar, a: Automaton, m: GotoMap, i: nat, j: nat, s: int, x: int)
    requires Valid(g) && Canonical(g, a) && ValidGotos(g, a, m) && GotoIs(g, a, m, i, s, x) && GotoIs(g, a, m, j, s, x)
    ensures i == j
  {
    var v := InOwnBucket(g, a, m, i, s, x);
    var w := InOwnBucket(g, a, m, j, s, x);
    if i < j { BucketOrder(g, a, m, v, i, j); } else if j < i { BucketOrder(g, a, m, v, j, i); }
  }

  lemma ReadLooksClosed(g: Grammar, a: Automaton, m: GotoMap, read: seq<set<nat>>)
    requires Valid(g) && Canonical(g, a) && ValidGotos(g, a, m)
    requires Spread(ReadsGraph(g, a, m), DirectReads(g, a, m), read)
    ensures ReadClosed(g, a, Looking(g, a, m, read))
  {
    hide Valid, Canonical, ValidGotos, Trans, Spread;
    var l := Looking(g, a, m, read);
    forall p, x, q, k, s | Trans(a, p, x, q) && g.IsVar(x) && Trans(a, q, k, s) && g.IsToken(k)
      ensures (p, x, k) in l
    {
      var i := GotoNumber(g, a, m, p, x, q);
      VarInRange(g, a, q, k, s);
      assert DirectlyReads(g, a, m, i, k);
      SpreadStart(ReadsGraph(g, a, m), DirectReads(g, a, m), read, i, k);
    }
    forall p, x, q, y, s, k | Trans(a, p, x, q) && g.IsVar(x) && Trans(a, q, y, s) && g.IsVar(y) && Nullable(g, y) && (q, y, k) in l
      ensures (p, x, k) in l
    {
      var i := GotoNumber(g, a, m, p, x, q);
      var j: nat :| j < |read| && GotoIs(g, a, m, j, q, y) && k >= 0 && k in read[j];
      assert ReadsGoto(g, a, m, i, j);
      SpreadEdge(ReadsGraph(g, a, m), DirectReads(g, a, m), read, i, j, k);
    }
  }

  lemma SpreadStart(r: Graph, f0: seq<set<nat>>, f: seq<set<nat>>, i: nat, t: nat)
    requires Spread(r, f0, f) && i < |f0| && t in f0[i]
    ensures |f| == |f0| == |r| && t in f[i]
  {
    ReachRefl(r, i);
  }

  lemma SpreadEdge(r: Graph, f0: seq<set<nat>>, f: seq<set<nat>>, i: nat, j: nat, t: nat)
    requires Spread(r, f0, f) && i < |r| && j in r[i] && j < |f| && t in f[j]
    ensures |f| == |r| && t in f[i]
  {
    var w: nat :| Reach(r, j, w) && w < |r| && t in f0[w];
    EdgeReach(r, i, j);
    ReachTrans(r, i, j, w);
  }

  // A state with a transition on x has an item before x.
  lemma ItemBefore(g: Grammar, a: Automaton, p: int, x: int, q: int) returns (i: int)
    requires Valid(g) && Canonical(g, a) && Trans(a, p, x, q)
    ensures HasItem(g, a, p, i) && 1 <= i < |g.ritem| && g.ritem[i] == x
  {
    TransFacts(g, a, p, x, q);
    i := a.kernels[q][0] - 1;
    assert i + 1 in a.kernels[q];
  }

  // Where a transition on its left-hand side is possible, a rule can start.
  lemma RuleStarts(g: Grammar, a: Automaton, p: int, r: int, q: int)
    requires Valid(g) && Canonical(g, a) && 3 <= r < |g.rlhs| && Trans(a, p, g.rlhs[r], q)
    ensures r + 1 < |g.rrhs| && HasItem(g, a, p, g.rrhs[r]) && ItemOf(g, g.rrhs[r], r)
  {
    var i := ItemBefore(g, a, p, g.rlhs[r], q);
    StartsHere(g, a, p, i, r);
  }

  lemma {:induction false} PathItem(g: Grammar, a: Automaton, p: int, r: int, j: int, s: int)
    requires Valid(g) && Canonical(g, a) && 3 <= r < |g.rlhs| && r < |g.rrhs| && HasItem(g, a, p, g.rrhs[r])
    requires ItemOf(g, j, r) && PathOver(g, a, p, g.rrhs[r], j, s)
    ensures HasItem(g, a, s, j)
    decreases j - g.rrhs[r]
  {
    hide Valid, Canonical, HasItem;
    if g.rrhs[r] < j {
      var j' := j - 1;
      var u :| PathOver(g, a, p, g.rrhs[r], j', u) && Trans(a, u, g.ritem[j'], s);
      ItemStep(g, j', r);
      PathItem(g, a, p, r, j', u);
      AdvancedTo(g, a, u, j', s);
    }
  }

  // No transition is on $accept, and the goal's first transition leaves state 0.
  lemma NoAcceptGoto(g: Grammar, a: Automaton)
    requires Valid(g) && Canonical(g, a)
    ensures Bucket(a, g.ntokens, |a.shifts|) == []
  {
    hide Valid, Canonical, Trans, Bucket, HasItem, Ascending;
    var b := Bucket(a, g.ntokens, |a.shifts|);
    BucketExact(g, a, g.ntokens, |a.shifts|);
    if b != [] {
      assert b[0] in b;
      var i := ItemBefore(g, a, b[0].0, g.ntokens, b[0].1);
      NotBeforeAccept(g, i);
    }
  }

  lemma NotBeforeAccept(g: Grammar, i: int)
    requires Valid(g) && 1 <= i < |g.ritem|
    ensures g.ritem[i] != g.ntokens
  {
  }

  lemma GoalGoto(g: Grammar, a: Automaton, m: GotoMap)
    requires Valid(g) && Canonical(g, a) && ValidGotos(g, a, m)
    ensures |m.from| > 0 && GotoIs(g, a, m, 0, 0, g.Goal())
  {
    hide Trans;
    assert HasItem(g, a, 0, 1);
    var q := Advanced(g, a, 0, 1);
    var i := GotoOfTrans(g, a, m, 0, g.Goal(), q);
    TransFacts(g, a, 0, g.Goal(), q);
    NoAcceptGoto(g, a);
    assert BucketAt(g, a, m, 0);
    if i > 0 {
      BucketOrder(g, a, m, 1, 0, i);
    }
  }

  lemma FollowLooksClosed(g: Grammar, a: Automaton, m: GotoMap, read: seq<set<nat>>, follow: seq<set<nat>>)
    requires Valid(g) && Canonical(g, a) && ValidGotos(g, a, m) && ReadAndFollow(g, a, m, read, follow)
    ensures FollowClosed(g, a, Looking(g, a, m, read), Looking(g, a, m, follow))
  {
    hide Valid, Canonical, ValidGotos, Trans, Spread, PathOver, RestNullable;
    var l, l' := Looking(g, a, m, read), Looking(g, a, m, follow);
    SpreadSizes(g, a, m, read, follow);
    GoalGoto(g, a, m);
    EndIsRead(g, a, m, read);
    SpreadStart(IncludesGraph(g, a, m), read, follow, 0, 0);
    forall p, x, k | (p, x, k) in l
      ensures (p, x, k) in l'
    {
      var i: nat :| i < |read| && GotoIs(g, a, m, i, p, x) && k >= 0 && k in read[i];
      SpreadStart(IncludesGraph(g, a, m), read, follow, i, k);
    }
    forall p, k, r, j, s | FollowEdge(g, a, l', p, k, r, j, s)
      ensures (s, g.ritem[j], k) in l'
    {
      FollowLooksEdge(g, a, m, read, follow, p, k, r, j, s);
    }
  }

  lemma SpreadSizes(g: Grammar, a: Automaton, m: GotoMap, read: seq<set<nat>>, follow: seq<set<nat>>)
    requires Valid(g) && Canonical(g, a) && ValidGotos(g, a, m) && ReadAndFollow(g, a, m, read, follow)
    ensures |read| == |follow| == |m.from| == |m.to|
  {
  }

  lemma EndIsRead(g: Grammar, a: Automaton, m: GotoMap, read: seq<set<nat>>)
    requires Valid(g) && |m.to| > 0 && Spread(ReadsGraph(g, a, m), DirectReads(g, a, m), read)
    ensures |read| == |m.to| && 0 in read[0]
  {
    assert DirectlyReads(g, a, m, 0, 0);
    SpreadStart(ReadsGraph(g, a, m), DirectReads(g, a, m), read, 0, 0);
  }

  lemma FollowLooksEdge(g: Grammar, a: Automaton, m: GotoMap, read: seq<set<nat>>, follow: seq<set<nat>>, p: int, k: int, r: int, j: int, s: int)
    requires Valid(g) && Canonical(g, a) && ValidGotos(g, a, m) && ReadAndFollow(g, a, m, read, follow)
    requires FollowEdge(g, a, Looking(g, a, m, follow), p, k, r, j, s)
    ensures (s, g.ritem[j], k) in Looking(g, a, m, follow)
  {
    hide Valid, Canonical, ValidGotos, Trans, Spread, PathOver, RestNullable, InClosure;
    SpreadSizes(g, a, m, read, follow);
    var i: nat :| i < |follow| && GotoIs(g, a, m, i, p, g.rlhs[r]) && k >= 0 && k in follow[i];
    RuleStarts(g, a, p, r, m.to[i]);
    PathItem(g, a, p, r, j, s);
    ItemStep(g, j, r);
    VarPositive(g, g.ritem[j]);
    var q := Advanced(g, a, s, j);
    var n := GotoNumber(g, a, m, s, g.ritem[j], q);
    RestInside(g, r, j);
    assert IncludesAt(g, a, m, n, i, r, j);
    SpreadEdge(IncludesGraph(g, a, m), read, follow, n, i, k);
  }

  lemma VarPositive(g: Grammar, x: int)
    requires Valid(g) && g.IsVar(x)
    ensures x > 0
  {
  }

  lemma RestInside(g: Grammar, r: int, j: int)
    requires Valid(g) && ItemOf(g, j, r) && 0 <= j < |g.ritem| && g.IsVar(g.ritem[j])
    ensures j < g.rrhs[r + 1] - 1
  {
    assert ValidRule(g, r);
  }

  lemma LaLooksClosed(g: Grammar, a: Automaton, m: GotoMap, follow: seq<set<nat>>)
    requires |follow| == |m.from|
    ensures LaClosed(g, a, Looking(g, a, m, follow), LaLooking(g, a, m, follow))
  {
    hide PathOver, IsGotoNo;
    var l := Looking(g, a, m, follow);
    forall p, k, r, q | LaEdge(g, a, l, p, k, r, q)
      ensures (q, r, k) in LaLooking(g, a, m, follow)
    {
      var i: nat :| i < |follow| && GotoIs(g, a, m, i, p, g.rlhs[r]) && k >= 0 && k in follow[i];
      assert LooksBack(g, a, m, q, r, i);
      assert InLa(g, a, m, follow, q, r, k);
    }
  }
}
