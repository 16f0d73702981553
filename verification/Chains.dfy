/** Chains of rules by which a symbol becomes itself, and what they would make the parser do (byacc-1.9/skeleton.c). */
module Chains {
  import opened Wrappers
  import opened Grammar
  import opened Closures
  import opened Automata
  import opened Driver
  import opened Soundness
  import opened Completeness
  import opened Contexts

  // ---- reductions that use up nothing

  // Going over x does not accept, below another state or another variable than the goal.
  lemma NotAccepted(t: Tables, limit: nat, c: Config, x: int)
    requires c.stack != [] && (c.stack[|c.stack| - 1] != 0 || x != 0)
    ensures GoOver(t, limit, c, x) != Accepted
  {
  }

  lemma ReduceRuns(u: Setup, limit: nat, c: Config, base: seq<int>, r: int, p': int, w: seq<int>) returns (c': Config)
    requires SetupOk(u) && Ahead(u, c, w) && 3 <= r < |u.g.rlhs| && r + 1 < |u.g.rrhs|
    requires HasItem(u.g, u.a, Top(c), u.g.rrhs[r + 1] - 1) && (Top(c), r, First(w)) in u.la
    requires 0 < |base| < limit && |base| + RuleLength(u.g, r) == |c.stack| && base <= c.stack
    requires Trans(u.a, base[|base| - 1], u.g.rlhs[r], p') && (base[|base| - 1] != 0 || u.g.rlhs[r] != u.g.Goal())
    ensures Run(u.t, limit, c, 1) == Running(c') && c'.stack == base + [p'] && Ahead(u, c', w)
  {
    hide SetupOk, HasItem, GoOver, Trans, Step, Codes, ReducesOn;
    c' := SimReduce(u, limit, c, base, r, p', w);
    SetupGrammar(u);
    LookCode(u, c, w);
    ReadPending(c);
    RuleEntries(u, Top(c), r, First(w));
    StepReduces(u, limit, c, base, r, w);
    RunOnce(u.t, limit, c);
    NotAccepted(u.t, limit, (if u.t.defred[Top(c)] == r - 2 then c else Read(c)).(stack := base), u.g.rlhs[r] - u.g.Goal());
  }

  /** Above another state than 0, the parser goes over a tree with an empty yield without accepting. */
  lemma {:induction false} EmptyRuns(u: Setup, limit: nat, c: Config, i: int, t: Tree, s': int, w: seq<int>) returns (n: nat, c': Config)
    requires SetupOk(u) && 0 < |c.stack| && |c.stack| + Size(t) <= limit && Top(c) > 0
    requires HasItem(u.g, u.a, Top(c), i) && 1 <= i < |u.g.ritem| && ValidTree(u.g, t) && Root(u.g, t) == u.g.ritem[i] && Yield(t) == []
    requires Trans(u.a, Top(c), u.g.ritem[i], s') && Ahead(u, c, w) && (Top(c), u.g.ritem[i], First(w)) in u.follow
    ensures Run(u.t, limit, c, n) == Running(c') && c'.stack == c.stack + [s'] && Ahead(u, c', w)
    decreases t
  {
    hide SetupOk, HasItem, Trans, Ahead, PathOver, ItemOf, Run;
    match t
    case Node(r, kids) =>
      var p := Top(c);
      SetupGrammar(u);
      StartsHere(u.g, u.a, p, i, r);
      PathStart(u, p, r);
      var m, d := EmptyRunsIn(u, limit, c, p, u.g.rrhs[r], r, kids, w);
      StackPrefix(c.stack, d.stack);
      c' := ReduceRuns(u, limit, d, c.stack, r, s', w);
      RunAdd(u.t, limit, c, m, d, 1);
      n := m + 1;
  }

  lemma {:induction false} EmptyRunsIn(u: Setup, limit: nat, c: Config, p: int, i: int, r: int, f: Forest, w: seq<int>) returns (n: nat, c': Config)
    requires SetupOk(u) && 0 < |c.stack| && |c.stack| + Sizes(f) <= limit && Top(c) > 0
    requires 3 <= r && r + 1 < |u.g.rrhs| && r < |u.g.rlhs| && ItemOf(u.g, i, r) && Matches(u.g, f, i) && Yields(f) == []
    requires HasItem(u.g, u.a, Top(c), i) && PathOver(u.g, u.a, p, u.g.rrhs[r], i, Top(c))
    requires (p, u.g.rlhs[r], First(w)) in u.follow && Ahead(u, c, w)
    ensures Run(u.t, limit, c, n) == Running(c') && Ahead(u, c', w)
    ensures c.stack <= c'.stack && |c'.stack| == |c.stack| + (u.g.rrhs[r + 1] - 1 - i)
    ensures HasItem(u.g, u.a, Top(c'), u.g.rrhs[r + 1] - 1) && (Top(c'), r, First(w)) in u.la
    decreases f
  {
    hide SetupOk, HasItem, Trans, Ahead, PathOver, ItemOf, Run;
    SetupGrammar(u);
    ItemStep(u.g, i, r);
    match f
    case Nil =>
      n, c' := 0, c;
      RunNone(u.t, limit, c);
      LaOf(u, p, First(w), r, Top(c));
    case Cons(t, f') =>
      AheadTokens(u, c, w);
      var s' := EmptyNext(u, p, Top(c), i, r, f, w);
      var n1, c1 := EmptyRuns(u, limit, c, i, t, s', w);
      var n2, c2 := EmptyRunsIn(u, limit, c1, p, i + 1, r, f', w);
      RunAdd(u.t, limit, c, n1, c1, n2);
      PrefixOn(c.stack, s', c2.stack);
      n, c' := n1 + n2, c2;
  }

  lemma PrefixOn(p: seq<int>, x: int, q: seq<int>)
    requires p + [x] <= q
    ensures p <= q
  {
    assert (p + [x])[..|p|] == p;
  }

  // State s, before empty trees of rule r, can go over the first of them.
  lemma EmptyNext(u: Setup, p: int, s: int, i: int, r: int, f: Forest, w: seq<int>) returns (s': int)
    requires SetupOk(u) && 3 <= r && r + 1 < |u.g.rrhs| && r < |u.g.rlhs| && ItemOf(u.g, i, r) && Matches(u.g, f, i) && Yields(f) == [] && f.Cons?
    requires HasItem(u.g, u.a, s, i) && PathOver(u.g, u.a, p, u.g.rrhs[r], i, s) && (p, u.g.rlhs[r], First(w)) in u.follow && StartsWithToken(u.g, w)
    ensures 1 <= i < |u.g.ritem| && ValidTree(u.g, f.hd) && Root(u.g, f.hd) == u.g.ritem[i] && Yield(f.hd) == []
    ensures Trans(u.a, s, u.g.ritem[i], s') && s' > 0 && (s, u.g.ritem[i], First(w)) in u.follow
    ensures ItemOf(u.g, i + 1, r) && Matches(u.g, f.tl, i + 1) && Yields(f.tl) == []
    ensures HasItem(u.g, u.a, s', i + 1) && PathOver(u.g, u.a, p, u.g.rrhs[r], i + 1, s')
  {
    hide SetupOk, HasItem, Trans, PathOver, Valid, Canonical, ReadClosed, FollowClosed;
    SetupGrammar(u);
    ItemStep(u.g, i, r);
    EmptyRoot(u.g, f.hd, u.g.ritem[i]);
    s' := Advanced(u.g, u.a, s, i);
    MatchesOpen(u.g, f.tl, i + 1);
    assert [] + w == w;
    NextLook(u.g, u.a, u.read, u.follow, p, s, i, r, s', f.tl, w);
    PathStep(u, p, u.g.rrhs[r], i, s, s');
    AdvancedTo(u.g, u.a, s, i, s');
    TransFacts(u.g, u.a, s, u.g.ritem[i], s');
  }

  lemma RunNone(t: Tables, limit: nat, c: Config)
    ensures Run(t, limit, c, 0) == Running(c)
  {
  }

  lemma AheadTokens(u: Setup, c: Config, w: seq<int>)
    requires Ahead(u, c, w)
    ensures StartsWithToken(u.g, w) && Tokens(u, w)
  {
  }

  // ---- chains of rules

  /** A rule that has only empty symbols behind its first, with the trees of these. */
  datatype Link = Link(rule: int, rest: Forest)

  ghost predicate IsLink(g: Grammar, z: int, l: Link, y: int) {
    && 3 <= l.rule < |g.rlhs| && l.rule < |g.rrhs| && g.rlhs[l.rule] == y && 0 <= g.rrhs[l.rule] < |g.ritem|
    && g.ritem[g.rrhs[l.rule]] == z > 0 && Matches(g, l.rest, g.rrhs[l.rule] + 1) && Yields(l.rest) == []
  }

  /** By these rules, one after the other, x becomes y. */
  ghost predicate Chain(g: Grammar, x: int, links: seq<Link>, y: int) {
    if links == [] then x == y else
    var n := |links| - 1;
    exists z :: Chain(g, x, links[..n], z) && IsLink(g, z, links[n], y)
  }

  function ChainSize(links: seq<Link>): nat {
    if links == [] then 0 else ChainSize(links[..|links| - 1]) + Sizes(links[|links| - 1].rest)
  }

  // None of the rules is for the goal.
  ghost predicate AvoidsGoal(g: Grammar, links: seq<Link>) {
    forall k :: 0 <= k < |links| && 0 <= links[k].rule < |g.rlhs| ==> g.rlhs[links[k].rule] != g.Goal()
  }

  lemma {:induction false} ChainVar(g: Grammar, x: int, links: seq<Link>, y: int)
    requires Valid(g) && Chain(g, x, links, y) && g.IsVar(x)
    ensures g.IsVar(y)
  {
  }

  // What may follow y at state p may also follow the first symbol of a link for y.
  lemma LinkFollows(u: Setup, p: int, i: int, z: int, l: Link, y: int, k: int)
    requires SetupOk(u) && HasItem(u.g, u.a, p, i) && 1 <= i < |u.g.ritem| && u.g.ritem[i] == y && IsLink(u.g, z, l, y)
    requires (p, y, k) in u.follow && u.g.IsVar(z)
    ensures HasItem(u.g, u.a, p, u.g.rrhs[l.rule]) && ItemOf(u.g, u.g.rrhs[l.rule], l.rule) && (p, z, k) in u.follow
    ensures l.rule + 1 < |u.g.rrhs| && PathOver(u.g, u.a, p, u.g.rrhs[l.rule], u.g.rrhs[l.rule], p) && 1 <= u.g.rrhs[l.rule]
  {
    hide SetupOk, HasItem, Canonical, FollowClosed, ReadClosed, Matches;
    SetupGrammar(u);
    StartsHere(u.g, u.a, p, i, l.rule);
    PathStart(u, p, l.rule);
    assert ValidRule(u.g, l.rule);
    EmptyRest(u.g, l.rest, u.g.rrhs[l.rule] + 1);
    FollowsThrough(u.g, u.a, u.read, u.follow, p, k, l.rule, u.g.rrhs[l.rule], p);
  }

  /** The parser makes the reductions of a chain, in front of whatever may follow its end, and uses up nothing. */
  lemma {:induction false} ChainRuns(u: Setup, limit: nat, c: Config, i: int, x: int, links: seq<Link>, y: int, w: seq<int>)
    returns (n: nat, c': Config)
    requires SetupOk(u) && Chain(u.g, x, links, y) && u.g.IsVar(x) && AvoidsGoal(u.g, links) && |c.stack| >= 2 && |c.stack| + ChainSize(links) <= limit
    requires var p := c.stack[|c.stack| - 2]; HasItem(u.g, u.a, p, i) && Trans(u.a, p, x, Top(c)) && (p, y, First(w)) in u.follow
    requires 1 <= i < |u.g.ritem| && u.g.ritem[i] == y && Ahead(u, c, w)
    ensures n >= |links| && Run(u.t, limit, c, n) == Running(c') && Ahead(u, c', w)
    ensures |c'.stack| == |c.stack| && c'.stack[..|c.stack| - 1] == c.stack[..|c.stack| - 1] && Trans(u.a, c.stack[|c.stack| - 2], y, Top(c'))
    decreases |links|
  {
    hide SetupOk, HasItem, Trans, Ahead, PathOver, ItemOf, Run;
    if links == [] {
      n, c' := 0, c;
      RunNone(u.t, limit, c);
    } else {
      var k := |links| - 1;
      var l, before := links[k], links[..k];
      var z :| Chain(u.g, x, before, z) && IsLink(u.g, z, l, y);
      SetupGrammar(u);
      ChainVar(u.g, x, before, z);
      var base := c.stack[..|c.stack| - 1];
      var p := base[|base| - 1];
      LinkFollows(u, p, i, z, l, y, First(w));
      ShorterAvoids(u.g, links);
      var n1, c1 := ChainRuns(u, limit, c, u.g.rrhs[l.rule], x, before, z, w);
      var n2, c2 := LinkRuns(u, limit, c1, base, i, z, l, y, w);
      RunAdd(u.t, limit, c, n1, c1, n2);
      n, c' := n1 + n2, c2;
    }
  }

  lemma ShorterAvoids(g: Grammar, links: seq<Link>)
    requires AvoidsGoal(g, links) && links != []
    ensures AvoidsGoal(g, links[..|links| - 1])
    ensures 0 <= links[|links| - 1].rule < |g.rlhs| ==> g.rlhs[links[|links| - 1].rule] != g.Goal()
  {
    var n := |links| - 1;
    assert forall k :: 0 <= k < n ==> links[..n][k] == links[k];
  }

  lemma LinkRuns(u: Setup, limit: nat, c: Config, base: seq<int>, i: int, z: int, l: Link, y: int, w: seq<int>) returns (n: nat, c': Config)
    requires SetupOk(u) && IsLink(u.g, z, l, y) && y != u.g.Goal() && base != [] && c.stack == base + [Top(c)] && |c.stack| + Sizes(l.rest) <= limit
    requires var p := base[|base| - 1]; HasItem(u.g, u.a, p, i) && Trans(u.a, p, z, Top(c)) && (p, y, First(w)) in u.follow
    requires 1 <= i < |u.g.ritem| && u.g.ritem[i] == y && Ahead(u, c, w)
    ensures n >= 1 && Run(u.t, limit, c, n) == Running(c') && Ahead(u, c', w)
    ensures |c'.stack| == |c.stack| && c'.stack[..|base|] == base && Trans(u.a, base[|base| - 1], y, Top(c'))
  {
    hide SetupOk, HasItem, Trans, Ahead, PathOver, ItemOf, Run, Valid, Canonical;
    SetupGrammar(u);
    var p, q, r := base[|base| - 1], Top(c), l.rule;
    LinkStarts(u, p, i, z, l, y, q);
    var p' := Advanced(u.g, u.a, p, i);
    var n1, d := EmptyRunsIn(u, limit, c, p, u.g.rrhs[r] + 1, r, l.rest, w);
    assert base <= d.stack;
    c' := ReduceRuns(u, limit, d, base, r, p', w);
    RunAdd(u.t, limit, c, n1, d, 1);
    n := n1 + 1;
  }

  // After the first symbol of a link, its empty rest is to come.
  lemma LinkStarts(u: Setup, p: int, i: int, z: int, l: Link, y: int, q: int)
    requires SetupOk(u) && HasItem(u.g, u.a, p, i) && 1 <= i < |u.g.ritem| && u.g.ritem[i] == y && IsLink(u.g, z, l, y) && Trans(u.a, p, z, q)
    ensures var r := l.rule;
            && r + 1 < |u.g.rrhs| && ItemOf(u.g, u.g.rrhs[r] + 1, r) && HasItem(u.g, u.a, q, u.g.rrhs[r] + 1)
            && PathOver(u.g, u.a, p, u.g.rrhs[r], u.g.rrhs[r] + 1, q) && q > 0 && y > 0
  {
    hide SetupOk, HasItem, Canonical, Matches;
    SetupGrammar(u);
    StartsHere(u.g, u.a, p, i, l.rule);
    PathStart(u, p, l.rule);
    assert ValidRule(u.g, l.rule);
    AdvancedTo(u.g, u.a, p, u.g.rrhs[l.rule], q);
    PathStep(u, p, u.g.rrhs[l.rule], u.g.rrhs[l.rule], p, q);
    TransFacts(u.g, u.a, p, z, q);
  }

  // ---- the way out

  // What is still to be read, if the next token is k: k alone, or nothing for the end.
  function Remaining(k: int): seq<int> {
    if k == 0 then [] else [k]
  }

  // After n turns from c, the parser has accepted, or has shifted the token k that was ahead.
  ghost predicate Passes(u: Setup, limit: nat, c: Config, k: int, n: nat) {
    match Run(u.t, limit, c, n)
    case Accepted => true
    case Running(d) => k != 0 && Pending(d) == []
    case _ => false
  }

  lemma PassesLater(u: Setup, limit: nat, c: Config, m: nat, d: Config, k: int, n: nat)
    requires Run(u.t, limit, c, m) == Running(d) && Passes(u, limit, d, k, n)
    ensures Passes(u, limit, c, k, m + n)
  {
    hide Run;
    RunAdd(u.t, limit, c, m, d, n);
  }

  lemma PassesAfter(u: Setup, limit: nat, c: Config, m: nat, d: Config, k: int)
    requires Gets(u, limit, c, m, d)
    ensures Run(u.t, limit, c, m) == Running(d) || Passes(u, limit, c, k, m)
  {
  }

  /** The parser, standing before an open tree whose yield begins with the token ahead, comes to shift it. */
  lemma {:induction false} ShiftsFirst(u: Setup, limit: nat, c: Config, i: int, t: Tree, k: int) returns (n: nat)
    requires SetupOk(u) && 0 < |c.stack| && |c.stack| + Size(t) <= limit
    requires HasItem(u.g, u.a, Top(c), i) && 1 <= i < |u.g.ritem| && OpenTree(u.g, t) && Root(u.g, t) == u.g.ritem[i]
    requires Yield(t) != [] && Yield(t)[0] == k && 0 < k < u.g.ntokens && Ahead(u, c, [k])
    ensures Passes(u, limit, c, k, n)
    decreases t
  {
    hide SetupOk, HasItem, Trans, Ahead, Run, ItemOf;
    SetupGrammar(u);
    match t
    case Leaf(_) =>
      var s' := Advanced(u.g, u.a, Top(c), i);
      assert [k] + [] == [k];
      var c' := SimShift(u, limit, c, k, s', []);
      n := 1;
      NothingAhead(u, c');
      PassesAfter(u, limit, c, 1, c', k);
    case Node(r, kids) =>
      StartsHere(u.g, u.a, Top(c), i, r);
      n := ShiftsFirstIn(u, limit, c, u.g.rrhs[r], r, kids, k);
  }

  lemma NothingAhead(u: Setup, c: Config)
    requires Ahead(u, c, [])
    ensures Pending(c) == []
  {
  }

  // The first tree, and how the yield begins with it.
  lemma FirstThere(u: Setup, j: int, r: int, f: Forest, k: int)
    requires SetupOk(u) && ItemOf(u.g, j, r) && OpenMatches(u.g, f, j) && Yields(f) != [] && Yields(f)[0] == k
    ensures f.Cons? && 1 <= j < |u.g.ritem| && OpenTree(u.g, f.hd) && Root(u.g, f.hd) == u.g.ritem[j]
    ensures Yield(f.hd) != [] ==> Yield(f.hd)[0] == k
  {
    hide SetupOk;
    SetupGrammar(u);
    ItemStep(u.g, j, r);
  }

  lemma {:induction false} ShiftsFirstIn(u: Setup, limit: nat, c: Config, j: int, r: int, f: Forest, k: int) returns (n: nat)
    requires SetupOk(u) && 0 < |c.stack| && |c.stack| + Sizes(f) <= limit
    requires HasItem(u.g, u.a, Top(c), j) && ItemOf(u.g, j, r) && OpenMatches(u.g, f, j)
    requires Yields(f) != [] && Yields(f)[0] == k && 0 < k < u.g.ntokens && Ahead(u, c, [k])
    ensures Passes(u, limit, c, k, n)
    decreases f
  {
    hide SetupOk, HasItem, Trans, Ahead, Run, ItemOf, Gets, Passes, OpenMatches, OpenTree, ValidTree, Valid, Canonical, Yields;
    FirstThere(u, j, r, f, k);
    if Yield(f.hd) == [] {
      var s' := EmptyBefore(u, Top(c), j, r, f, k);
      AheadTokens(u, c, [k]);
      assert [] + [k] == [k];
      var m, d := SimTree(u, limit, c, j, f.hd, s', [k]);
      PassesAfter(u, limit, c, m, d, k);
      if Run(u.t, limit, c, m) == Running(d) {
        var n' := ShiftsFirstIn(u, limit, d, j + 1, r, f.tl, k);
        PassesLater(u, limit, c, m, d, k, n');
        n := m + n';
      } else {
        n := m;
      }
    } else {
      n := ShiftsFirst(u, limit, c, j, f.hd, k);
    }
  }

  // State s, before an empty tree and others whose yield begins with k, can go over the first before k.
  lemma EmptyBefore(u: Setup, s: int, j: int, r: int, f: Forest, k: int) returns (s': int)
    requires SetupOk(u) && HasItem(u.g, u.a, s, j) && ItemOf(u.g, j, r) && OpenMatches(u.g, f, j)
    requires Yields(f) != [] && Yields(f)[0] == k && 0 < k < u.g.ntokens && Yield(f.hd) == []
    ensures 1 <= j < |u.g.ritem| && ValidTree(u.g, f.hd) && Root(u.g, f.hd) == u.g.ritem[j] && Yields(f.tl) == Yields(f)
    ensures Trans(u.a, s, u.g.ritem[j], s') && HasItem(u.g, u.a, s', j + 1) && (s, u.g.ritem[j], k) in u.follow
    ensures ItemOf(u.g, j + 1, r) && OpenMatches(u.g, f.tl, j + 1)
  {
    hide SetupOk, HasItem, Trans, Valid, Canonical, ReadClosed, FollowClosed, ItemOf;
    SetupGrammar(u);
    ItemStep(u.g, j, r);
    EmptyIsValid(u.g, f.hd);
    EmptyRoot(u.g, f.hd, u.g.ritem[j]);
    s' := Advanced(u.g, u.a, s, j);
    assert Yields(f) == Yields(f.tl);
    ReadFirstOf(u.g, u.a, u.read, s, u.g.ritem[j], s', j + 1, r, f.tl);
    ReadIsFollow(u, s, u.g.ritem[j], k);
  }

  lemma ReadIsFollow(u: Setup, p: int, x: int, k: int)
    requires SetupOk(u) && (p, x, k) in u.read
    ensures (p, x, k) in u.follow
  {
  }

  // From position lo of the stack, the symbols w lead to its last state but one, and x to the last.
  ghost predicate Spells(a: Automaton, stack: seq<int>, lo: nat, w: seq<int>, x: int) {
    && |stack| == lo + |w| + 2 && (forall k :: 0 <= k < |w| ==> Trans(a, stack[lo + k], w[k], stack[lo + k + 1]))
    && Trans(a, stack[lo + |w|], x, stack[lo + |w| + 1])
  }

  lemma SpellsOn(a: Automaton, stack: seq<int>, lo: nat, w: seq<int>, x: int)
    requires Spells(a, stack, lo, w, x) && w != []
    ensures Trans(a, stack[lo], w[0], stack[lo + 1]) && Spells(a, stack, lo + 1, w[1..], x)
  {
    hide Trans;
    var w' := w[1..];
    assert forall k :: 0 <= k < |w'| ==> w'[k] == w[k + 1];
    forall k | 0 <= k < |w'|
      ensures Trans(a, stack[lo + 1 + k], w'[k], stack[lo + 1 + k + 1])
    {
      assert Trans(a, stack[lo + (k + 1)], w[k + 1], stack[lo + (k + 1) + 1]);
    }
  }

  /** The parser, standing behind the leaf x of an open tree t that is expanded no further to the left, comes to
      the end of t if nothing follows x in it; or it passes the token ahead. */
  lemma {:induction false} Leaves(u: Setup, limit: nat, c: Config, lo: nat, i: int, t: Tree, w: seq<int>, x: int, v: seq<int>, z: seq<int>, k: int, s': int)
    returns (passed: bool, n: nat, c': Config)
    requires SetupOk(u) && Spells(u.a, c.stack, lo, w, x) && |c.stack| + Size(t) <= limit && Opens(u.g, t, w, x, v)
    requires HasItem(u.g, u.a, c.stack[lo], i) && 1 <= i < |u.g.ritem| && Root(u.g, t) == u.g.ritem[i] && Trans(u.a, c.stack[lo], u.g.ritem[i], s')
    requires StartsWithToken(u.g, v + z) && k == First(v + z) && Ahead(u, c, Remaining(k))
    requires u.g.IsVar(u.g.ritem[i]) && StartsWithToken(u.g, z) ==> (c.stack[lo], u.g.ritem[i], First(z)) in u.follow
    ensures passed ==> Passes(u, limit, c, k, n)
    ensures !passed ==> v == [] && Run(u.t, limit, c, n) == Running(c') && c'.stack == c.stack[..lo + 1] + [s'] && Ahead(u, c', Remaining(k))
    decreases t
  {
    hide SetupOk, HasItem, Trans, Ahead, Run, ItemOf, PathOver, Passes;
    SetupGrammar(u);
    match t
    case Leaf(_) =>
      passed, n, c' := false, 0, c;
      RunNone(u.t, limit, c);
      TransUnique(u.g, u.a, c.stack[lo], x, s', c.stack[lo + 1]);
    case Node(r, kids) =>
      StartsHere(u.g, u.a, c.stack[lo], i, r);
      PathStart(u, c.stack[lo], r);
      LhsVar(u.g, r);
      var d;
      passed, n, d := LeavesIn(u, limit, c, lo, c.stack[lo], u.g.rrhs[r], r, kids, w, x, v, z, k);
      c' := d;
      if !passed {
        var base := c.stack[..lo + 1];
        assert v + z == z && First(Remaining(k)) == k;
        StackPrefix(base, d.stack);
        c' := SimReduce(u, limit, d, base, r, s', Remaining(k));
        PassesAfter(u, limit, d, 1, c', k);
        if Run(u.t, limit, d, 1) == Running(c') {
          RunAdd(u.t, limit, c, n, d, 1);
          n := n + 1;
        } else {
          PassesLater(u, limit, c, n, d, k, 1);
          passed, n := true, n + 1;
        }
      }
  }

  lemma {:induction false} LeavesIn(u: Setup, limit: nat, c: Config, lo: nat, p: int, j: int, r: int, f: Forest, w: seq<int>, x: int, v: seq<int>, z: seq<int>, k: int)
    returns (passed: bool, n: nat, c': Config)
    requires SetupOk(u) && Spells(u.a, c.stack, lo, w, x) && |c.stack| + Sizes(f) <= limit && OpensIn(u.g, f, j, w, x, v)
    requires 3 <= r < |u.g.rlhs| && r + 1 < |u.g.rrhs| && ItemOf(u.g, j, r) && HasItem(u.g, u.a, c.stack[lo], j)
    requires PathOver(u.g, u.a, p, u.g.rrhs[r], j, c.stack[lo])
    requires StartsWithToken(u.g, v + z) && k == First(v + z) && Ahead(u, c, Remaining(k))
    requires StartsWithToken(u.g, z) ==> (p, u.g.rlhs[r], First(z)) in u.follow
    ensures passed ==> Passes(u, limit, c, k, n)
    ensures !passed ==> v == [] && Run(u.t, limit, c, n) == Running(c') && Ahead(u, c', Remaining(k))
    ensures !passed ==> c.stack[..lo + 1] <= c'.stack && |c'.stack| == lo + 1 + (u.g.rrhs[r + 1] - 1 - j)
    ensures !passed ==> HasItem(u.g, u.a, Top(c'), u.g.rrhs[r + 1] - 1) && (Top(c'), r, k) in u.la
    decreases f
  {
    hide SetupOk, HasItem, Trans, Ahead, Run, ItemOf, PathOver, Passes, Spells;
    SetupGrammar(u);
    RuleInside(u.g, j, r);
    ItemStep(u.g, j, r);
    SpellsInside(u.a, c.stack, lo, w, x);
    var q := c.stack[lo];
    if OpensLater(u.g, f, j, w, x, v) {
      SpellsOn(u.a, c.stack, lo, w, x);
      AdvancedTo(u.g, u.a, q, j, c.stack[lo + 1]);
      PathStep(u, p, u.g.rrhs[r], j, q, c.stack[lo + 1]);
      passed, n, c' := LeavesIn(u, limit, c, lo + 1, p, j + 1, r, f.tl, w[1..], x, v, z, k);
      ShorterPrefix(c.stack, lo, c'.stack);
    } else {
      var m := |v| - |Yields(f.tl)|;
      var rest := Yields(f.tl);
      assert v + z == v[..m] + (rest + z);
      var s' := Advanced(u.g, u.a, q, j);
      if u.g.IsVar(u.g.ritem[j]) && StartsWithToken(u.g, rest + z) {
        NextLook(u.g, u.a, u.read, u.follow, p, q, j, r, s', f.tl, z);
      }
      var d;
      passed, n, d := Leaves(u, limit, c, lo, j, f.hd, w, x, v[..m], rest + z, k, s');
      c' := d;
      if !passed {
        assert v == rest;
        AdvancedTo(u.g, u.a, q, j, s');
        PathStep(u, p, u.g.rrhs[r], j, q, s');
        var n';
        passed, n', c' := RestRuns(u, limit, d, p, j + 1, r, f.tl, z, k);
        if passed {
          PassesLater(u, limit, c, n, d, k, n');
        } else {
          RunAdd(u.t, limit, c, n, d, n');
          AppendedPrefix(c.stack, lo, d.stack, c'.stack);
        }
        n := n + n';
      }
    }
  }

  lemma SpellsInside(a: Automaton, stack: seq<int>, lo: nat, w: seq<int>, x: int)
    requires Spells(a, stack, lo, w, x)
    ensures |stack| == lo + |w| + 2
  {
  }

  lemma ShorterPrefix(p: seq<int>, lo: nat, q: seq<int>)
    requires lo + 2 <= |p|
    ensures p[..lo + 2] <= q ==> p[..lo + 1] <= q
  {
    if p[..lo + 2] <= q {
      assert forall k :: 0 <= k < lo + 1 ==> p[..lo + 1][k] == p[..lo + 2][k] == q[k];
    }
  }

  lemma AppendedPrefix(p: seq<int>, lo: nat, d: seq<int>, q: seq<int>)
    requires lo < |p| && p[..lo + 1] <= d <= q
    ensures p[..lo + 1] <= q
  {
  }

  // The rest of a right-hand side, behind the leaf.
  lemma RestRuns(u: Setup, limit: nat, c: Config, p: int, j: int, r: int, f: Forest, z: seq<int>, k: int) returns (passed: bool, n: nat, c': Config)
    requires SetupOk(u) && 0 < |c.stack| && |c.stack| + Sizes(f) <= limit && OpenMatches(u.g, f, j)
    requires 3 <= r < |u.g.rlhs| && r + 1 < |u.g.rrhs| && ItemOf(u.g, j, r) && HasItem(u.g, u.a, Top(c), j)
    requires PathOver(u.g, u.a, p, u.g.rrhs[r], j, Top(c))
    requires StartsWithToken(u.g, Yields(f) + z) && k == First(Yields(f) + z) && Ahead(u, c, Remaining(k))
    requires StartsWithToken(u.g, z) ==> (p, u.g.rlhs[r], First(z)) in u.follow
    ensures passed ==> Passes(u, limit, c, k, n)
    ensures !passed ==> Yields(f) == [] && Run(u.t, limit, c, n) == Running(c') && Ahead(u, c', Remaining(k))
    ensures !passed ==> c.stack <= c'.stack && |c'.stack| == |c.stack| + (u.g.rrhs[r + 1] - 1 - j)
    ensures !passed ==> HasItem(u.g, u.a, Top(c'), u.g.rrhs[r + 1] - 1) && (Top(c'), r, k) in u.la
  {
    hide SetupOk, HasItem, Trans, Ahead, Run, ItemOf, PathOver, Passes, OpenMatches;
    if Yields(f) == [] {
      EmptyMatches(u.g, f, j);
      assert [] + z == z && First(Remaining(k)) == k && [] + Remaining(k) == Remaining(k);
      AheadTokens(u, c, Remaining(k));
      n, c' := SimForest(u, limit, c, p, j, r, f, Remaining(k));
      PassesAfter(u, limit, c, n, c', k);
      passed := Run(u.t, limit, c, n) != Running(c');
    } else {
      assert (Yields(f) + z)[0] == Yields(f)[0];
      n := ShiftsFirstIn(u, limit, c, j, r, f, k);
      passed, c' := true, c;
    }
  }

  /** From a leaf of a tree of the goal that is expanded no further to the left, the parser passes the token that
      follows, or accepts at the end. */
  lemma ContextPasses(u: Setup, limit: nat, c: Config, t: Tree, w: seq<int>, x: int, v: seq<int>, k: int) returns (n: nat)
    requires SetupOk(u) && t.Node? && Root(u.g, t) == u.g.Goal() && Opens(u.g, t, w, x, v) && StartsWithToken(u.g, v) && k == First(v)
    requires Spells(u.a, c.stack, 0, w, x) && c.stack[0] == 0 && Ahead(u, c, Remaining(k)) && |c.stack| + Size(t) <= limit
    ensures Passes(u, limit, c, k, n)
  {
    hide SetupOk, HasItem, Trans, Ahead, Run, ItemOf, PathOver, Passes, Spells, OpensIn;
    SetupGrammar(u);
    StartItem(u);
    SpellsInside(u.a, c.stack, 0, w, x);
    var s' := Advanced(u.g, u.a, 0, 1);
    var r := t.rule;
    StartsHere(u.g, u.a, 0, 1, r);
    PathStart(u, 0, r);
    assert v + [] == v;
    var passed, m, d := LeavesIn(u, limit, c, 0, 0, u.g.rrhs[r], r, t.kids, w, x, v, [], k);
    n := m;
    if !passed {
      assert c.stack[..1] == [0];
      StackPrefix([0], d.stack);
      var c' := SimReduce(u, limit, d, [0], r, s', []);
      AcceptPasses(u, limit, d, k);
      PassesLater(u, limit, c, m, d, k, 1);
      n := m + 1;
    }
  }

  lemma AcceptPasses(u: Setup, limit: nat, c: Config, k: int)
    requires Run(u.t, limit, c, 1) == Accepted
    ensures Passes(u, limit, c, k, 1)
  {
  }

  // ---- a chain that comes back to its start

  // Once all is read, it stays so.
  lemma TurnStaysRead(u: Setup, limit: nat, c: Config)
    requires SetupOk(u) && Pending(c) == []
    ensures Step(u.t, limit, c).Running? ==> Pending(Step(u.t, limit, c).c) == []
  {
    hide Canonical, Valid, ReadClosed, FollowClosed, LaClosed, Decides, Trans;
    if Step(u.t, limit, c).Running? {
      ReadPending(c);
      var s := c.stack[|c.stack| - 1];
      if u.t.defred[s] == 0 {
        NoShiftAtEnd(u, s);
      }
    }
  }

  lemma NoShiftAtEnd(u: Setup, s: int)
    requires SetupOk(u) && 0 <= s < |u.t.sindex|
    ensures Lookup(u.t, u.t.sindex[s], 0).None?
  {
    hide Canonical, Valid, ReadClosed, FollowClosed, LaClosed, Decides, Trans;
    assert ShiftFaithful(u.g, u.a, u.value, u.t, s, 0);
    if Lookup(u.t, u.t.sindex[s], 0).Some? {
      var k :| 0 <= k < u.g.ntokens && u.value[k] == 0 && Trans(u.a, s, k, Lookup(u.t, u.t.sindex[s], 0).value);
      TransFacts(u.g, u.a, s, k, Lookup(u.t, u.t.sindex[s], 0).value);
    }
  }

  lemma {:induction false} StaysRead(u: Setup, limit: nat, c: Config, n: nat)
    requires SetupOk(u) && Pending(c) == []
    ensures Run(u.t, limit, c, n).Running? ==> Pending(Run(u.t, limit, c, n).c) == []
    decreases n
  {
    hide SetupOk, Step;
    if n > 0 {
      TurnStaysRead(u, limit, c);
      if Step(u.t, limit, c).Running? {
        StaysRead(u, limit, Step(u.t, limit, c).c, n - 1);
      }
    }
  }

  lemma {:induction false} StatesAlong(a: Automaton, w: seq<int>, p: int) returns (st: seq<int>)
    requires Leads(a, 0, w, p)
    ensures |st| == |w| + 1 && st[0] == 0 && st[|w|] == p && forall k :: 0 <= k < |w| ==> Trans(a, st[k], w[k], st[k + 1])
    decreases |w|
  {
    hide Trans;
    if w == [] {
      st := [0];
    } else {
      var w', x := w[..|w| - 1], w[|w| - 1];
      var q :| Leads(a, 0, w', q) && Trans(a, q, x, p);
      var st' := StatesAlong(a, w', q);
      st := st' + [p];
    }
  }

  // The state before a leaf has an item for it.
  lemma {:induction false} ItemAtLeaf(g: Grammar, a: Automaton, s: int, i: int, t: Tree, w: seq<int>, x: int, v: seq<int>, p: int) returns (i': int)
    requires Valid(g) && Canonical(g, a) && HasItem(g, a, s, i) && 1 <= i < |g.ritem| && Root(g, t) == g.ritem[i] && Opens(g, t, w, x, v) && Leads(a, s, w, p)
    ensures HasItem(g, a, p, i') && 1 <= i' < |g.ritem| && g.ritem[i'] == x
    decreases t
  {
    hide Valid, Canonical, Trans, HasItem, Leads;
    match t
    case Leaf(_) =>
      LeadsNowhere(a, s, p);
      i' := i;
    case Node(r, kids) =>
      StartsHere(g, a, s, i, r);
      i' := ItemAtLeafIn(g, a, s, g.rrhs[r], r, kids, w, x, v, p);
  }

  lemma {:induction false} ItemAtLeafIn(g: Grammar, a: Automaton, s: int, j: int, r: int, f: Forest, w: seq<int>, x: int, v: seq<int>, p: int) returns (i': int)
    requires Valid(g) && Canonical(g, a) && HasItem(g, a, s, j) && 3 <= r && ItemOf(g, j, r) && OpensIn(g, f, j, w, x, v) && Leads(a, s, w, p)
    ensures HasItem(g, a, p, i') && 1 <= i' < |g.ritem| && g.ritem[i'] == x
    decreases f
  {
    hide Valid, Canonical, Trans, HasItem, Leads, ItemOf;
    RuleInside(g, j, r);
    ItemStep(g, j, r);
    if OpensLater(g, f, j, w, x, v) {
      var s' := Advanced(g, a, s, j);
      assert w == [w[0]] + w[1..];
      LeadsFirst(g, a, s, w[0], s', w[1..], p);
      i' := ItemAtLeafIn(g, a, s', j + 1, r, f.tl, w[1..], x, v, p);
    } else {
      i' := ItemAtLeaf(g, a, s, j, f.hd, w, x, v[..|v| - |Yields(f.tl)|], p);
    }
  }

  // The parser can go round a chain that comes back to its start as often as one likes.
  lemma {:induction false} GoesRound(u: Setup, limit: nat, c: Config, i: int, x: int, links: seq<Link>, w: seq<int>, n: nat) returns (m: nat, c': Config)
    requires SetupOk(u) && Chain(u.g, x, links, x) && links != [] && u.g.IsVar(x) && AvoidsGoal(u.g, links)
    requires |c.stack| >= 2 && |c.stack| + ChainSize(links) <= limit
    requires var p := c.stack[|c.stack| - 2]; HasItem(u.g, u.a, p, i) && Trans(u.a, p, x, Top(c)) && (p, x, First(w)) in u.follow
    requires 1 <= i < |u.g.ritem| && u.g.ritem[i] == x && Ahead(u, c, w)
    ensures m >= n && Run(u.t, limit, c, m) == Running(c') && Ahead(u, c', w)
    decreases n
  {
    hide SetupOk, HasItem, Trans, Ahead, Run, Chain, ChainSize;
    if n == 0 {
      m, c' := 0, c;
      RunNone(u.t, limit, c);
    } else {
      var m1, d := ChainRuns(u, limit, c, i, x, links, x, w);
      assert d.stack[|c.stack| - 2] == d.stack[..|c.stack| - 1][|c.stack| - 2] == c.stack[..|c.stack| - 1][|c.stack| - 2];
      var m2;
      m2, c' := GoesRound(u, limit, d, i, x, links, w, n - 1);
      RunAdd(u.t, limit, c, m1, d, m2);
      m := m1 + m2;
    }
  }

  // In front of token k, or the end.
  lemma Facing(u: Setup, stack: seq<int>, k: int) returns (c: Config)
    requires SetupOk(u) && 0 <= k < u.g.ntokens
    ensures c.stack == stack && Ahead(u, c, Remaining(k))
  {
    hide Canonical, Valid, ReadClosed, FollowClosed, LaClosed, Decides;
    c := Config(stack, -1, if k == 0 then [] else [u.value[k]]);
    assert k != 0 ==> Sentence([u.value[k]]) == [u.value[k]] + Sentence([]);
    assert Codes(u.value, Remaining(k)) == if k == 0 then [] else [u.value[k]];
  }

  /** Where the tables decide every action, no variable other than the goal that can occur before a token, or at the
      end, comes back to itself by a chain of rules. */
  lemma NoChainRound(u: Setup, t: Tree, w: seq<int>, x: int, v: seq<int>, p: int, links: seq<Link>)
    requires SetupOk(u) && Root(u.g, t) == u.g.Goal() && Opens(u.g, t, w, x, v) && StartsWithToken(u.g, v) && Leads(u.a, 0, w, p) && u.g.IsVar(x)
    requires Chain(u.g, x, links, x) && AvoidsGoal(u.g, links)
    ensures links == []
  {
    hide SetupOk, HasItem, Trans, Ahead, Run, Chain, ChainSize, Opens, Leads, AvoidsGoal;
    if links != [] {
      SetupGrammar(u);
      StartItem(u);
      NotTheGoal(u.g, x, links);
      NodeOpens(u.g, t, w, x, v);
      var i := ItemAtLeaf(u.g, u.a, 0, 1, t, w, x, v, p);
      FollowsInTree(u.g, u.a, u.read, u.follow, 0, 1, t, w, x, v, [], p);
      assert v + [] == v;
      var q := Advanced(u.g, u.a, p, i);
      var st := StatesAlong(u.a, w, p);
      var k := First(v);
      var c := Facing(u, st + [q], k);
      assert Spells(u.a, c.stack, 0, w, x);
      var limit := |c.stack| + Size(t) + ChainSize(links);
      var n := ContextPasses(u, limit, c, t, w, x, v, k);
      assert First(Remaining(k)) == k;
      var m, d := GoesRound(u, limit, c, i, x, links, Remaining(k), n);
      CannotBoth(u, limit, c, k, n, m, d);
      assert false;
    }
  }

  lemma NodeOpens(g: Grammar, t: Tree, w: seq<int>, x: int, v: seq<int>)
    requires Opens(g, t, w, x, v) && Root(g, t) != x
    ensures t.Node?
  {
  }

  lemma NotTheGoal(g: Grammar, x: int, links: seq<Link>)
    requires Chain(g, x, links, x) && links != [] && AvoidsGoal(g, links)
    ensures x != g.Goal()
  {
  }

  lemma CannotBoth(u: Setup, limit: nat, c: Config, k: int, n: nat, m: nat, d: Config)
    requires SetupOk(u) && Passes(u, limit, c, k, n) && n <= m && Run(u.t, limit, c, m) == Running(d)
    ensures !Ahead(u, d, Remaining(k))
  {
    hide SetupOk, Run, Codes, Ahead;
    if Run(u.t, limit, c, n) == Accepted {
      RunEnded(u.t, limit, c, n, m);
    } else {
      var e := Run(u.t, limit, c, n).c;
      RunAdd(u.t, limit, c, n, e, m - n);
      StaysRead(u, limit, e, m - n);
      if Ahead(u, d, Remaining(k)) {
        AheadSize(u, d, Remaining(k));
      }
    }
  }

  lemma AheadSize(u: Setup, c: Config, w: seq<int>)
    requires Ahead(u, c, w)
    ensures |Pending(c)| == |w|
  {
  }
}
