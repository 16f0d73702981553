/** The driver accepts all that the grammar derives, when the look-ahead sets leave it no choice. */
module Completeness {
  import opened Wrappers
  import opened Grammar
  import opened Closures
  import opened Automata
  import opened Driver
  import opened Soundness

  // From state p, the symbols ritem[i..j] lead to state s.
  ghost predicate PathOver(g: Grammar, a: Automaton, p: int, i: int, j: int, s: int)
    decreases j
  {
    0 <= i <= j <= |g.ritem| &&
    if i == j then p == s else
    var j' := j - 1;
    exists u :: PathOver(g, a, p, i, j', u) && Trans(a, u, g.ritem[j'], s)
  }

  // The symbols from item j to the end of its rule all derive the empty string.
  ghost predicate RestNullable(g: Grammar, j: int)
    decreases |g.ritem| - j
  {
    0 <= j < |g.ritem| && (g.ritem[j] < 0 || (Nullable(g, g.ritem[j]) && RestNullable(g, j + 1)))
  }

  /** Look-ahead information about transitions: (p, x, k) says that token k can come after state p has gone
      over variable x. In la, (q, r, k) says that state q may reduce by rule r before token k. */
  type Looks = iset<(int, int, int)>

  ghost predicate ReadClosed(g: Grammar, a: Automaton, read: Looks) {
    && (forall p, x, q, k, s {:trigger Trans(a, p, x, q), Trans(a, q, k, s)} ::
          Trans(a, p, x, q) && g.IsVar(x) && Trans(a, q, k, s) && g.IsToken(k) ==> (p, x, k) in read)
    && (forall p, x, q, y, s, k {:trigger Trans(a, p, x, q), Trans(a, q, y, s), (q, y, k) in read} ::
          Trans(a, p, x, q) && g.IsVar(x) && Trans(a, q, y, s) && g.IsVar(y) && Nullable(g, y) && (q, y, k) in read
          ==> (p, x, k) in read)
  }

  ghost predicate FollowClosed(g: Grammar, a: Automaton, read: Looks, follow: Looks) {
    && (0, g.Goal(), 0) in follow
    && (forall p, x, k :: (p, x, k) in read ==> (p, x, k) in follow)
    && (forall p, k, r, j, s {:trigger FollowEdge(g, a, follow, p, k, r, j, s)} :: FollowEdge(g, a, follow, p, k, r, j, s)
          ==> (s, g.ritem[j], k) in follow)
  }

  // Rule r stands at state p before token k, and its item j, reached at state s, has only empty symbols behind it.
  ghost predicate FollowEdge(g: Grammar, a: Automaton, follow: Looks, p: int, k: int, r: int, j: int, s: int) {
    && 3 <= r < |g.rlhs| && r < |g.rrhs| && (p, g.rlhs[r], k) in follow
    && ItemOf(g, j, r) && 0 <= j < |g.ritem| && PathOver(g, a, p, g.rrhs[r], j, s)
    && g.IsVar(g.ritem[j]) && RestNullable(g, j + 1)
  }

  // Rule r stands at state p before token k, and state q completes it.
  ghost predicate LaEdge(g: Grammar, a: Automaton, follow: Looks, p: int, k: int, r: int, q: int) {
    && 3 <= r < |g.rlhs| && r + 1 < |g.rrhs| && (p, g.rlhs[r], k) in follow
    && PathOver(g, a, p, g.rrhs[r], g.rrhs[r + 1] - 1, q)
  }

  ghost predicate LaClosed(g: Grammar, a: Automaton, follow: Looks, la: Looks) {
    forall p, k, r, q :: LaEdge(g, a, follow, p, k, r, q) ==> (q, r, k) in la
  }

  /** The tables make every transition and every reduction that la allows. */
  ghost predicate Decides(g: Grammar, a: Automaton, value: seq<int>, la: Looks, t: Tables)
    requires Valid(g)
  {
    && |value| == g.ntokens
    && (forall s, k, s' :: Trans(a, s, k, s') && 0 < k < g.ntokens ==> Shifts(t, s, value[k], s'))
    && (forall s, r, k :: 0 <= s < |a.kernels| && Completes(g, a.kernels[s], r) && 0 <= k < g.ntokens && (s, r, k) in la
                          ==> ReducesOn(t, s, value[k], r - 2))
  }

  ghost predicate Shifts(t: Tables, s: int, c: int, s': int) {
    0 <= s < |t.defred| && s < |t.sindex| && t.defred[s] == 0 && Lookup(t, t.sindex[s], c) == Some(s')
  }

  ghost predicate ReducesOn(t: Tables, s: int, c: int, n: int) {
    0 <= s < |t.defred| && s < |t.sindex| && s < |t.rindex| && n > 0 &&
    (t.defred[s] == n || (t.defred[s] == 0 && Lookup(t, t.sindex[s], c) == None && Lookup(t, t.rindex[s], c) == Some(n)))
  }

  // A state that can go over x can also start the rules of x.
  lemma StartsHere(g: Grammar, a: Automaton, p: int, i: int, r: int)
    requires Valid(g) && Canonical(g, a) && HasItem(g, a, p, i) && 1 <= i < |g.ritem| && 3 <= r < |g.rlhs| && g.ritem[i] == g.rlhs[r]
    ensures HasItem(g, a, p, g.rrhs[r]) && ItemOf(g, g.rrhs[r], r)
  {
    ClosureStep(g, a.kernels[p], i, r);
    assert ValidRule(g, r);
  }

  lemma ReadsDirectly(g: Grammar, a: Automaton, read: Looks, p: int, x: int, q: int, k: int, s: int)
    requires ReadClosed(g, a, read) && Trans(a, p, x, q) && g.IsVar(x) && Trans(a, q, k, s) && g.IsToken(k)
    ensures (p, x, k) in read
  {
  }

  lemma ReadsThrough(g: Grammar, a: Automaton, read: Looks, p: int, x: int, q: int, y: int, s: int, k: int)
    requires ReadClosed(g, a, read) && Trans(a, p, x, q) && g.IsVar(x) && Trans(a, q, y, s) && Nullable(g, y) && g.IsVar(y)
    requires (q, y, k) in read
    ensures (p, x, k) in read
  {
  }

  /** If an open tree that can stand at state q starts with token k, then k can be read after any transition on a
      variable into q. */
  lemma {:induction false} ReadFirst(g: Grammar, a: Automaton, read: Looks, p: int, x: int, q: int, i: int, t: Tree)
    requires Valid(g) && Canonical(g, a) && ReadClosed(g, a, read) && Trans(a, p, x, q) && g.IsVar(x)
    requires HasItem(g, a, q, i) && 1 <= i < |g.ritem| && OpenTree(g, t) && Root(g, t) == g.ritem[i]
    requires Yield(t) != [] && g.IsToken(Yield(t)[0])
    ensures (p, x, Yield(t)[0]) in read
    decreases t
  {
    hide Valid, Canonical, InClosure, ReadClosed, Trans;
    match t
    case Leaf(k) =>
      var s := Advanced(g, a, q, i);
      ReadsDirectly(g, a, read, p, x, q, k, s);
    case Node(r, kids) =>
      StartsHere(g, a, q, i, r);
      ReadFirstOf(g, a, read, p, x, q, g.rrhs[r], r, kids);
  }

  lemma {:induction false} ReadFirstOf(g: Grammar, a: Automaton, read: Looks, p: int, x: int, q: int, i: int, r: int, f: Forest)
    requires Valid(g) && Canonical(g, a) && ReadClosed(g, a, read) && Trans(a, p, x, q) && g.IsVar(x)
    requires HasItem(g, a, q, i) && ItemOf(g, i, r) && OpenMatches(g, f, i) && Yields(f) != [] && g.IsToken(Yields(f)[0])
    ensures (p, x, Yields(f)[0]) in read
    decreases f
  {
    hide Valid, Canonical, InClosure, ReadClosed, Trans, HasItem;
    ItemStep(g, i, r);
    if Yield(f.hd) != [] {
      ReadFirst(g, a, read, p, x, q, i, f.hd);
    } else {
      EmptyIsValid(g, f.hd);
      EmptyRoot(g, f.hd, g.ritem[i]);
      var s := Advanced(g, a, q, i);
      assert Yields(f) == Yields(f.tl);
      ReadFirstOf(g, a, read, q, g.ritem[i], s, i + 1, r, f.tl);
      ReadsThrough(g, a, read, p, x, q, g.ritem[i], s, Yields(f)[0]);
    }
  }

  lemma EmptyRoot(g: Grammar, t: Tree, x: int)
    requires Valid(g) && ValidTree(g, t) && Root(g, t) == x && Yield(t) == []
    ensures Nullable(g, x) && x >= g.Goal() && g.IsVar(x) && x > 0
  {
    assert Nullable(g, x);
  }

  lemma {:induction false} EmptyRest(g: Grammar, f: Forest, i: int)
    requires Matches(g, f, i) && Yields(f) == []
    ensures RestNullable(g, i)
    decreases f
  {
    if f.Cons? {
      assert Nullable(g, Root(g, f.hd));
      EmptyRest(g, f.tl, i + 1);
    }
  }

  // The token that stands first in w, or $end.
  function First(w: seq<int>): int {
    if w == [] then 0 else w[0]
  }

  lemma FollowsThrough(g: Grammar, a: Automaton, read: Looks, follow: Looks, p: int, k: int, r: int, j: int, s: int)
    requires FollowClosed(g, a, read, follow) && FollowEdge(g, a, follow, p, k, r, j, s)
    ensures (s, g.ritem[j], k) in follow
  {
  }

  // The string is empty or starts with a token.
  predicate StartsWithToken(g: Grammar, w: seq<int>) {
    w == [] || 0 < w[0] < g.ntokens
  }

  // What follows the tree at item i, inside its rule or after it, can follow its root, if it is a token.
  lemma NextLook(g: Grammar, a: Automaton, read: Looks, follow: Looks, p: int, s: int, i: int, r: int, s': int, f: Forest, z: seq<int>)
    requires Valid(g) && Canonical(g, a) && ReadClosed(g, a, read) && FollowClosed(g, a, read, follow)
    requires 3 <= r && ItemOf(g, i, r) && PathOver(g, a, p, g.rrhs[r], i, s)
    requires StartsWithToken(g, z) ==> (p, g.rlhs[r], First(z)) in follow
    requires HasItem(g, a, s, i) && 1 <= i < |g.ritem| && g.IsVar(g.ritem[i]) && Trans(a, s, g.ritem[i], s') && OpenMatches(g, f, i + 1)
    requires StartsWithToken(g, Yields(f) + z)
    ensures (s, g.ritem[i], First(Yields(f) + z)) in follow
  {
    hide Valid, Canonical, InClosure, ReadClosed, Trans, HasItem, PathOver;
    if Yields(f) == [] {
      EmptyMatches(g, f, i + 1);
      EmptyRest(g, f, i + 1);
      assert Yields(f) + z == z;
      FollowsThrough(g, a, read, follow, p, First(z), r, i, s);
    } else {
      AdvancedTo(g, a, s, i, s');
      ItemStep(g, i, r);
      ReadFirstOf(g, a, read, s, g.ritem[i], s', i + 1, r, f);
    }
  }

  /** A grammar, its automaton and tables, and the look-ahead information behind them. */
  datatype Setup = Setup(g: Grammar, a: Automaton, value: seq<int>, t: Tables, read: Looks, follow: Looks, la: Looks)

  ghost predicate SetupOk(u: Setup) {
    && Valid(u.g) && Canonical(u.g, u.a) && Faithful(u.g, u.a, u.value, u.t) && Decides(u.g, u.a, u.value, u.la, u.t)
    && ReadClosed(u.g, u.a, u.read) && FollowClosed(u.g, u.a, u.read, u.follow) && LaClosed(u.g, u.a, u.follow, u.la)
  }

  // A string of tokens other than $end.
  ghost predicate Tokens(u: Setup, w: seq<int>) {
    |u.value| == u.g.ntokens && forall k :: 0 <= k < |w| ==> 0 < w[k] < u.g.ntokens
  }

  // The input that c has not yet shifted spells w.
  ghost predicate Ahead(u: Setup, c: Config, w: seq<int>) {
    Tokens(u, w) && Pending(c) == Codes(u.value, w)
  }

  lemma CodesTail(u: Setup, k: int, z: seq<int>)
    requires Tokens(u, [k] + z)
    ensures 0 < k < u.g.ntokens && Tokens(u, z) && Codes(u.value, [k] + z) == [u.value[k]] + Codes(u.value, z)
  {
    var w := [k] + z;
    assert w[0] == k;
    assert forall i :: 0 <= i < |z| ==> w[i + 1] == z[i];
  }

  // The code of the next token, or 0 at the end.
  lemma LookCode(u: Setup, c: Config, w: seq<int>)
    requires SetupOk(u) && Ahead(u, c, w)
    ensures 0 <= First(w) < u.g.ntokens && |u.value| == u.g.ntokens
    ensures Read(c).yychar == u.value[First(w)]
  {
    ReadPending(c);
  }

  function Size(t: Tree): nat {
    match t
    case Leaf(_) => 1
    case Node(_, kids) => 1 + Sizes(kids)
  }

  function Sizes(f: Forest): nat {
    match f
    case Nil => 0
    case Cons(t, f') => Size(t) + Sizes(f')
  }

  // The top of the stack.
  function Top(c: Config): int {
    if c.stack == [] then -1 else c.stack[|c.stack| - 1]
  }

  // From c the parser accepts, or in n steps reaches c'.
  ghost predicate Gets(u: Setup, limit: nat, c: Config, n: nat, c': Config) {
    var o := Run(u.t, limit, c, n);
    o == Accepted || o == Running(c')
  }

  lemma GetsAdd(u: Setup, limit: nat, c: Config, n: nat, c': Config, m: nat, c'': Config)
    requires Gets(u, limit, c, n, c') && Gets(u, limit, c', m, c'')
    ensures Gets(u, limit, c, n + m, c'')
  {
    if Run(u.t, limit, c, n) == Accepted {
      RunEnded(u.t, limit, c, n, n + m);
    } else {
      RunAdd(u.t, limit, c, n, c', m);
    }
  }

  // A run that has ended stays so.
  lemma {:induction false} RunEnded(t: Tables, limit: nat, c: Config, n: nat, m: nat)
    requires !Run(t, limit, c, n).Running? && n <= m
    ensures Run(t, limit, c, m) == Run(t, limit, c, n)
    decreases n
  {
    hide Step;
    if Step(t, limit, c).Running? {
      RunEnded(t, limit, Step(t, limit, c).c, n - 1, m - 1);
    }
  }

  lemma SimShift(u: Setup, limit: nat, c: Config, k: int, s': int, z: seq<int>) returns (c': Config)
    requires SetupOk(u) && Ahead(u, c, [k] + z) && Trans(u.a, Top(c), k, s') && 0 < |c.stack| < limit
    ensures Gets(u, limit, c, 1, c') && c'.stack == c.stack + [s'] && Ahead(u, c', z)
  {
    hide Valid, Canonical, ReadClosed, FollowClosed, LaClosed;
    var w := [k] + z;
    assert w[0] == k;
    LookCode(u, c, w);
    ReadPending(c);
    assert Shifts(u.t, Top(c), u.value[k], s') && u.value[k] > 0;
    c' := Config(c.stack + [s'], -1, Read(c).input);
    CodesTail(u, k, z);
    assert ([u.value[k]] + Codes(u.value, z))[1..] == Codes(u.value, z);
    assert Pending(Read(c))[1..] == Sentence(Read(c).input);
    assert Run(u.t, limit, c, 1) == Step(u.t, limit, c);
  }

  // Going over x from the state on top of the stack pushes its successor, or accepts.
  lemma SimGoOver(u: Setup, limit: nat, c: Config, x: int, p': int, w: seq<int>) returns (o: Outcome)
    requires SetupOk(u) && Ahead(u, c, w) && Trans(u.a, Top(c), x, p') && x >= u.g.Goal() && 0 < |c.stack| < limit
    ensures o == GoOver(u.t, limit, c, x - u.g.Goal())
    ensures o == Accepted || (o.Running? && o.c.stack == c.stack + [p'] && Ahead(u, o.c, w))
    ensures w == [] && Top(c) == 0 && x == u.g.Goal() ==> o == Accepted
  {
    hide Valid, Canonical, ReadClosed, FollowClosed, LaClosed, Decides, Faithful;
    var p := Top(c);
    FaithfulGoto(u.g, u.a, u.value, u.t, p, x, p');
    o := GoOver(u.t, limit, c, x - u.g.Goal());
    if p == 0 && x == u.g.Goal() {
      TransUnique(u.g, u.a, 0, x, p', u.t.final);
      ReadPending(c.(stack := c.stack + [p']));
    }
  }

  // State q, on top of the stack, reduces by rule r on what is ahead.
  lemma SimReduce(u: Setup, limit: nat, c: Config, base: seq<int>, r: int, p': int, w: seq<int>) returns (c': Config)
    requires SetupOk(u) && Ahead(u, c, w) && 3 <= r < |u.g.rlhs| && r + 1 < |u.g.rrhs|
    requires HasItem(u.g, u.a, Top(c), u.g.rrhs[r + 1] - 1) && (Top(c), r, First(w)) in u.la
    requires 0 < |base| < limit && |base| + RuleLength(u.g, r) == |c.stack| && base <= c.stack
    requires Trans(u.a, base[|base| - 1], u.g.rlhs[r], p')
    ensures Gets(u, limit, c, 1, c') && c'.stack == base + [p'] && Ahead(u, c', w)
    ensures w == [] && base[|base| - 1] == 0 && u.g.rlhs[r] == u.g.Goal() ==> Run(u.t, limit, c, 1) == Accepted
  {
    hide SetupOk, HasItem, GoOver, Trans, Step, Codes, ReducesOn;
    var q := Top(c);
    LookCode(u, c, w);
    ReadPending(c);
    RuleEntries(u, q, r, First(w));
    var c0 := if u.t.defred[q] == r - 2 then c else Read(c);
    var c1 := c0.(stack := base);
    var o := SimGoOver(u, limit, c1, u.g.rlhs[r], p', w);
    StepReduces(u, limit, c, base, r, w);
    RunOnce(u.t, limit, c);
    c' := if o.Running? then o.c else c.(stack := base + [p']);
  }

  lemma RunOnce(t: Tables, limit: nat, c: Config)
    ensures Run(t, limit, c, 1) == Step(t, limit, c)
  {
    hide Step;
    assert Run(t, limit, c, 1) == (match Step(t, limit, c) case Running(d) => Run(t, limit, d, 0) case e => e);
  }

  // What the tables say about rule r, which state q completes and may reduce by before token k.
  lemma RuleEntries(u: Setup, q: int, r: int, k: int)
    requires SetupOk(u) && 3 <= r < |u.g.rlhs| && r + 1 < |u.g.rrhs| && 0 <= k < u.g.ntokens == |u.value|
    requires HasItem(u.g, u.a, q, u.g.rrhs[r + 1] - 1) && (q, r, k) in u.la
    ensures ReducesOn(u.t, q, u.value[k], r - 2) && 0 <= q < |u.t.defred|
    ensures At(u.t.len, r - 2) == Some(RuleLength(u.g, r)) && At(u.t.lhs, r - 2) == Some(u.g.rlhs[r] - u.g.Goal())
    ensures RuleLength(u.g, r) >= 0 && u.g.rlhs[r] >= u.g.Goal() && Valid(u.g)
  {
    hide Canonical, ReadClosed, FollowClosed, LaClosed, Faithful, InClosure;
    assert ValidRule(u.g, r);
    assert Completes(u.g, u.a.kernels[q], r);
    FaithfulRule(u.g, u.a, u.value, u.t, r - 2);
    LhsIsVar(u.g, r);
  }

  lemma StepReduces(u: Setup, limit: nat, c: Config, base: seq<int>, r: int, w: seq<int>)
    requires Valid(u.g) && Ahead(u, c, w) && 3 <= r < |u.g.rlhs| && r + 1 < |u.g.rrhs| && First(w) < |u.value| && 0 <= First(w)
    requires Read(c).yychar == u.value[First(w)] && 0 < |c.stack|
    requires At(u.t.len, r - 2) == Some(RuleLength(u.g, r)) && At(u.t.lhs, r - 2) == Some(u.g.rlhs[r] - u.g.Goal())
    requires ReducesOn(u.t, Top(c), u.value[First(w)], r - 2)
    requires 0 < |base| && |base| + RuleLength(u.g, r) == |c.stack| && base <= c.stack && RuleLength(u.g, r) >= 0
    ensures Step(u.t, limit, c) ==
            GoOver(u.t, limit, (if u.t.defred[Top(c)] == r - 2 then c else Read(c)).(stack := base), u.g.rlhs[r] - u.g.Goal())
  {
    hide Valid, GoOver;
    ReadPending(c);
    assert c.stack[..|c.stack| - RuleLength(u.g, r)] == base;
  }

  /** The parser, standing before a tree that its top state can go over and that what follows allows, consumes
      the yield of the tree and goes over its root, or accepts. */
  lemma {:induction false} SimTree(u: Setup, limit: nat, c: Config, i: int, t: Tree, s': int, z: seq<int>) returns (n: nat, c': Config)
    requires SetupOk(u) && 0 < |c.stack| && |c.stack| + Size(t) <= limit
    requires HasItem(u.g, u.a, Top(c), i) && 1 <= i < |u.g.ritem| && ValidTree(u.g, t) && Root(u.g, t) == u.g.ritem[i]
    requires Trans(u.a, Top(c), u.g.ritem[i], s') && Ahead(u, c, Yield(t) + z) && Tokens(u, z)
    requires t.Node? ==> (Top(c), u.g.ritem[i], First(z)) in u.follow
    ensures Gets(u, limit, c, n, c') && c'.stack == c.stack + [s'] && Ahead(u, c', z)
    decreases t
  {
    hide SetupOk, HasItem, Trans, Ahead, Gets, PathOver, ItemOf;
    match t
    case Leaf(k) =>
      c' := SimShift(u, limit, c, k, s', z);
      n := 1;
    case Node(r, kids) =>
      var p := Top(c);
      SetupGrammar(u);
      StartsHere(u.g, u.a, p, i, r);
      PathStart(u, p, r);
      var m, d := SimForest(u, limit, c, p, u.g.rrhs[r], r, kids, z);
      StackPrefix(c.stack, d.stack);
      c' := SimReduce(u, limit, d, c.stack, r, s', z);
      GetsAdd(u, limit, c, m, d, 1, c');
      n := m + 1;
  }

  lemma {:induction false} SimForest(u: Setup, limit: nat, c: Config, p: int, i: int, r: int, f: Forest, z: seq<int>) returns (n: nat, c': Config)
    requires SetupOk(u) && 0 < |c.stack| && |c.stack| + Sizes(f) <= limit
    requires 3 <= r && r + 1 < |u.g.rrhs| && r < |u.g.rlhs| && ItemOf(u.g, i, r) && Matches(u.g, f, i)
    requires HasItem(u.g, u.a, Top(c), i) && PathOver(u.g, u.a, p, u.g.rrhs[r], i, Top(c))
    requires (p, u.g.rlhs[r], First(z)) in u.follow && Ahead(u, c, Yields(f) + z) && Tokens(u, z)
    ensures Gets(u, limit, c, n, c') && Ahead(u, c', z)
    ensures c.stack <= c'.stack && |c'.stack| == |c.stack| + (u.g.rrhs[r + 1] - 1 - i)
    ensures HasItem(u.g, u.a, Top(c'), u.g.rrhs[r + 1] - 1) && (Top(c'), r, First(z)) in u.la
    decreases f
  {
    hide SetupOk, HasItem, Trans, Ahead, Gets, PathOver, ItemOf;
    SetupGrammar(u);
    ItemStep(u.g, i, r);
    match f
    case Nil =>
      n, c' := 0, c;
      GetsNow(u, limit, c);
      assert [] + z == z;
      LaOf(u, p, First(z), r, Top(c));
    case Cons(t, f') =>
      var s := Top(c);
      var s' := Advanced(u.g, u.a, s, i);
      YieldsTokens(u.g, f', i + 1);
      TokensAppend(u, Yields(f'), z);
      assert Yields(f) + z == Yield(t) + (Yields(f') + z);
      if t.Node? {
        NodeIsVar(u, t);
        MatchesOpen(u.g, f', i + 1);
        NextLook(u.g, u.a, u.read, u.follow, p, s, i, r, s', f', z);
      }
      var n1, c1 := SimTree(u, limit, c, i, t, s', Yields(f') + z);
      PathStep(u, p, u.g.rrhs[r], i, s, s');
      AdvancedTo(u.g, u.a, s, i, s');
      var n2, c2 := SimForest(u, limit, c1, p, i + 1, r, f', z);
      GetsAdd(u, limit, c, n1, c1, n2, c2);
      n, c' := n1 + n2, c2;
  }

  // What the simulation takes from the definitions above.

  lemma SetupGrammar(u: Setup)
    requires SetupOk(u)
    ensures Valid(u.g) && Canonical(u.g, u.a) && |u.value| == u.g.ntokens <= u.g.nsyms
    ensures ReadClosed(u.g, u.a, u.read) && FollowClosed(u.g, u.a, u.read, u.follow)
  {
  }

  lemma PathStart(u: Setup, p: int, r: int)
    requires Valid(u.g) && 3 <= r < |u.g.rlhs|
    ensures r + 1 < |u.g.rrhs| && PathOver(u.g, u.a, p, u.g.rrhs[r], u.g.rrhs[r], p)
  {
    assert ValidRule(u.g, r);
  }

  lemma PathStep(u: Setup, p: int, i: int, j: int, s: int, s': int)
    requires PathOver(u.g, u.a, p, i, j, s) && 0 <= j < |u.g.ritem| && Trans(u.a, s, u.g.ritem[j], s')
    ensures PathOver(u.g, u.a, p, i, j + 1, s')
  {
    assert PathOver(u.g, u.a, p, i, j + 1 - 1, s);
  }

  lemma StackPrefix(p: seq<int>, q: seq<int>)
    requires p <= q && 0 < |p|
    ensures q[..|p|] == p
  {
  }

  lemma GetsNow(u: Setup, limit: nat, c: Config)
    ensures Gets(u, limit, c, 0, c)
  {
  }

  lemma LaOf(u: Setup, p: int, k: int, r: int, q: int)
    requires SetupOk(u) && 3 <= r < |u.g.rlhs| && r + 1 < |u.g.rrhs| && (p, u.g.rlhs[r], k) in u.follow
    requires PathOver(u.g, u.a, p, u.g.rrhs[r], u.g.rrhs[r + 1] - 1, q)
    ensures (q, r, k) in u.la
  {
    assert LaEdge(u.g, u.a, u.follow, p, k, r, q);
  }

  lemma TokensAppend(u: Setup, v: seq<int>, w: seq<int>)
    requires Tokens(u, w) && forall k :: 0 <= k < |v| ==> 0 < v[k] < u.g.ntokens
    ensures Tokens(u, v + w)
  {
  }

  lemma NodeIsVar(u: Setup, t: Tree)
    requires Valid(u.g) && ValidTree(u.g, t) && t.Node?
    ensures u.g.IsVar(Root(u.g, t))
  {
  }

  // The children of the goal's tree, from the start.
  lemma SimGoalKids(u: Setup, limit: nat, input: seq<int>, t: Tree) returns (m: nat, d: Config)
    requires SetupOk(u) && ValidTree(u.g, t) && Root(u.g, t) == u.g.Goal() && limit > 1 + Size(t)
    requires Tokens(u, Yield(t)) && Sentence(input) == Codes(u.value, Yield(t))
    ensures t.Node? && 3 <= t.rule < |u.g.rlhs| && t.rule + 1 < |u.g.rrhs| && u.g.rlhs[t.rule] == u.g.Goal()
    ensures Gets(u, limit, Start(input), m, d) && Ahead(u, d, []) && [0] <= d.stack && 1 + RuleLength(u.g, t.rule) == |d.stack|
    ensures HasItem(u.g, u.a, Top(d), u.g.rrhs[t.rule + 1] - 1) && (Top(d), t.rule, First([])) in u.la
  {
    hide SetupOk, Valid, Canonical, ReadClosed, FollowClosed, Trans, HasItem, ItemOf, PathOver, Step, Run, ValidTree, Matches, Codes, Gets;
    var c := Start(input);
    SetupGrammar(u);
    StartItem(u);
    GoalRule(u, t);
    var r := t.rule;
    StartsHere(u.g, u.a, 0, 1, r);
    PathStart(u, 0, r);
    assert Yields(t.kids) + [] == Yield(t);
    m, d := SimForest(u, limit, c, 0, u.g.rrhs[r], r, t.kids, []);
  }

  /** The goal's tree, from the start: accepted. */
  lemma SimGoal(u: Setup, limit: nat, input: seq<int>, t: Tree) returns (n: nat)
    requires SetupOk(u) && ValidTree(u.g, t) && Root(u.g, t) == u.g.Goal() && limit > 1 + Size(t)
    requires Tokens(u, Yield(t)) && Sentence(input) == Codes(u.value, Yield(t))
    ensures Run(u.t, limit, Start(input), n) == Accepted
  {
    hide SetupOk, Valid, Canonical, ReadClosed, FollowClosed, Trans, HasItem, Step, Run, ValidTree, Codes, Ahead, Yield, Sentence;
    SetupGrammar(u);
    StartItem(u);
    var s' := Advanced(u.g, u.a, 0, 1);
    var m, d := SimGoalKids(u, limit, input, t);
    var c' := SimReduce(u, limit, d, [0], t.rule, s', []);
    n := m + 1;
    if Run(u.t, limit, Start(input), m) == Accepted {
      RunEnded(u.t, limit, Start(input), m, m + 1);
    } else {
      RunAdd(u.t, limit, Start(input), m, d, 1);
    }
  }

  lemma StartItem(u: Setup)
    requires SetupOk(u)
    ensures HasItem(u.g, u.a, 0, 1) && 1 < |u.g.ritem| && u.g.ritem[1] == u.g.Goal() && u.g.Goal() > 0
    ensures (0, u.g.Goal(), 0) in u.follow
  {
  }

  lemma GoalRule(u: Setup, t: Tree)
    requires Valid(u.g) && ValidTree(u.g, t) && Root(u.g, t) == u.g.Goal()
    ensures t.Node? && 3 <= t.rule < |u.g.rlhs| && u.g.rlhs[t.rule] == u.g.Goal() && t.rule + 1 < |u.g.rrhs|
    ensures Matches(u.g, t.kids, u.g.rrhs[t.rule])
  {
  }

  // Every stack of more than `enough` entries lets the parser accept the input.
  ghost predicate AcceptsBeyond(t: Tables, enough: nat, input: seq<int>) {
    forall limit: nat :: limit > enough ==> Accepts(t, limit, input)
  }

  /** Completeness: whatever the goal derives is accepted on every stack that is large enough. */
  lemma ParserComplete(u: Setup, input: seq<int>)
    requires SetupOk(u) && DerivesCodes(u.g, u.value, u.g.Goal(), Sentence(input))
    ensures exists enough: nat :: AcceptsBeyond(u.t, enough, input)
  {
    hide SetupOk, Run, Valid, ValidTree;
    SetupGrammar(u);
    var w :| Derives(u.g, u.g.Goal(), w) && (forall k :: 0 <= k < |w| ==> 0 <= w[k] < |u.value|) && Codes(u.value, w) == Sentence(input);
    var t :| ValidTree(u.g, t) && Root(u.g, t) == u.g.Goal() && Yield(t) == w;
    YieldTokens(u.g, t);
    var enough := 1 + Size(t);
    forall limit: nat | limit > enough
      ensures Accepts(u.t, limit, input)
    {
      var n := SimGoal(u, limit, input, t);
    }
    assert AcceptsBeyond(u.t, enough, input);
  }

  /** The parser is exactly a recogniser of the language of the goal: it accepts an input, given stack enough,
      if and only if the goal derives it. */
  lemma ParserCorrect(u: Setup, input: seq<int>)
    requires SetupOk(u)
    ensures (exists limit: nat :: Accepts(u.t, limit, input)) <==> DerivesCodes(u.g, u.value, u.g.Goal(), Sentence(input))
  {
    hide Valid, Canonical, Faithful, ReadClosed, FollowClosed, LaClosed, Decides, Run, DerivesCodes;
    if exists limit: nat :: Accepts(u.t, limit, input) {
      var limit: nat :| Accepts(u.t, limit, input);
      var n :| Run(u.t, limit, Start(input), n) == Accepted;
      ParserSound(u.g, u.a, u.value, u.t, limit, input, n);
    }
    if DerivesCodes(u.g, u.value, u.g.Goal(), Sentence(input)) {
      ParserComplete(u, input);
      var enough: nat :| AcceptsBeyond(u.t, enough, input);
      assert Accepts(u.t, enough + 1, input);
    }
  }

  // A longer stack changes a run only after it has overflowed.
  lemma {:induction false} LimitUp(t: Tables, limit: nat, limit': nat, c: Config, n: nat)
    requires limit <= limit' && Run(t, limit, c, n) != Overflow
    ensures Run(t, limit', c, n) == Run(t, limit, c, n)
    decreases n
  {
    hide Step;
    if n > 0 {
      TurnLimitUp(t, limit, limit', c);
      if Step(t, limit, c).Running? {
        LimitUp(t, limit, limit', Step(t, limit, c).c, n - 1);
      }
    }
  }

  lemma TurnLimitUp(t: Tables, limit: nat, limit': nat, c: Config)
    requires limit <= limit' && Step(t, limit, c) != Overflow
    ensures Step(t, limit', c) == Step(t, limit, c)
  {
  }

  /** A syntax error is never reported for an input that the goal derives, on whatever stack. */
  lemma ErrorsAreRight(u: Setup, limit: nat, input: seq<int>, n: nat)
    requires SetupOk(u) && DerivesCodes(u.g, u.value, u.g.Goal(), Sentence(input))
    ensures Run(u.t, limit, Start(input), n) != SyntaxError
  {
    hide SetupOk, Run, DerivesCodes;
    ParserComplete(u, input);
    var enough: nat :| AcceptsBeyond(u.t, enough, input);
    var large := if limit > enough then limit else enough + 1;
    assert Accepts(u.t, large, input);
    var m: nat :| Run(u.t, large, Start(input), m) == Accepted;
    if Run(u.t, limit, Start(input), n) != Overflow {
      LimitUp(u.t, limit, large, Start(input), n);
    }
    if !Run(u.t, large, Start(input), n).Running? {
      RunEnded(u.t, large, Start(input), n, n + m);
      RunEnded(u.t, large, Start(input), m, n + m);
    }
  }
}
