/** The parse tree that a generated parser goes through, and how precedence shapes it (byacc-1.9/skeleton.c). */
module ParseTrees {
  import opened Wrappers
  import opened Grammar
  import opened Closures
  import opened Automata
  import opened Driver
  import opened Soundness
  import opened Completeness
  import opened Generator
  import opened Gotos
  import opened Lookaheads
  import opened Mkpar
  import opened Output

  // ---- the trees along a run

  // The token with this code.
  ghost function TokenOf(value: seq<int>, code: int): int {
    if k :| 0 <= k < |value| && value[k] == code then k else -1
  }

  // The trees of the right-hand side of rule r, on top, become the children of one tree.
  function Folded(g: Grammar, ts: seq<Tree>, r: int): seq<Tree> {
    if 0 <= r && r + 1 < |g.rrhs| && 0 <= RuleLength(g, r) <= |ts| then Reduced(ts, RuleLength(g, r), r) else ts
  }

  /** The trees after one turn of the driver: a shift adds the leaf of its token, and a reduction by a rule, which
      the tables number two less, a node. */
  ghost function Grown(u: Product, c: Config, ts: seq<Tree>): seq<Tree> {
    if c.stack == [] then ts else
    var s := c.stack[|c.stack| - 1];
    match (At(u.t.defred, s), At(u.t.sindex, s), At(u.t.rindex, s))
    case (Some(d), Some(sx), Some(rx)) =>
      if d != 0 then Folded(u.g, ts, d + 2) else
      (match Lookup(u.t, sx, Read(c).yychar)
       case Some(_) => ts + [Leaf(TokenOf(u.value, Read(c).yychar))]
       case None =>
         match Lookup(u.t, rx, Read(c).yychar)
         case Some(n) => Folded(u.g, ts, n + 2)
         case None => ts)
    case _ => ts
  }

  /** The trees that the parser has gone through after n turns, if each reduction builds one. */
  ghost function TreesAfter(u: Product, limit: nat, input: seq<int>, n: nat): seq<Tree>
    decreases n
  {
    if n == 0 then [] else
    match Run(u.t, limit, Start(input), n - 1)
    case Running(c) => Grown(u, c, TreesAfter(u, limit, input, n - 1))
    case _ => TreesAfter(u, limit, input, n - 1)
  }

  // ---- trees that the tables build

  // The code at which the driver looks, when these are to come.
  function Look(w: seq<int>): int {
    if w == [] then 0 else w[0]
  }

  // The codes of those of w that are tokens.
  function CodesOf(value: seq<int>, w: seq<int>): seq<int> {
    seq(|w|, k requires 0 <= k < |w| => if 0 <= w[k] < |value| then value[w[k]] else -1)
  }

  /** From state q, with the codes w to come after it, the tables build this tree: they shift each leaf, and at the
      end of each node's children they reduce by its rule, before the code that then comes next. */
  ghost predicate Built(u: Product, q: int, t: Tree, w: seq<int>)
    decreases t
  {
    match t
    case Leaf(k) => 0 <= k < |u.value| && exists s' :: Shifts(u.t, q, u.value[k], s')
    case Node(r, kids) => BuiltIn(u, q, kids, w, r)
  }

  ghost predicate BuiltIn(u: Product, q: int, f: Forest, w: seq<int>, r: int)
    decreases f
  {
    match f
    case Nil => ReducesOn(u.t, q, Look(w), r - 2)
    case Cons(t, f') => Built(u, q, t, CodesOf(u.value, Yields(f')) + w) && exists q' :: Trans(u.a, q, Root(u.g, t), q') && BuiltIn(u, q', f', w, r)
  }

  // The codes that come after tree j of the stack.
  function After(u: Product, c: Config, ts: seq<Tree>, j: nat): seq<int>
    requires j < |ts|
  {
    CodesOf(u.value, Yields(ForestFrom(ts, j + 1))) + Pending(c)
  }

  ghost predicate AllBuilt(u: Product, c: Config, ts: seq<Tree>) {
    |c.stack| == |ts| + 1 && forall j: nat :: j < |ts| ==> Built(u, c.stack[j], ts[j], After(u, c, ts, j))
  }

  ghost predicate Ready(u: Product) {
    Valid(u.g) && Canonical(u.g, u.a) && Faithful(u.g, u.a, u.value, u.t) && |u.value| == u.g.ntokens
  }

  ghost predicate Parsed(u: Product, input: seq<int>, c: Config, ts: seq<Tree>)
    requires |u.value| == u.g.ntokens
  {
    Inv(u.g, u.a, u.value, input, c, ts) && AllBuilt(u, c, ts)
  }

  /** A parse tree of the input, as the tables build it. */
  ghost predicate IsParse(u: Product, t: Tree, input: seq<int>) {
    ValidTree(u.g, t) && Root(u.g, t) == u.g.Goal() && CodesOf(u.value, Yield(t)) == Sentence(input) && Built(u, 0, t, [])
  }

  // ---- a shift

  lemma {:induction false} YieldsMore(ts: seq<Tree>, t: Tree, j: nat)
    requires j <= |ts|
    ensures Yields(ForestFrom(ts + [t], j)) == Yields(ForestFrom(ts, j)) + Yield(t)
    decreases |ts| - j
  {
    if j < |ts| {
      YieldsMore(ts, t, j + 1);
    } else {
      assert ForestFrom(ts + [t], j) == Cons(t, Nil);
      assert Yield(t) + [] == Yield(t);
    }
  }

  lemma CodesMore(value: seq<int>, v: seq<int>, w: seq<int>)
    ensures CodesOf(value, v + w) == CodesOf(value, v) + CodesOf(value, w)
  {
  }

  lemma ShiftBuilt(u: Product, c: Config, ts: seq<Tree>, k: int, s': int)
    requires AllBuilt(u, c, ts) && 0 <= k < |u.value| && c.yychar == u.value[k] >= 0 && Shifts(u.t, c.stack[|ts|], c.yychar, s')
    requires Pending(c) == [c.yychar] + Sentence(c.input)
    ensures AllBuilt(u, c.(stack := c.stack + [s'], yychar := -1), ts + [Leaf(k)])
  {
    hide Built, Shifts;
    var c', ts' := c.(stack := c.stack + [s'], yychar := -1), ts + [Leaf(k)];
    assert Built(u, c'.stack[|ts|], Leaf(k), After(u, c', ts', |ts|)) by { LeafBuilt(u, c.stack[|ts|], k, s', After(u, c', ts', |ts|)); }
    forall j: nat | j < |ts|
      ensures Built(u, c'.stack[j], ts'[j], After(u, c', ts', j))
    {
      YieldsMore(ts, Leaf(k), j + 1);
      CodesMore(u.value, Yields(ForestFrom(ts, j + 1)), [k]);
      assert CodesOf(u.value, [k]) == [c.yychar];
      assert After(u, c', ts', j) == After(u, c, ts, j);
    }
  }

  lemma LeafBuilt(u: Product, q: int, k: int, s': int, w: seq<int>)
    requires 0 <= k < |u.value| && Shifts(u.t, q, u.value[k], s')
    ensures Built(u, q, Leaf(k), w)
  {
  }

  // ---- a reduction

  lemma {:induction false} YieldsReduced(ts: seq<Tree>, m: nat, r: int, j: nat)
    requires m <= |ts| && j <= |ts| - m
    ensures Yields(ForestFrom(Reduced(ts, m, r), j)) == Yields(ForestFrom(ts, j))
    decreases |ts| - m - j
  {
    var ts' := Reduced(ts, m, r);
    if j < |ts| - m {
      YieldsReduced(ts, m, r, j + 1);
    } else {
      assert ForestFrom(ts', j) == Cons(Node(r, ForestFrom(ts, j)), Nil);
      assert Yields(ForestFrom(ts, j)) + [] == Yields(ForestFrom(ts, j));
    }
  }

  // The trees from j on are built from their place on the stack.
  lemma {:induction false} TopBuilt(u: Product, c: Config, ts: seq<Tree>, j: nat, r: int)
    requires AllBuilt(u, c, ts) && Spine(u.g, u.a, c.stack, ts) && j <= |ts| && ReducesOn(u.t, c.stack[|ts|], Look(Pending(c)), r - 2)
    ensures BuiltIn(u, c.stack[j], ForestFrom(ts, j), Pending(c), r)
    decreases |ts| - j
  {
    hide Built, ReducesOn, Trans;
    if j < |ts| {
      TopBuilt(u, c, ts, j + 1, r);
      assert Built(u, c.stack[j], ts[j], After(u, c, ts, j));
      assert Trans(u.a, c.stack[j], Root(u.g, ts[j]), c.stack[j + 1]);
    }
  }

  lemma NodeBuilt(u: Product, q: int, f: Forest, w: seq<int>, r: int)
    requires BuiltIn(u, q, f, w, r)
    ensures Built(u, q, Node(r, f), w)
  {
  }

  lemma ReduceBuilt(u: Product, c: Config, ts: seq<Tree>, m: nat, r: int, c': Config)
    requires AllBuilt(u, c, ts) && Spine(u.g, u.a, c.stack, ts) && m <= |ts| && ReducesOn(u.t, c.stack[|ts|], Look(Pending(c)), r - 2)
    requires Pending(c') == Pending(c) && |c'.stack| == |c.stack| - m + 1 && c'.stack[..|c.stack| - m] == c.stack[..|c.stack| - m]
    ensures AllBuilt(u, c', Reduced(ts, m, r))
  {
    hide ReducesOn, Spine, Built, BuiltIn;
    var b, ts' := |ts| - m, Reduced(ts, m, r);
    TopBuilt(u, c, ts, b, r);
    assert forall j :: 0 <= j <= b ==> c'.stack[j] == c'.stack[..b + 1][j] == c.stack[..b + 1][j] == c.stack[j];
    forall j: nat | j < |ts'|
      ensures Built(u, c'.stack[j], ts'[j], After(u, c', ts', j))
    {
      if j < b {
        YieldsReduced(ts, m, r, j + 1);
        assert After(u, c', ts', j) == After(u, c, ts, j);
      } else {
        assert ForestFrom(ts', j + 1) == Nil && After(u, c', ts', j) == Pending(c);
        NodeBuilt(u, c.stack[b], ForestFrom(ts, b), Pending(c), r);
      }
    }
  }

  // Going over x leads to s', or accepts at the end.
  lemma WentOver(u: Product, limit: nat, c: Config, x: int, s': int)
    requires Ready(u) && c.stack != [] && Trans(u.a, c.stack[|c.stack| - 1], x, s') && x >= u.g.Goal()
    ensures match GoOver(u.t, limit, c, x - u.g.Goal())
            case Running(c') => c'.stack == c.stack + [s'] && Pending(c') == Pending(c)
            case Accepted => Pending(c) == [] && c.stack[|c.stack| - 1] == 0 && x == u.g.Goal()
            case _ => true
  {
    hide Canonical, Valid, Faithful;
    var p := c.stack[|c.stack| - 1];
    FaithfulGoto(u.g, u.a, u.value, u.t, p, x, s');
    if p == 0 && x == u.g.Goal() {
      TransUnique(u.g, u.a, 0, x, s', u.t.final);
      ReadPending(c.(stack := c.stack + [s']));
    }
  }

  // What a turn leaves of the invariant, in case it goes on, and in case it accepts.
  ghost predicate StillParsed(u: Product, input: seq<int>, o: Outcome, ts: seq<Tree>)
    requires |u.value| == u.g.ntokens
  {
    match o
    case Running(c) => Parsed(u, input, c, ts)
    case Accepted => |ts| == 1 && IsParse(u, ts[0], input)
    case _ => true
  }

  lemma ReduceParsed(u: Product, limit: nat, input: seq<int>, c: Config, ts: seq<Tree>, n: int)
    requires Ready(u) && Parsed(u, input, c, ts)
    requires Reduces(u.g, u.a, c.stack[|ts|], n) && ReducesOn(u.t, c.stack[|ts|], Look(Pending(c)), n)
    ensures StillParsed(u, input, Driver.Reduce(u.t, limit, c, n), Folded(u.g, ts, n + 2))
  {
    hide Canonical, Valid, Faithful, Reduces, ReducesOn, Matches, Trans, ValidTree, GoOver, Codes, YieldsOf, Reduced, Built, AllBuilt, After;
    assert n > 0 by { RuleUp(u, c.stack[|ts|], n); }
    var s' := ReduceFinds(u.g, u.a, c.stack, ts, n);
    var r := n + 2;
    LhsIsVar(u.g, r);
    FaithfulRule(u.g, u.a, u.value, u.t, n);
    var m := RuleLength(u.g, r);
    ReducedYield(ts, m, r);
    ReducedSpine(u.g, u.a, c.stack, ts, n, s');
    var c1, ts' := c.(stack := c.stack[..|c.stack| - m]), Reduced(ts, m, r);
    var c2 := c1.(stack := c1.stack + [s']);
    BuiltSize(u, c, ts);
    ReduceBuilt(u, c, ts, m, r, c2);
    WentOver(u, limit, c1, u.g.rlhs[r], s');
    match GoOver(u.t, limit, c1, u.g.rlhs[r] - u.g.Goal())
    case Running(c') =>
      ReduceBuilt(u, c, ts, m, r, c');
    case Accepted =>
      GoalParsed(u, input, c2, ts', s');
    case _ =>
  }

  lemma RuleUp(u: Product, s: int, n: int)
    requires Valid(u.g) && Reduces(u.g, u.a, s, n)
    ensures n > 0
  {
  }

  lemma BuiltSize(u: Product, c: Config, ts: seq<Tree>)
    requires AllBuilt(u, c, ts)
    ensures |c.stack| == |ts| + 1
  {
  }

  // The stack holds the goal alone, and nothing is to come.
  lemma GoalParsed(u: Product, input: seq<int>, c: Config, ts: seq<Tree>, s': int)
    requires Ready(u) && Inv(u.g, u.a, u.value, input, c, ts) && AllBuilt(u, c, ts) && Pending(c) == [] && |ts| > 0
    requires c.stack[|ts| - 1] == 0 && Trans(u.a, 0, u.g.Goal(), c.stack[|ts|])
    ensures |ts| == 1 && IsParse(u, ts[0], input)
  {
    hide Canonical, Valid, Faithful, Trans, ValidTree, Built;
    SpineStates(u.g, u.a, c.stack, ts);
    SpineRoot(u.g, u.a, c.stack, ts, u.g.Goal());
    assert ts[..0] == [];
    assert YieldsOf(ts) == Yield(ts[0]);
    CodesSame(u.value, Yield(ts[0]));
    assert After(u, c, ts, 0) == [];
  }

  lemma CodesSame(value: seq<int>, w: seq<int>)
    requires forall k :: 0 <= k < |w| ==> 0 <= w[k] < |value|
    ensures CodesOf(value, w) == Codes(value, w)
  {
  }

  lemma ReadBuilt(u: Product, c: Config, ts: seq<Tree>)
    requires AllBuilt(u, c, ts)
    ensures AllBuilt(u, Read(c), ts)
  {
    ReadPending(c);
    forall j: nat | j < |ts|
      ensures Built(u, Read(c).stack[j], ts[j], After(u, Read(c), ts, j))
    {
      assert After(u, Read(c), ts, j) == After(u, c, ts, j);
    }
  }

  lemma TokenIs(u: Product, k: int)
    requires Valid(u.g) && Faithful(u.g, u.a, u.value, u.t) && 0 <= k < |u.value|
    ensures TokenOf(u.value, u.value[k]) == k
  {
  }

  /** A turn of the driver keeps the trees parse trees as the tables build them. */
  lemma TurnParsed(u: Product, limit: nat, input: seq<int>, c: Config, ts: seq<Tree>)
    requires Ready(u) && Parsed(u, input, c, ts)
    ensures StillParsed(u, input, Step(u.t, limit, c), Grown(u, c, ts))
  {
    hide Canonical, Valid, Reduces, Built, Codes, YieldsOf, Inv, AllBuilt, Folded, TokenOf, IsParse;
    BuiltSize(u, c, ts);
    InvStates(u, input, c, ts);
    var s := c.stack[|ts|];
    ReadPending(c);
    if u.t.defred[s] != 0 {
      RuleUp(u, s, u.t.defred[s]);
      ReduceParsed(u, limit, input, c, ts, u.t.defred[s]);
    } else {
      ReadInv(u.g, u.a, u.value, input, c, ts);
      ReadBuilt(u, c, ts);
      var c' := Read(c);
      assert ShiftFaithful(u.g, u.a, u.value, u.t, s, c'.yychar) && ReduceFaithful(u.g, u.a, u.t, s, c'.yychar);
      match Lookup(u.t, u.t.sindex[s], c'.yychar)
      case Some(s') =>
        var k :| 0 <= k < u.g.ntokens && u.value[k] == c'.yychar && Trans(u.a, s, k, s');
        TokenIs(u, k);
        ShiftParsed(u, input, c', ts, k, s');
      case None =>
        match Lookup(u.t, u.t.rindex[s], c'.yychar) {
          case Some(n) =>
            RuleUp(u, s, n);
            ReduceParsed(u, limit, input, c', ts, n);
          case None =>
        }
    }
  }

  lemma InvStates(u: Product, input: seq<int>, c: Config, ts: seq<Tree>)
    requires Ready(u) && Inv(u.g, u.a, u.value, input, c, ts)
    ensures |c.stack| == |ts| + 1 && 0 <= c.stack[|ts|] < |u.a.kernels|
  {
    SpineStates(u.g, u.a, c.stack, ts);
  }

  lemma ShiftParsed(u: Product, input: seq<int>, c: Config, ts: seq<Tree>, k: int, s': int)
    requires Ready(u) && Parsed(u, input, c, ts) && 0 <= k < u.g.ntokens && u.value[k] == c.yychar >= 0
    requires Trans(u.a, c.stack[|ts|], k, s') && Shifts(u.t, c.stack[|ts|], c.yychar, s')
    ensures Parsed(u, input, c.(stack := c.stack + [s'], yychar := -1), ts + [Leaf(k)])
  {
    hide Canonical, Valid, Built, Shifts;
    ShiftGood(u.g, u.a, u.value, input, c, ts, k, s');
    TransFacts(u.g, u.a, c.stack[|ts|], k, s');
    ShiftBuilt(u, c, ts, k, s');
  }

  // ---- whole runs

  lemma RunLast(t: Tables, limit: nat, c: Config, n: nat)
    ensures Run(t, limit, c, n + 1) == match Run(t, limit, c, n) case Running(c') => Step(t, limit, c') case o => o
  {
    hide Step;
    match Run(t, limit, c, n)
    case Running(c') =>
      RunAdd(t, limit, c, n, c', 1);
      RunOnce(t, limit, c');
    case _ =>
      RunEnded(t, limit, c, n, n + 1);
  }

  lemma {:induction false} RunParsed(u: Product, limit: nat, input: seq<int>, n: nat)
    requires Ready(u)
    ensures StillParsed(u, input, Run(u.t, limit, Start(input), n), TreesAfter(u, limit, input, n))
  {
    hide Ready, Run, Step, Inv, Built, Grown, IsParse;
    SizeReady(u);
    if n == 0 {
      StartParsed(u, limit, input);
    } else {
      RunParsed(u, limit, input, n - 1);
      RunLast(u.t, limit, Start(input), n - 1);
      match Run(u.t, limit, Start(input), n - 1)
      case Running(c) =>
        TurnParsed(u, limit, input, c, TreesAfter(u, limit, input, n - 1));
      case _ =>
    }
  }

  lemma SizeReady(u: Product)
    requires Ready(u)
    ensures |u.value| == u.g.ntokens
  {
  }

  lemma StartParsed(u: Product, limit: nat, input: seq<int>)
    requires Ready(u)
    ensures Run(u.t, limit, Start(input), 0) == Running(Start(input)) && Parsed(u, input, Start(input), [])
  {
    hide Valid, Canonical, Faithful;
  }

  lemma PrintedReady(u: Product)
    requires Printed(u)
    ensures Ready(u)
  {
    hide Printed, Valid, Canonical, Faithful;
    PrintedBase(u);
    PrintedTables(u);
    TablesFaithful(u);
  }

  /** Whatever the conflicts: if a generated parser accepts, then the reductions it has made build one tree, and this
      is a parse tree of the input. Each leaf was shifted, and each node reduced before the token that comes
      next, as the tables of the state say in which it starts or ends. */
  lemma ParseTree(u: Product, limit: nat, input: seq<int>, n: nat)
    requires Printed(u) && Run(u.t, limit, Start(input), n) == Accepted
    ensures |TreesAfter(u, limit, input, n)| == 1 && IsParse(u, TreesAfter(u, limit, input, n)[0], input)
  {
    hide Printed, Ready, Run, IsParse, TreesAfter;
    PrintedReady(u);
    SizeReady(u);
    RunParsed(u, limit, input, n);
  }

  // ---- what precedence makes of the tree

  /** Rule r ends in its own left-hand side, as in E : E '*' E, and rule s goes on from this by the operator k, as in
      E : E '+' E; the two may be the same. */
  ghost predicate Operators(g: Grammar, r: nat, s: nat, k: nat) {
    && 3 <= r < |g.rlhs| && 3 <= s < |g.rlhs| && |g.rrhs| == |g.rlhs| + 1 && g.rlhs[r] == g.rlhs[s] && 0 < k < g.ntokens
    && 0 <= g.rrhs[r] <= g.rrhs[r + 1] - 2 < |g.ritem| && g.ritem[g.rrhs[r + 1] - 2] == g.rlhs[r]
    && 0 <= g.rrhs[s] < g.rrhs[s + 1] - 2 < |g.ritem| && g.ritem[g.rrhs[s]] == g.rlhs[s] && g.ritem[g.rrhs[s] + 1] == k
  }

  // Wherever r is complete, no other reduction is possible before k.
  ghost predicate OnlyChoice(u: Product, r: int, k: int)
    requires Valid(u.g)
  {
    forall x, q :: 0 <= x < |u.a.kernels| && Completes(u.g, u.a.kernels[x], r) && Completes(u.g, u.a.kernels[x], q) && (x, q, k) in u.la ==> q == r
  }

  predicate EndsIn(f: Forest, s: int) {
    f.Cons? && if f.tl.Nil? then f.hd.Node? && f.hd.rule == s else EndsIn(f.tl, s)
  }

  predicate StartsIn(f: Forest, r: int) {
    f.Cons? && f.hd.Node? && f.hd.rule == r
  }

  /** Somewhere in the tree, a node of rule r has one of rule s as its last child. */
  predicate NestsRight(t: Tree, r: int, s: int) {
    t.Node? && ((t.rule == r && EndsIn(t.kids, s)) || NestsRightIn(t.kids, r, s))
  }

  predicate NestsRightIn(f: Forest, r: int, s: int) {
    f.Cons? && (NestsRight(f.hd, r, s) || NestsRightIn(f.tl, r, s))
  }

  /** Somewhere in the tree, a node of rule s has one of rule r as its first child. */
  predicate NestsLeft(t: Tree, s: int, r: int) {
    t.Node? && ((t.rule == s && StartsIn(t.kids, r)) || NestsLeftIn(t.kids, s, r))
  }

  predicate NestsLeftIn(f: Forest, s: int, r: int) {
    f.Cons? && (NestsLeft(f.hd, s, r) || NestsLeftIn(f.tl, s, r))
  }

  // The look-ahead sets of u have all that they must have.
  ghost predicate Complete(u: Product, read: Looks, follow: Looks) {
    ReadClosed(u.g, u.a, read) && FollowClosed(u.g, u.a, read, follow) && LaClosed(u.g, u.a, follow, u.la)
  }

  // Where r ends in x, and can start in p, its left-hand side can be followed by k; so x can reduce, or shift k.
  lemma AtOperator(u: Product, read: Looks, follow: Looks, p: int, i: int, q: int, x: int, r: nat, s: nat, k: nat) returns (s': int)
    requires Ready(u) && Complete(u, read, follow) && Operators(u.g, r, s, k)
    requires HasItem(u.g, u.a, p, i) && 1 <= i < |u.g.ritem| && u.g.ritem[i] == u.g.rlhs[r]
    requires PathOver(u.g, u.a, p, u.g.rrhs[r], u.g.rrhs[r + 1] - 2, q) && HasItem(u.g, u.a, q, u.g.rrhs[r + 1] - 2)
    requires Trans(u.a, q, u.g.rlhs[r], x)
    ensures Trans(u.a, x, k, s') && (x, r, k) in u.la && 0 <= x < |u.a.kernels| && Completes(u.g, u.a.kernels[x], r)
  {
    hide Valid, Canonical, Faithful, ReadClosed, FollowClosed, LaClosed, Trans, HasItem, InClosure, PathOver, Completes;
    var g, a, e, j := u.g, u.a, u.g.rlhs[r], u.g.rrhs[r + 1] - 2;
    LhsIsVar(g, r);
    OperatorItems(g, r, s, k);
    // after x, k comes next in rule s
    StartsHere(g, a, q, j, s);
    AdvancedTo(g, a, q, g.rrhs[s], x);
    s' := Advanced(g, a, x, g.rrhs[s] + 1);
    AdvancedTo(g, a, q, j, x);
    CompletesThere(g, a, x, r);
    // after p has gone over e, too
    StartsHere(g, a, p, i, s);
    var q1 := Advanced(g, a, p, g.rrhs[s]);
    var s1 := Advanced(g, a, q1, g.rrhs[s] + 1);
    ReadsDirectly(g, a, read, p, e, q1, k, s1);
    ReadFollows(u, read, follow, p, e, k);
    PathLonger(u, p, g.rrhs[r], j, q, x);
    FollowLooks(u, read, follow, p, k, r, x);
  }

  lemma OperatorItems(g: Grammar, r: nat, s: nat, k: nat)
    requires Valid(g) && Operators(g, r, s, k)
    ensures 1 <= g.rrhs[s] && g.IsVar(g.rlhs[r]) && g.rlhs[r] > 0
    ensures ValidRule(g, r)
  {
    assert ValidRule(g, r) && ValidRule(g, s);
  }

  lemma CompletesThere(g: Grammar, a: Automaton, x: int, r: nat)
    requires Valid(g) && 3 <= r < |g.rlhs| && HasItem(g, a, x, g.rrhs[r + 1] - 1) && ValidRule(g, r)
    ensures 0 <= x < |a.kernels| && Completes(g, a.kernels[x], r)
  {
  }

  lemma ReadFollows(u: Product, read: Looks, follow: Looks, p: int, x: int, k: int)
    requires FollowClosed(u.g, u.a, read, follow) && (p, x, k) in read
    ensures (p, x, k) in follow
  {
  }

  lemma PathLonger(u: Product, p: int, i: int, j: int, q: int, x: int)
    requires PathOver(u.g, u.a, p, i, j, q) && 0 <= j < |u.g.ritem| && Trans(u.a, q, u.g.ritem[j], x)
    ensures PathOver(u.g, u.a, p, i, j + 1, x)
  {
    assert PathOver(u.g, u.a, p, i, j + 1 - 1, q);
  }

  lemma FollowLooks(u: Product, read: Looks, follow: Looks, p: int, k: int, r: int, q: int)
    requires LaClosed(u.g, u.a, follow, u.la) && 3 <= r < |u.g.rlhs| && r + 1 < |u.g.rrhs| && (p, u.g.rlhs[r], k) in follow
    requires PathOver(u.g, u.a, p, u.g.rrhs[r], u.g.rrhs[r + 1] - 1, q)
    ensures (q, r, k) in u.la
  {
    assert LaEdge(u.g, u.a, follow, p, k, r, q);
  }

  // What the law needs: r and s are rules for operators, and r is the only reduction that can compete with k.
  ghost predicate Competing(u: Product, read: Looks, follow: Looks, r: nat, s: nat, k: nat) {
    && Printed(u) && Ready(u) && Complete(u, read, follow) && Operators(u.g, r, s, k) && OnlyChoice(u, r, k)
    && k < |u.p.symbolPrec| == |u.p.symbolAssoc| && r < |u.p.rulePrec| && |u.parser.marks| == |u.a.kernels|
  }

  // At the end of r, the tables say what precedence says.
  lemma OperatorDecided(u: Product, read: Looks, follow: Looks, p: int, i: int, q: int, x: int, r: nat, s: nat, k: nat) returns (s': int)
    requires Competing(u, read, follow, r, s, k) && k < |u.value|
    requires HasItem(u.g, u.a, p, i) && 1 <= i < |u.g.ritem| && u.g.ritem[i] == u.g.rlhs[r]
    requires PathOver(u.g, u.a, p, u.g.rrhs[r], u.g.rrhs[r + 1] - 2, q) && HasItem(u.g, u.a, q, u.g.rrhs[r + 1] - 2)
    requires Trans(u.a, q, u.g.rlhs[r], x)
    ensures ReduceFirst(u.p, k, r) ==> ReducesOn(u.t, x, u.value[k], r - 2)
    ensures ShiftFirst(u.p, k, r) ==> Shifts(u.t, x, u.value[k], s')
  {
    hide Printed, Valid, Canonical, Faithful, Complete, Operators, Trans, HasItem, PathOver, Completes, ReduceFirst, ShiftFirst, Shifts, ReducesOn;
    s' := AtOperator(u, read, follow, p, i, q, x, r, s, k);
    TokenOfOperator(u.g, r, s, k);
    FirstChosen(u, x, k, s', r);
  }

  lemma TokenOfOperator(g: Grammar, r: nat, s: nat, k: nat)
    requires Operators(g, r, s, k)
    ensures 0 < k < g.ntokens
  {
  }

  lemma NotBoth(t: Tables, x: int, c: int, n: int, s': int)
    ensures !(ReducesOn(t, x, c, n) && Shifts(t, x, c, s'))
  {
  }

  // The kids of a node for s: what its operator and the symbol before it leave of the way they were built.
  lemma OperatorBuilt(u: Product, q: int, f: Forest, w: seq<int>, r: nat, s: nat, k: nat) returns (x: int, s': int)
    requires Ready(u) && Operators(u.g, r, s, k) && Matches(u.g, f, u.g.rrhs[s]) && BuiltIn(u, q, f, w, s)
    ensures Trans(u.a, q, u.g.rlhs[r], x) && k < |u.value| && Shifts(u.t, x, u.value[k], s')
    ensures f.Cons? && f.tl.Cons? && f.tl.hd == Leaf(k)
  {
    hide Canonical, Faithful, Trans, Shifts, ReducesOn;
    OperatorKids(u.g, f, r, s, k);
    x :| Trans(u.a, q, Root(u.g, f.hd), x) && BuiltIn(u, x, f.tl, w, s);
    assert exists s'' :: Shifts(u.t, x, u.value[k], s'') by {
      assert Built(u, x, f.tl.hd, CodesOf(u.value, Yields(f.tl.tl)) + w);
    }
    s' :| Shifts(u.t, x, u.value[k], s');
  }

  lemma OperatorKids(g: Grammar, f: Forest, r: nat, s: nat, k: nat)
    requires Valid(g) && Operators(g, r, s, k) && Matches(g, f, g.rrhs[s])
    ensures f.Cons? && f.tl.Cons? && Root(g, f.hd) == g.rlhs[r] && f.tl.hd == Leaf(k)
  {
    assert ValidRule(g, s);
    assert f.tl.Cons? && Root(g, f.tl.hd) == k && ValidTree(g, f.tl.hd);
  }

  // Tree t, built at the last symbol of r, is not one of rule s: the operator k would have been shifted where r goes first.
  lemma RightClash(u: Product, read: Looks, follow: Looks, p: int, i: int, q: int, t: Tree, w: seq<int>, r: nat, s: nat, k: nat)
    requires Competing(u, read, follow, r, s, k) && ReduceFirst(u.p, k, r)
    requires HasItem(u.g, u.a, p, i) && 1 <= i < |u.g.ritem| && u.g.ritem[i] == u.g.rlhs[r]
    requires PathOver(u.g, u.a, p, u.g.rrhs[r], u.g.rrhs[r + 1] - 2, q) && HasItem(u.g, u.a, q, u.g.rrhs[r + 1] - 2)
    requires ValidTree(u.g, t) && Built(u, q, t, w)
    ensures !(t.Node? && t.rule == s)
  {
    hide Printed, Valid, Canonical, Faithful, Complete, Operators, OnlyChoice, Trans, HasItem, PathOver, ReduceFirst, ShiftFirst, Shifts, ReducesOn, Matches, BuiltIn;
    if t.Node? && t.rule == s {
      var x, s' := OperatorBuilt(u, q, t.kids, w, r, s, k);
      var s'' := OperatorDecided(u, read, follow, p, i, q, x, r, s, k);
      NotBoth(u.t, x, u.value[k], r - 2, s');
    }
  }

  lemma {:induction false} NoNestRight(u: Product, read: Looks, follow: Looks, q: int, i: int, t: Tree, w: seq<int>, r: nat, s: nat, k: nat)
    requires Competing(u, read, follow, r, s, k) && ReduceFirst(u.p, k, r)
    requires HasItem(u.g, u.a, q, i) && 1 <= i < |u.g.ritem| && ValidTree(u.g, t) && Root(u.g, t) == u.g.ritem[i] && Built(u, q, t, w)
    ensures !NestsRight(t, r, s)
    decreases t
  {
    hide Printed, Valid, Canonical, Faithful, Complete, Operators, OnlyChoice, Trans, HasItem, PathOver, ReduceFirst, BuiltIn, EndsIn;
    if t.Node? {
      StartsHere(u.g, u.a, q, i, t.rule);
      RuleBegins(u, q, t.rule);
      NoNestRightIn(u, read, follow, q, i, q, u.g.rrhs[t.rule], t.rule, t.kids, w, r, s, k);
    }
  }

  lemma RuleBegins(u: Product, p: int, r: int)
    requires Valid(u.g) && 3 <= r < |u.g.rlhs|
    ensures r + 1 < |u.g.rrhs| && 0 <= u.g.rrhs[r] && PathOver(u.g, u.a, p, u.g.rrhs[r], u.g.rrhs[r], p)
  {
    assert ValidRule(u.g, r);
  }

  lemma {:induction false} NoNestRightIn(u: Product, read: Looks, follow: Looks, p: int, i: int, q: int, j: int, rule: int, f: Forest, w: seq<int>, r: nat, s: nat, k: nat)
    requires Competing(u, read, follow, r, s, k) && ReduceFirst(u.p, k, r)
    requires HasItem(u.g, u.a, p, i) && 1 <= i < |u.g.ritem| && ItemOf(u.g, j, rule) && 3 <= rule && u.g.ritem[i] == u.g.rlhs[rule]
    requires PathOver(u.g, u.a, p, u.g.rrhs[rule], j, q) && HasItem(u.g, u.a, q, j)
    requires Matches(u.g, f, j) && BuiltIn(u, q, f, w, rule)
    ensures !NestsRightIn(f, r, s) && (rule == r ==> !EndsIn(f, s))
    decreases f
  {
    hide Printed, Valid, Canonical, Faithful, Complete, Operators, OnlyChoice, Trans, HasItem, PathOver, ReduceFirst, ReducesOn, Built;
    if f.Cons? {
      var q' :| Trans(u.a, q, Root(u.g, f.hd), q') && BuiltIn(u, q', f.tl, w, rule);
      ItemStep(u.g, j, rule);
      AdvancedTo(u.g, u.a, q, j, q');
      PathLonger(u, p, u.g.rrhs[rule], j, q, q');
      NoNestRight(u, read, follow, q, j, f.hd, CodesOf(u.value, Yields(f.tl)) + w, r, s, k);
      NoNestRightIn(u, read, follow, p, i, q', j + 1, rule, f.tl, w, r, s, k);
      if rule == r && f.tl.Nil? {
        ItemStep(u.g, j + 1, rule);
        RightClash(u, read, follow, p, i, q, f.hd, CodesOf(u.value, Yields(f.tl)) + w, r, s, k);
      }
    }
  }

  // The last kid of a node for r, and the state in which the reduction is made.
  lemma {:induction false} EndOf(u: Product, p: int, q: int, j: int, f: Forest, w: seq<int>, r: nat, s: nat, k: nat) returns (q': int, x: int)
    requires Ready(u) && Operators(u.g, r, s, k) && ItemOf(u.g, j, r) && Matches(u.g, f, j) && BuiltIn(u, q, f, w, r) && f.Cons?
    requires PathOver(u.g, u.a, p, u.g.rrhs[r], j, q) && HasItem(u.g, u.a, q, j)
    ensures PathOver(u.g, u.a, p, u.g.rrhs[r], u.g.rrhs[r + 1] - 2, q') && HasItem(u.g, u.a, q', u.g.rrhs[r + 1] - 2)
    ensures Trans(u.a, q', u.g.rlhs[r], x) && ReducesOn(u.t, x, Look(w), r - 2)
    decreases f
  {
    hide Valid, Canonical, Faithful, Trans, HasItem, PathOver, ReducesOn, Built;
    ItemStep(u.g, j, r);
    var y :| Trans(u.a, q, Root(u.g, f.hd), y) && BuiltIn(u, y, f.tl, w, r);
    if f.tl.Nil? {
      ItemStep(u.g, j + 1, r);
      q', x := q, y;
    } else {
      AdvancedTo(u.g, u.a, q, j, y);
      PathLonger(u, p, u.g.rrhs[r], j, q, y);
      q', x := EndOf(u, p, y, j + 1, f.tl, w, r, s, k);
    }
  }

  lemma KidsThere(g: Grammar, f: Forest, r: nat, s: nat, k: nat)
    requires Valid(g) && Operators(g, r, s, k) && Matches(g, f, g.rrhs[r])
    ensures f.Cons? && ItemOf(g, g.rrhs[r], r)
  {
    assert ValidRule(g, r);
  }

  // Tree t, built before the operator of s, is not one of rule r: r would not have been reduced where k goes first.
  lemma LeftClash(u: Product, read: Looks, follow: Looks, p: int, i: int, t: Tree, w: seq<int>, r: nat, s: nat, k: nat)
    requires Competing(u, read, follow, r, s, k) && ShiftFirst(u.p, k, r) && k < |u.value|
    requires HasItem(u.g, u.a, p, i) && 1 <= i < |u.g.ritem| && u.g.ritem[i] == u.g.rlhs[r]
    requires ValidTree(u.g, t) && Built(u, p, t, w) && Look(w) == u.value[k]
    ensures !(t.Node? && t.rule == r)
  {
    hide Printed, Valid, Canonical, Faithful, Complete, Operators, OnlyChoice, Trans, HasItem, PathOver, ReduceFirst, ShiftFirst, Shifts, ReducesOn, Matches, BuiltIn;
    if t.Node? && t.rule == r {
      KidsThere(u.g, t.kids, r, s, k);
      RuleBegins(u, p, r);
      StartsHere(u.g, u.a, p, i, r);
      var q, x := EndOf(u, p, p, u.g.rrhs[r], t.kids, w, r, s, k);
      var s' := OperatorDecided(u, read, follow, p, i, q, x, r, s, k);
      NotBoth(u.t, x, u.value[k], r - 2, s');
    }
  }

  lemma {:induction false} NoNestLeft(u: Product, read: Looks, follow: Looks, q: int, i: int, t: Tree, w: seq<int>, r: nat, s: nat, k: nat)
    requires Competing(u, read, follow, r, s, k) && ShiftFirst(u.p, k, r)
    requires HasItem(u.g, u.a, q, i) && 1 <= i < |u.g.ritem| && ValidTree(u.g, t) && Root(u.g, t) == u.g.ritem[i] && Built(u, q, t, w)
    ensures !NestsLeft(t, s, r)
    decreases t
  {
    hide Printed, Valid, Canonical, Faithful, Complete, Operators, OnlyChoice, Trans, HasItem, PathOver, ShiftFirst, BuiltIn;
    if t.Node? {
      StartsHere(u.g, u.a, q, i, t.rule);
      RuleBegins(u, q, t.rule);
      NoNestLeftIn(u, read, follow, q, u.g.rrhs[t.rule], t.rule, t.kids, w, r, s, k);
      if t.rule == s {
        OperatorSizes(u.g, r, s, k);
        FirstKid(u, read, follow, q, i, t.kids, w, r, s, k);
      }
    }
  }

  lemma FirstKid(u: Product, read: Looks, follow: Looks, q: int, i: int, f: Forest, w: seq<int>, r: nat, s: nat, k: nat)
    requires Competing(u, read, follow, r, s, k) && ShiftFirst(u.p, k, r)
    requires HasItem(u.g, u.a, q, i) && 1 <= i < |u.g.ritem| && u.g.ritem[i] == u.g.rlhs[r]
    requires Matches(u.g, f, u.g.rrhs[s]) && BuiltIn(u, q, f, w, s)
    ensures !StartsIn(f, r)
  {
    hide Printed, Valid, Canonical, Faithful, Complete, Operators, OnlyChoice, Trans, HasItem, ShiftFirst, ReducesOn, Built;
    OperatorKids(u.g, f, r, s, k);
    TokenOfOperator(u.g, r, s, k);
    var rest := CodesOf(u.value, Yields(f.tl)) + w;
    assert Yields(f.tl) == [k] + Yields(f.tl.tl);
    LeftClash(u, read, follow, q, i, f.hd, rest, r, s, k);
  }

  lemma {:induction false} NoNestLeftIn(u: Product, read: Looks, follow: Looks, q: int, j: int, rule: int, f: Forest, w: seq<int>, r: nat, s: nat, k: nat)
    requires Competing(u, read, follow, r, s, k) && ShiftFirst(u.p, k, r)
    requires ItemOf(u.g, j, rule) && HasItem(u.g, u.a, q, j) && Matches(u.g, f, j) && BuiltIn(u, q, f, w, rule)
    ensures !NestsLeftIn(f, s, r)
    decreases f
  {
    hide Printed, Valid, Canonical, Faithful, Complete, Operators, OnlyChoice, Trans, HasItem, ShiftFirst, ReducesOn, Built;
    if f.Cons? {
      var q' :| Trans(u.a, q, Root(u.g, f.hd), q') && BuiltIn(u, q', f.tl, w, rule);
      ItemStep(u.g, j, rule);
      AdvancedTo(u.g, u.a, q, j, q');
      NoNestLeft(u, read, follow, q, j, f.hd, CodesOf(u.value, Yields(f.tl)) + w, r, s, k);
      NoNestLeftIn(u, read, follow, q', j + 1, rule, f.tl, w, r, s, k);
    }
  }

  lemma LooksComplete(u: Product, read: seq<set<nat>>, follow: seq<set<nat>>) returns (readable: Looks, following: Looks)
    requires Printed(u) && LooksFor(u, read, follow)
    ensures Complete(u, readable, following)
  {
    hide Valid, Canonical, ValidGotos, ReadClosed, FollowClosed, LaClosed, ParserFor, TokenVectors, TablesFor, GotoVectors;
    ReadLooksClosed(u.g, u.a, u.m, read);
    FollowLooksClosed(u.g, u.a, u.m, read, follow);
    LaLooksClosed(u.g, u.a, u.m, follow);
    readable, following := Looking(u.g, u.a, u.m, read), Looking(u.g, u.a, u.m, follow);
  }

  lemma PrintedPrecs(u: Product, k: nat, r: nat)
    requires Printed(u) && k < u.g.ntokens && r < |u.g.rlhs|
    ensures k < |u.p.symbolPrec| == |u.p.symbolAssoc| && r < |u.p.rulePrec| && |u.parser.marks| == |u.a.kernels| && Valid(u.g)
  {
  }

  /** How precedence groups the operators of an accepted input, whatever else the grammar has. Take a rule r that
      ends in its left-hand side, and a rule s that goes on from this by the operator k, where no third action
      competes. If r goes first, because it has the higher precedence, or the same and k associates to the left,
      then in the parse tree that the parser goes through no expression of rule s is the right operand of one of
      rule r. If k goes first, because it has the higher precedence, or the same and associates to the right, or
      because one of them has none, then no expression of rule r is the left operand of one of rule s. */
  lemma OperatorsGroup(u: Product, read: seq<set<nat>>, follow: seq<set<nat>>, limit: nat, input: seq<int>, n: nat, r: nat, s: nat, k: nat)
    requires Printed(u) && LooksFor(u, read, follow) && Operators(u.g, r, s, k) && OnlyChoice(u, r, k)
    requires Run(u.t, limit, Start(input), n) == Accepted
    ensures |TreesAfter(u, limit, input, n)| == 1 && IsParse(u, TreesAfter(u, limit, input, n)[0], input)
    ensures k < |u.p.symbolPrec| == |u.p.symbolAssoc| && r < |u.p.rulePrec|
    ensures ReduceFirst(u.p, k, r) ==> !NestsRight(TreesAfter(u, limit, input, n)[0], r, s)
    ensures ShiftFirst(u.p, k, r) ==> !NestsLeft(TreesAfter(u, limit, input, n)[0], s, r)
  {
    hide Printed, Valid, Canonical, Faithful, LooksFor, Complete, Operators, OnlyChoice, ReduceFirst, ShiftFirst, Run, TreesAfter, Built, ValidTree, Sentence, HasItem;
    ParseTree(u, limit, input, n);
    PrintedReady(u);
    OperatorSizes(u.g, r, s, k);
    PrintedPrecs(u, k, r);
    var readable, following := LooksComplete(u, read, follow);
    var t := TreesAfter(u, limit, input, n)[0];
    GoalItem(u);
    if ReduceFirst(u.p, k, r) {
      NoNestRight(u, readable, following, 0, 1, t, [], r, s, k);
    }
    if ShiftFirst(u.p, k, r) {
      NoNestLeft(u, readable, following, 0, 1, t, [], r, s, k);
    }
  }

  lemma OperatorSizes(g: Grammar, r: nat, s: nat, k: nat)
    requires Operators(g, r, s, k)
    ensures k < g.ntokens && r < |g.rlhs| && s < |g.rlhs| && g.rlhs[r] == g.rlhs[s]
  {
  }

  lemma GoalItem(u: Product)
    requires Ready(u)
    ensures HasItem(u.g, u.a, 0, 1) && 1 < |u.g.ritem| && u.g.ritem[1] == u.g.Goal()
  {
  }
}
