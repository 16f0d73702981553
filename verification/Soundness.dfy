/** The driver accepts only what the grammar derives. */
module Soundness {
  import opened Wrappers
  import opened Grammar
  import opened Closures
  import opened Automata
  import opened Driver

  /** The tables name only transitions and reductions of the automaton. value[k] is the code of token k. */
  ghost predicate Faithful(g: Grammar, a: Automaton, value: seq<int>, t: Tables)
    requires Valid(g)
  {
    && |value| == g.ntokens && value[0] == 0 && (forall j, k :: 0 <= j < k < |value| ==> value[j] != value[k] && value[k] > 0)
    && |t.defred| == |t.sindex| == |t.rindex| == |a.kernels|
    && |t.lhs| == |t.len| == |g.rlhs| - 2 && |t.gindex| == |t.dgoto| == g.Nvars() - 1
    && |t.table| > t.tablesize && |t.check| > t.tablesize
    && (forall n :: 1 <= n < |t.lhs| ==> t.lhs[n] == g.rlhs[n + 2] - g.Goal() && t.len[n] == RuleLength(g, n + 2))
    && (forall s :: 0 <= s < |a.kernels| && t.defred[s] != 0 ==> Reduces(g, a, s, t.defred[s]))
    && (forall s, c :: 0 <= s < |a.kernels| && 0 <= c ==> ShiftFaithful(g, a, value, t, s, c) && ReduceFaithful(g, a, t, s, c))
    && (forall s, x, s' :: Trans(a, s, x, s') && x >= g.ntokens ==> GotoFaithful(g, t, s, x, s'))
    && Trans(a, 0, g.Goal(), t.final)
  }

  // State s may reduce by the rule that the tables number n.
  ghost predicate Reduces(g: Grammar, a: Automaton, s: int, n: int)
    requires Valid(g)
  {
    0 <= s < |a.kernels| && n > 0 && Completes(g, a.kernels[s], n + 2)
  }

  ghost predicate ShiftFaithful(g: Grammar, a: Automaton, value: seq<int>, t: Tables, s: int, c: int)
    requires 0 <= s < |t.sindex| && |value| == g.ntokens
  {
    Lookup(t, t.sindex[s], c).Some? ==> exists k :: 0 <= k < g.ntokens && value[k] == c && Trans(a, s, k, Lookup(t, t.sindex[s], c).value)
  }

  ghost predicate ReduceFaithful(g: Grammar, a: Automaton, t: Tables, s: int, c: int)
    requires Valid(g) && 0 <= s < |t.rindex|
  {
    Lookup(t, t.rindex[s], c).Some? ==> Reduces(g, a, s, Lookup(t, t.rindex[s], c).value)
  }

  ghost predicate GotoFaithful(g: Grammar, t: Tables, s: int, x: int, s': int) {
    var n := x - g.Goal();
    0 <= n < |t.gindex| && n < |t.dgoto| &&
    s' == match Lookup(t, t.gindex[n], s) case Some(u) => u case None => t.dgoto[n]
  }

  // The codes of a token string.
  ghost function Codes(value: seq<int>, w: seq<int>): seq<int>
    requires forall k :: 0 <= k < |w| ==> 0 <= w[k] < |value|
  {
    seq(|w|, k requires 0 <= k < |w| => value[w[k]])
  }

  // What the lexical analyser delivers before the end of the input.
  function Sentence(input: seq<int>): seq<int> {
    if input == [] || input[0] <= 0 then [] else [input[0]] + Sentence(input[1..])
  }

  // What has been read but not shifted, and what is still to be read.
  function Pending(c: Config): seq<int> {
    if c.yychar < 0 then Sentence(c.input) else if c.yychar == 0 then [] else [c.yychar] + Sentence(c.input)
  }

  lemma ReadPending(c: Config)
    ensures Pending(Read(c)) == Pending(c) && Read(c).yychar >= 0 && Read(c).stack == c.stack
    ensures Read(c).yychar == (if Pending(c) == [] then 0 else Pending(c)[0])
  {
  }

  function YieldsOf(ts: seq<Tree>): seq<int> {
    if ts == [] then [] else YieldsOf(ts[..|ts| - 1]) + Yield(ts[|ts| - 1])
  }

  /** The stack is a path of the automaton from state 0, and ts are parse trees for the symbols along it. */
  ghost predicate Spine(g: Grammar, a: Automaton, stack: seq<int>, ts: seq<Tree>) {
    && |stack| == |ts| + 1 && stack[0] == 0
    && forall k :: 0 <= k < |ts| ==> ValidTree(g, ts[k]) && Trans(a, stack[k], Root(g, ts[k]), stack[k + 1])
  }

  // The trees stand for what has been consumed of the input.
  ghost predicate Inv(g: Grammar, a: Automaton, value: seq<int>, input: seq<int>, c: Config, ts: seq<Tree>)
    requires |value| == g.ntokens
  {
    && Spine(g, a, c.stack, ts)
    && (forall k :: 0 <= k < |YieldsOf(ts)| ==> 0 < YieldsOf(ts)[k] < g.ntokens)
    && Codes(value, YieldsOf(ts)) + Pending(c) == Sentence(input)
  }

  lemma SpineStates(g: Grammar, a: Automaton, stack: seq<int>, ts: seq<Tree>)
    requires Valid(g) && Canonical(g, a) && Spine(g, a, stack, ts)
    ensures forall k :: 0 <= k < |stack| ==> 0 <= stack[k] < |a.kernels| && (k > 0 ==> stack[k] > 0)
  {
    forall k | 0 < k < |stack|
      ensures 0 < stack[k] < |a.kernels|
    {
      TransFacts(g, a, stack[k - 1], Root(g, ts[k - 1]), stack[k]);
    }
  }

  // The trees from position k on, as a forest.
  function ForestFrom(ts: seq<Tree>, k: nat): Forest
    requires k <= |ts|
    decreases |ts| - k
  {
    if k == |ts| then Nil else Cons(ts[k], ForestFrom(ts, k + 1))
  }

  // An item past the start of a rule other than 2 is not in state 0.
  lemma NotAtBottom(g: Grammar, a: Automaton, i: int, r: int)
    requires Valid(g) && Canonical(g, a) && 3 <= r && ItemOf(g, i, r) && g.rrhs[r] < i
    ensures !HasItem(g, a, 0, i)
  {
    RuleStartsIncrease(g, 2, r);
    if HasItem(g, a, 0, i) {
      InKernel(g, a.kernels[0], i, r);
    }
  }

  lemma BackOne(g: Grammar, a: Automaton, stack: seq<int>, ts: seq<Tree>, i: int, r: int, k: nat)
    requires Valid(g) && Canonical(g, a) && Spine(g, a, stack, ts) && k <= |ts| && 3 <= r && ItemOf(g, i, r) && g.rrhs[r] < i
    requires HasItem(g, a, stack[k], i) && Matches(g, ForestFrom(ts, k), i)
    ensures k > 0 && ItemOf(g, i - 1, r) && HasItem(g, a, stack[k - 1], i - 1) && Matches(g, ForestFrom(ts, k - 1), i - 1)
  {
    if k == 0 {
      NotAtBottom(g, a, i, r);
    }
    CameOver(g, a, stack[k - 1], Root(g, ts[k - 1]), stack[k], i, r);
    TransFacts(g, a, stack[k - 1], Root(g, ts[k - 1]), stack[k]);
  }

  // Going down the stack from an item moves the dot back over the roots of the trees.
  lemma {:induction false} WalkBack(g: Grammar, a: Automaton, stack: seq<int>, ts: seq<Tree>, i: int, r: int, k: nat)
    requires Valid(g) && Canonical(g, a) && Spine(g, a, stack, ts) && k <= |ts| && 3 <= r && ItemOf(g, i, r)
    requires HasItem(g, a, stack[k], i) && Matches(g, ForestFrom(ts, k), i)
    ensures var m := i - g.rrhs[r];
            k - m >= 0 && HasItem(g, a, stack[k - m], g.rrhs[r]) && Matches(g, ForestFrom(ts, k - m), g.rrhs[r])
    decreases i - g.rrhs[r]
  {
    hide Valid, Canonical, InClosure, Matches;
    if i > g.rrhs[r] {
      BackOne(g, a, stack, ts, i, r, k);
      WalkBack(g, a, stack, ts, i - 1, r, k - 1);
    }
  }

  lemma {:induction false} ForestYield(ts: seq<Tree>, k: nat)
    requires k <= |ts|
    ensures YieldsOf(ts) == YieldsOf(ts[..k]) + Yields(ForestFrom(ts, k))
    decreases |ts| - k
  {
    if k == |ts| {
      assert ts[..k] == ts;
    } else {
      ForestYield(ts, k + 1);
      assert ts[..k + 1][..k] == ts[..k];
    }
  }

  /** A reduction finds the right-hand side of its rule on top of the stack, and below it a transition on
      the left-hand side. */
  lemma ReduceFinds(g: Grammar, a: Automaton, stack: seq<int>, ts: seq<Tree>, n: int) returns (s': int)
    requires Valid(g) && Canonical(g, a) && Spine(g, a, stack, ts) && n > 0
    requires Reduces(g, a, stack[|ts|], n)
    ensures n + 2 < |g.rlhs| && n + 2 >= 3
    ensures var m := RuleLength(g, n + 2); var k := |ts| - m;
            && m >= 0 && k >= 0
            && Matches(g, ForestFrom(ts, k), g.rrhs[n + 2])
            && Trans(a, stack[k], g.rlhs[n + 2], s')
  {
    var r := n + 2;
    var s := stack[|ts|];
    var i :| InClosure(g, a.kernels[s], i) && 1 <= i < |g.ritem| && g.ritem[i] == -r;
    var r' := RuleOfItem(g, i, |g.rlhs|);
    ItemStep(g, i, r');
    WalkBack(g, a, stack, ts, i, r, |ts|);
    var k := |ts| - RuleLength(g, r);
    StartBeforeLhs(g, a, stack[k], r);
    s' := TransExists(g, a, stack[k], g.rlhs[r]);
  }

  // The token codes w spell a token string that x derives.
  ghost predicate DerivesCodes(g: Grammar, value: seq<int>, x: int, w: seq<int>) {
    exists u :: Derives(g, x, u) && (forall k :: 0 <= k < |u| ==> 0 <= u[k] < |value|) && Codes(value, u) == w
  }

  ghost predicate Good(g: Grammar, a: Automaton, value: seq<int>, input: seq<int>, o: Outcome)
    requires |value| == g.ntokens
  {
    match o
    case Running(c) => exists ts :: Inv(g, a, value, input, c, ts)
    case Accepted => DerivesCodes(g, value, g.Goal(), Sentence(input))
    case SyntaxError => true
    case Overflow => true
    case Crash => false
  }

  // Reading a token and pushing a state below keep what Inv says of the input.
  lemma ReadInv(g: Grammar, a: Automaton, value: seq<int>, input: seq<int>, c: Config, ts: seq<Tree>)
    requires |value| == g.ntokens && Inv(g, a, value, input, c, ts)
    ensures Inv(g, a, value, input, Read(c), ts)
  {
    ReadPending(c);
  }

  // The trees after reducing by rule r: the top m of them become the children of a new one.
  function Reduced(ts: seq<Tree>, m: nat, r: int): seq<Tree>
    requires m <= |ts|
  {
    ts[..|ts| - m] + [Node(r, ForestFrom(ts, |ts| - m))]
  }

  lemma ReducedYield(ts: seq<Tree>, m: nat, r: int)
    requires m <= |ts|
    ensures YieldsOf(Reduced(ts, m, r)) == YieldsOf(ts)
  {
    ForestYield(ts, |ts| - m);
    assert Reduced(ts, m, r)[..|ts| - m] == ts[..|ts| - m];
  }

  lemma ReducedSpine(g: Grammar, a: Automaton, stack: seq<int>, ts: seq<Tree>, n: int, s': int)
    requires Valid(g) && Spine(g, a, stack, ts) && 1 <= n && n + 2 < |g.rlhs|
    requires 0 <= RuleLength(g, n + 2) <= |ts|
    requires Matches(g, ForestFrom(ts, |ts| - RuleLength(g, n + 2)), g.rrhs[n + 2])
    requires Trans(a, stack[|ts| - RuleLength(g, n + 2)], g.rlhs[n + 2], s')
    ensures Spine(g, a, stack[..|stack| - RuleLength(g, n + 2)] + [s'], Reduced(ts, RuleLength(g, n + 2), n + 2))
  {
  }

  lemma FaithfulRule(g: Grammar, a: Automaton, value: seq<int>, t: Tables, n: int)
    requires Valid(g) && Faithful(g, a, value, t) && 1 <= n && n + 2 < |g.rlhs|
    ensures n + 3 < |g.rrhs| && At(t.len, n) == Some(RuleLength(g, n + 2)) && At(t.lhs, n) == Some(g.rlhs[n + 2] - g.Goal())
  {
  }

  lemma FaithfulGoto(g: Grammar, a: Automaton, value: seq<int>, t: Tables, s: int, x: int, s': int)
    requires Valid(g) && Faithful(g, a, value, t) && Trans(a, s, x, s') && x >= g.ntokens
    ensures GotoFaithful(g, t, s, x, s') && |value| == g.ntokens && Trans(a, 0, g.Goal(), t.final)
  {
  }

  // With trees ts for the stack once s' is pushed on it, going over x is good.
  lemma GoOverGood(g: Grammar, a: Automaton, value: seq<int>, t: Tables, limit: nat, input: seq<int>, c: Config, ts: seq<Tree>, x: int, s': int)
    requires Valid(g) && Canonical(g, a) && Faithful(g, a, value, t) && |value| == g.ntokens
    requires c.stack != [] && Trans(a, c.stack[|c.stack| - 1], x, s') && x >= g.Goal()
    requires Inv(g, a, value, input, c.(stack := c.stack + [s']), ts)
    ensures Good(g, a, value, input, GoOver(t, limit, c, x - g.Goal()))
  {
    hide Canonical, Valid, Faithful;
    var p := c.stack[|c.stack| - 1];
    FaithfulGoto(g, a, value, t, p, x, s');
    SpineStates(g, a, c.stack + [s'], ts);
    assert (c.stack + [s'])[|c.stack| - 1] == p;
    if p == 0 && x == g.Goal() {
      assert |c.stack| == 1;
      TransUnique(g, a, 0, g.Goal(), s', t.final);
      assert Root(g, ts[0]) == x by { SpineRoot(g, a, c.stack + [s'], ts, x); }
      ReadInv(g, a, value, input, c.(stack := c.stack + [s']), ts);
      if Read(c.(stack := c.stack + [s'])).yychar == 0 {
        AcceptDerives(g, value, ts, input);
      }
    }
  }

  // The root of the topmost tree is the symbol of the topmost transition.
  lemma SpineRoot(g: Grammar, a: Automaton, stack: seq<int>, ts: seq<Tree>, x: int)
    requires Spine(g, a, stack, ts) && |ts| > 0 && Trans(a, stack[|ts| - 1], x, stack[|ts|])
    ensures Root(g, ts[|ts| - 1]) == x
  {
    assert Trans(a, stack[|ts| - 1], Root(g, ts[|ts| - 1]), stack[|ts|]);
  }

  lemma ReduceGood(g: Grammar, a: Automaton, value: seq<int>, t: Tables, limit: nat, input: seq<int>, c: Config, ts: seq<Tree>, n: int)
    requires Valid(g) && Canonical(g, a) && Faithful(g, a, value, t) && |value| == g.ntokens
    requires Inv(g, a, value, input, c, ts) && Reduces(g, a, c.stack[|ts|], n)
    ensures Good(g, a, value, input, Reduce(t, limit, c, n))
  {
    hide Canonical, Valid, Matches, InClosure, Completes, Faithful, Trans, ValidTree, GoOver, Codes, YieldsOf, Reduced, Good;
    var s' := ReduceFinds(g, a, c.stack, ts, n);
    var r := n + 2;
    LhsIsVar(g, r);
    FaithfulRule(g, a, value, t, n);
    var m := RuleLength(g, r);
    ReducedYield(ts, m, r);
    ReducedSpine(g, a, c.stack, ts, n, s');
    var c1 := c.(stack := c.stack[..|c.stack| - m]);
    assert Inv(g, a, value, input, c1.(stack := c1.stack + [s']), Reduced(ts, m, r));
    GoOverGood(g, a, value, t, limit, input, c1, Reduced(ts, m, r), g.rlhs[r], s');
  }

  lemma LhsIsVar(g: Grammar, r: int)
    requires Valid(g) && 3 <= r < |g.rlhs|
    ensures g.Goal() <= g.rlhs[r] < g.nsyms && r + 1 < |g.rrhs|
  {
  }

  lemma AcceptDerives(g: Grammar, value: seq<int>, ts: seq<Tree>, input: seq<int>)
    requires |ts| == 1 && ValidTree(g, ts[0]) && Root(g, ts[0]) == g.Goal()
    requires (forall k :: 0 <= k < |YieldsOf(ts)| ==> 0 < YieldsOf(ts)[k] < g.ntokens) && |value| == g.ntokens
    requires Codes(value, YieldsOf(ts)) == Sentence(input)
    ensures DerivesCodes(g, value, g.Goal(), Sentence(input))
  {
    assert ts[..0] == [];
    assert YieldsOf(ts) == Yield(ts[0]);
    assert Derives(g, g.Goal(), YieldsOf(ts));
  }

  lemma ShiftYield(value: seq<int>, ts: seq<Tree>, k: int)
    requires 0 <= k < |value| && forall j :: 0 <= j < |YieldsOf(ts)| ==> 0 <= YieldsOf(ts)[j] < |value|
    ensures var ys := YieldsOf(ts + [Leaf(k)]);
            ys == YieldsOf(ts) + [k] && (forall j :: 0 <= j < |ys| ==> 0 <= ys[j] < |value|) && Codes(value, ys) == Codes(value, YieldsOf(ts)) + [value[k]]
  {
    assert (ts + [Leaf(k)])[..|ts|] == ts;
  }

  lemma ShiftSpine(g: Grammar, a: Automaton, stack: seq<int>, ts: seq<Tree>, k: int, s': int)
    requires Spine(g, a, stack, ts) && 0 < k < g.ntokens && Trans(a, stack[|ts|], k, s')
    ensures Spine(g, a, stack + [s'], ts + [Leaf(k)])
  {
    hide Trans;
  }

  lemma ShiftGood(g: Grammar, a: Automaton, value: seq<int>, input: seq<int>, c: Config, ts: seq<Tree>, k: int, s': int)
    requires Valid(g) && Canonical(g, a) && |value| == g.ntokens && Inv(g, a, value, input, c, ts) && value[0] == 0
    requires 0 <= k < g.ntokens && value[k] == c.yychar && c.yychar >= 0 && Trans(a, c.stack[|ts|], k, s')
    requires forall j :: 0 < j < |value| ==> value[j] > 0
    ensures Inv(g, a, value, input, c.(stack := c.stack + [s'], yychar := -1), ts + [Leaf(k)])
  {
    hide Valid, Canonical, Trans, Spine, YieldsOf, Codes;
    SpineSize(g, a, c.stack, ts);
    TransFacts(g, a, c.stack[|ts|], k, s');
    ShiftYield(value, ts, k);
    ShiftSpine(g, a, c.stack, ts, k, s');
    assert Pending(c) == [c.yychar] + Sentence(c.input);
  }

  lemma StepGood(g: Grammar, a: Automaton, value: seq<int>, t: Tables, limit: nat, input: seq<int>, c: Config, ts: seq<Tree>)
    requires Valid(g) && Canonical(g, a) && Faithful(g, a, value, t) && Inv(g, a, value, input, c, ts)
    ensures Good(g, a, value, input, Step(t, limit, c))
  {
    hide Canonical, Valid, Reduces;
    SpineStates(g, a, c.stack, ts);
    var s := c.stack[|ts|];
    if t.defred[s] != 0 {
      ReduceGood(g, a, value, t, limit, input, c, ts, t.defred[s]);
    } else {
      ReadPending(c);
      ReadInv(g, a, value, input, c, ts);
      var c' := Read(c);
      assert ShiftFaithful(g, a, value, t, s, c'.yychar) && ReduceFaithful(g, a, t, s, c'.yychar);
      match Lookup(t, t.sindex[s], c'.yychar)
      case Some(s') =>
        var k :| 0 <= k < g.ntokens && value[k] == c'.yychar && Trans(a, s, k, s');
        ShiftGood(g, a, value, input, c', ts, k, s');
      case None =>
        match Lookup(t, t.rindex[s], c'.yychar) {
          case Some(n) => ReduceGood(g, a, value, t, limit, input, c', ts, n);
          case None =>
        }
    }
  }

  lemma {:induction false} RunGood(g: Grammar, a: Automaton, value: seq<int>, t: Tables, limit: nat, input: seq<int>, c: Config, ts: seq<Tree>, n: nat)
    requires Valid(g) && Canonical(g, a) && Faithful(g, a, value, t) && Inv(g, a, value, input, c, ts)
    ensures Good(g, a, value, input, Run(t, limit, c, n))
    decreases n
  {
    hide Canonical, Valid, Faithful, Inv, Step;
    FaithfulSize(g, a, value, t);
    if n > 0 {
      StepGood(g, a, value, t, limit, input, c, ts);
      if Step(t, limit, c).Running? {
        var c' := Step(t, limit, c).c;
        var ts' :| Inv(g, a, value, input, c', ts');
        RunGood(g, a, value, t, limit, input, c', ts', n - 1);
      }
    }
  }

  lemma FaithfulSize(g: Grammar, a: Automaton, value: seq<int>, t: Tables)
    requires Valid(g) && Faithful(g, a, value, t)
    ensures |value| == g.ntokens
  {
  }

  // On the way, the stack was full.
  ghost predicate WasFull(t: Tables, limit: nat, c: Config, n: nat) {
    exists m: nat :: m < n && FullAfter(t, limit, c, m)
  }

  ghost predicate FullAfter(t: Tables, limit: nat, c: Config, m: nat) {
    Run(t, limit, c, m).Running? && |Run(t, limit, c, m).c.stack| >= limit
  }

  // A turn overflows only from a full stack.
  lemma TurnOverflows(t: Tables, limit: nat, c: Config)
    requires Step(t, limit, c) == Overflow
    ensures |c.stack| >= limit
  {
  }

  lemma {:induction false} OverflowWasFull(t: Tables, limit: nat, c: Config, n: nat)
    requires Run(t, limit, c, n) == Overflow
    ensures WasFull(t, limit, c, n)
    decreases n
  {
    hide Step;
    if Step(t, limit, c) == Overflow {
      TurnOverflows(t, limit, c);
      assert FullAfter(t, limit, c, 0);
    } else {
      var c' := Step(t, limit, c).c;
      OverflowWasFull(t, limit, c', n - 1);
      var m: nat :| m < n - 1 && FullAfter(t, limit, c', m);
      assert FullAfter(t, limit, c, m + 1);
    }
  }

  // No turn makes the stack longer than it may be.
  lemma TurnStaysInside(g: Grammar, a: Automaton, t: Tables, limit: nat, c: Config, ts: seq<Tree>)
    requires Valid(g) && Canonical(g, a) && Spine(g, a, c.stack, ts) && 2 <= limit && |c.stack| <= limit
    ensures Step(t, limit, c).Running? ==> |Step(t, limit, c).c.stack| <= limit
  {
    hide Canonical, Valid, Spine;
    SpineStates(g, a, c.stack, ts);
    SpineSize(g, a, c.stack, ts);
  }

  lemma SpineSize(g: Grammar, a: Automaton, stack: seq<int>, ts: seq<Tree>)
    requires Spine(g, a, stack, ts)
    ensures |stack| == |ts| + 1
  {
  }

  lemma {:induction false} RunStaysInside(g: Grammar, a: Automaton, value: seq<int>, t: Tables, limit: nat, input: seq<int>, c: Config, ts: seq<Tree>, n: nat)
    requires Valid(g) && Canonical(g, a) && Faithful(g, a, value, t) && Inv(g, a, value, input, c, ts) && 2 <= limit && |c.stack| <= limit
    ensures Run(t, limit, c, n).Running? ==> |Run(t, limit, c, n).c.stack| <= limit
    decreases n
  {
    hide Canonical, Valid, Faithful, Step, Spine, Codes, YieldsOf;
    FaithfulSize(g, a, value, t);
    if n > 0 {
      StepGood(g, a, value, t, limit, input, c, ts);
      TurnStaysInside(g, a, t, limit, c, ts);
      if Step(t, limit, c).Running? {
        var c' := Step(t, limit, c).c;
        var ts' :| Inv(g, a, value, input, c', ts');
        RunStaysInside(g, a, value, t, limit, input, c', ts', n - 1);
      }
    }
  }

  /** Soundness, for every input, stack size and number of steps: the parser never leaves its tables or its
      stack, which it never makes longer than it may be; it overflows only if the stack was full; and when it
      accepts, the goal derives the input. */
  lemma ParserSound(g: Grammar, a: Automaton, value: seq<int>, t: Tables, limit: nat, input: seq<int>, n: nat)
    requires Valid(g) && Canonical(g, a) && Faithful(g, a, value, t)
    ensures Run(t, limit, Start(input), n) != Crash
    ensures Run(t, limit, Start(input), n).Running? && 2 <= limit ==> |Run(t, limit, Start(input), n).c.stack| <= limit
    ensures Run(t, limit, Start(input), n) == Overflow ==> WasFull(t, limit, Start(input), n)
    ensures Run(t, limit, Start(input), n) == Accepted ==> DerivesCodes(g, value, g.Goal(), Sentence(input))
  {
    hide Run, WasFull;
    assert Inv(g, a, value, input, Start(input), []);
    RunGood(g, a, value, t, limit, input, Start(input), [], n);
    if 2 <= limit {
      RunStaysInside(g, a, value, t, limit, input, Start(input), [], n);
    }
    if Run(t, limit, Start(input), n) == Overflow {
      OverflowWasFull(t, limit, Start(input), n);
    }
  }
}
