/** A generated parser comes to an end (byacc-1.9/skeleton.c). */
module Halting {
  import opened Wrappers
  import opened Grammar
  import opened Closures
  import opened Automata
  import opened Driver
  import opened Soundness
  import opened Completeness
  import opened Contexts
  import opened Generator
  import opened Gotos
  import opened Lalr
  import opened Lookaheads
  import opened Mkpar
  import opened Output
  import opened Packing
  import opened ParseTrees
  import opened Chains
  import opened Seqs

  // ---- runs without an end

  ghost predicate Endless(u: Product, limit: nat, input: seq<int>) {
    forall n: nat :: Run(u.t, limit, Start(input), n).Running?
  }

  ghost function ConfigAt(u: Product, limit: nat, input: seq<int>, n: nat): Config
    requires Endless(u, limit, input)
  {
    Run(u.t, limit, Start(input), n).c
  }

  // The turn was a reduction by r, which is possible before some token.
  ghost predicate Reduction(u: Product, c: Config, ts: seq<Tree>, c': Config, ts': seq<Tree>, r: int) {
    && 3 <= r < |u.g.rlhs| && r + 1 < |u.g.rrhs| && 0 <= RuleLength(u.g, r) <= |ts| && |c.stack| == |ts| + 1 && |c'.stack| == |ts'| + 1
    && ts' == Reduced(ts, RuleLength(u.g, r), r) && c'.stack[..|c.stack| - RuleLength(u.g, r)] == c.stack[..|c.stack| - RuleLength(u.g, r)]
    && Matches(u.g, ForestFrom(ts, |ts| - RuleLength(u.g, r)), u.g.rrhs[r]) && Foreseen(u, c.stack[|ts|], r)
  }

  ghost predicate SomeReduction(u: Product, c: Config, ts: seq<Tree>, c': Config, ts': seq<Tree>) {
    exists r :: Reduction(u, c, ts, c', ts', r)
  }

  // Some token lets state s reduce by r.
  ghost predicate Foreseen(u: Product, s: int, r: int) {
    exists k: nat :: (s, r, k) in u.la
  }

  // What the tables reduce by is foreseen.
  lemma ReducesForeseen(u: Product, s: nat, c: int, n: int)
    requires Printed(u) && s < |u.a.kernels| && c >= 0 && ReducesOn(u.t, s, c, n)
    ensures Foreseen(u, s, n + 2)
  {
    hide Printed, Valid, Canonical, Trans, Completes, StateVectors, Finds, ActionsOf, Kept, Lookup, Find;
    PrintedState(u, s);
    PrintedBase(u);
    TableSizes(u, s);
    var acts, marks := u.lists[s], u.parser.marks[s];
    MarkedFacts(acts, marks);
    StateLookups(u, s, c);
    var i :| IsKept(marks, i, Mkpar.Reduce) && marks[i].number == n + 2;
    EntryForeseen(u, s, i);
  }

  lemma EntryForeseen(u: Product, s: nat, i: nat)
    requires Printed(u) && s < |u.a.kernels| && s < |u.lists| && i < |u.lists[s]| && u.lists[s][i].code == Mkpar.Reduce
    ensures Foreseen(u, s, u.lists[s][i].number)
  {
    hide Printed, Valid, Canonical, Trans, Completes, StateVectors, Finds, Kept, Ordered;
    PrintedState(u, s);
    var x := u.lists[s][i];
    assert x in u.lists[s];
    assert IsReduction(u.g, u.a, u.p, u.la, s, x);
  }

  lemma ReducedBy(u: Product, limit: nat, input: seq<int>, c: Config, ts: seq<Tree>, n: int)
    requires Printed(u) && Ready(u) && Parsed(u, input, c, ts)
    requires Reduces(u.g, u.a, c.stack[|ts|], n) && ReducesOn(u.t, c.stack[|ts|], Look(Pending(c)), n)
    ensures var o := Driver.Reduce(u.t, limit, c, n);
            o.Running? ==> Pending(o.c) == Pending(c) && Reduction(u, c, ts, o.c, Folded(u.g, ts, n + 2), n + 2)
  {
    hide Printed, Canonical, Valid, Faithful, Reduces, ReducesOn, Matches, Trans, ValidTree, GoOver, Codes, YieldsOf, Built, AllBuilt, After, Inv, Foreseen;
    BuiltSize(u, c, ts);
    InvStates(u, input, c, ts);
    InvSpine(u, input, c, ts);
    assert n > 0 by { RuleUp(u, c.stack[|ts|], n); }
    var s' := ReduceFinds(u.g, u.a, c.stack, ts, n);
    var r := n + 2;
    LhsIsVar(u.g, r);
    FaithfulRule(u.g, u.a, u.value, u.t, n);
    var m := RuleLength(u.g, r);
    var c1 := c.(stack := c.stack[..|c.stack| - m]);
    WentOver(u, limit, c1, u.g.rlhs[r], s');
    LookIsCode(c);
    ReducesForeseen(u, c.stack[|ts|], Look(Pending(c)), n);
  }

  lemma InvSpine(u: Product, input: seq<int>, c: Config, ts: seq<Tree>)
    requires |u.value| == u.g.ntokens && Inv(u.g, u.a, u.value, input, c, ts)
    ensures Spine(u.g, u.a, c.stack, ts)
  {
  }

  lemma LookIsCode(c: Config)
    ensures Look(Pending(c)) >= 0
  {
  }

  /** Without an end, a turn either uses up a token or is a foreseen reduction. */
  lemma TurnReduces(u: Product, limit: nat, input: seq<int>, c: Config, ts: seq<Tree>)
    requires Printed(u) && Ready(u) && Parsed(u, input, c, ts) && Step(u.t, limit, c).Running?
    ensures var c' := Step(u.t, limit, c).c;
            || |Pending(c')| < |Pending(c)|
            || (Pending(c') == Pending(c) && SomeReduction(u, c, ts, c', Grown(u, c, ts)))
  {
    hide Printed, Canonical, Valid, Reduces, Built, Codes, YieldsOf, Inv, AllBuilt, Folded, TokenOf, Reduction;
    BuiltSize(u, c, ts);
    InvStates(u, input, c, ts);
    var s := c.stack[|ts|];
    ReadPending(c);
    if u.t.defred[s] != 0 {
      RuleUp(u, s, u.t.defred[s]);
      ReducedBy(u, limit, input, c, ts, u.t.defred[s]);
      assert Grown(u, c, ts) == Folded(u.g, ts, u.t.defred[s] + 2);
      assert Reduction(u, c, ts, Step(u.t, limit, c).c, Grown(u, c, ts), u.t.defred[s] + 2);
    } else {
      ReadInv(u.g, u.a, u.value, input, c, ts);
      ReadBuilt(u, c, ts);
      var c' := Read(c);
      assert ShiftFaithful(u.g, u.a, u.value, u.t, s, c'.yychar) && ReduceFaithful(u.g, u.a, u.t, s, c'.yychar);
      match Lookup(u.t, u.t.sindex[s], c'.yychar)
      case Some(s') =>
        var k :| 0 <= k < u.g.ntokens && u.value[k] == c'.yychar && Trans(u.a, s, k, s');
        ShiftedCode(u, s, k, s');
      case None =>
        match Lookup(u.t, u.t.rindex[s], c'.yychar) {
          case Some(n) =>
            RuleUp(u, s, n);
            ReducedBy(u, limit, input, c', ts, n);
            var d := Step(u.t, limit, c).c;
            assert Grown(u, c, ts) == Folded(u.g, ts, n + 2);
            SameStack(u, c', c, ts, d, Folded(u.g, ts, n + 2), n + 2);
            assert Reduction(u, c, ts, d, Grown(u, c, ts), n + 2);
          case None =>
        }
    }
  }

  lemma SameStack(u: Product, c: Config, c0: Config, ts: seq<Tree>, d: Config, ts': seq<Tree>, r: int)
    requires Reduction(u, c, ts, d, ts', r) && c0.stack == c.stack
    ensures Reduction(u, c0, ts, d, ts', r)
  {
  }

  lemma ShiftedCode(u: Product, s: int, k: int, s': int)
    requires Ready(u) && Trans(u.a, s, k, s') && 0 <= k < u.g.ntokens
    ensures u.value[k] > 0
  {
    hide Canonical, Valid, Trans;
    TransFacts(u.g, u.a, s, k, s');
  }

  // ---- along a run without an end

  function Unread(c: Config): nat {
    |Pending(c)|
  }

  ghost predicate ReductionAt(u: Product, limit: nat, input: seq<int>, n: nat)
    requires Endless(u, limit, input)
  {
    SomeReduction(u, ConfigAt(u, limit, input, n), TreesAfter(u, limit, input, n), ConfigAt(u, limit, input, n + 1), TreesAfter(u, limit, input, n + 1))
  }

  lemma TurnAt(u: Product, limit: nat, input: seq<int>, n: nat)
    requires Printed(u) && Ready(u) && Endless(u, limit, input) && |u.value| == u.g.ntokens
    ensures Parsed(u, input, ConfigAt(u, limit, input, n), TreesAfter(u, limit, input, n))
    ensures var c, c' := ConfigAt(u, limit, input, n), ConfigAt(u, limit, input, n + 1);
            Unread(c') < Unread(c) || (Unread(c') == Unread(c) && ReductionAt(u, limit, input, n))
  {
    hide Printed, Ready, Run, Step, Parsed, Grown, Reduction, Pending;
    RunParsed(u, limit, input, n);
    RunLast(u.t, limit, Start(input), n);
    assert Run(u.t, limit, Start(input), n + 1).Running? && Run(u.t, limit, Start(input), n).Running?;
    var c, ts := ConfigAt(u, limit, input, n), TreesAfter(u, limit, input, n);
    TurnReduces(u, limit, input, c, ts);
    assert TreesAfter(u, limit, input, n + 1) == Grown(u, c, ts);
  }

  // From n on, nothing more is used up.
  ghost predicate SettledFrom(u: Product, limit: nat, input: seq<int>, n: nat)
    requires Endless(u, limit, input)
  {
    forall m: nat :: m >= n ==> ReductionAt(u, limit, input, m)
  }

  lemma {:induction false} UnreadFalls(u: Product, limit: nat, input: seq<int>, n: nat, m: nat)
    requires Printed(u) && Ready(u) && Endless(u, limit, input) && n <= m
    ensures Unread(ConfigAt(u, limit, input, m)) <= Unread(ConfigAt(u, limit, input, n))
    decreases m
  {
    hide Printed, Ready, Endless, ConfigAt, Unread, Parsed;
    if n < m {
      UnreadFalls(u, limit, input, n, m - 1);
      SizeOfCodes(u);
      TurnAt(u, limit, input, m - 1);
    }
  }

  lemma SizeOfCodes(u: Product)
    requires Ready(u)
    ensures |u.value| == u.g.ntokens
  {
  }

  // Some time, the last token has been used up that ever is.
  lemma {:induction false} Settles(u: Product, limit: nat, input: seq<int>, n: nat) returns (n0: nat)
    requires Printed(u) && Ready(u) && Endless(u, limit, input)
    ensures SettledFrom(u, limit, input, n0)
    decreases Unread(ConfigAt(u, limit, input, n))
  {
    hide Printed, Ready, Endless, ConfigAt, Unread, Parsed, ReductionAt;
    SizeOfCodes(u);
    if m: nat :| m >= n && !ReductionAt(u, limit, input, m) {
      TurnAt(u, limit, input, m);
      UnreadFalls(u, limit, input, n, m);
      n0 := Settles(u, limit, input, m + 1);
    } else {
      n0 := n;
    }
  }

  function Height(c: Config): nat {
    |c.stack|
  }

  lemma TurnBound(g: Grammar, a: Automaton, t: Tables, limit: nat, c: Config, ts: seq<Tree>)
    requires Valid(g) && Canonical(g, a) && Spine(g, a, c.stack, ts)
    ensures Step(t, limit, c).Running? ==> |Step(t, limit, c).c.stack| <= limit || |Step(t, limit, c).c.stack| == 2
  {
    hide Canonical, Valid, Spine;
    SpineStates(g, a, c.stack, ts);
    SpineSize(g, a, c.stack, ts);
  }

  lemma HeightBound(u: Product, limit: nat, input: seq<int>, n: nat)
    requires Printed(u) && Ready(u) && Endless(u, limit, input)
    ensures Height(ConfigAt(u, limit, input, n)) <= limit + 2
  {
    hide Printed, Run, Step, Valid, Canonical, Faithful, Inv, AllBuilt, Built, TreesAfter, ReductionAt, Spine, Unread;
    if n == 0 {
      RunNone(u.t, limit, Start(input));
    } else {
      TurnAt(u, limit, input, n - 1);
      RunLast(u.t, limit, Start(input), n - 1);
      assert Run(u.t, limit, Start(input), n - 1).Running? && Run(u.t, limit, Start(input), n).Running?;
      var c, ts := ConfigAt(u, limit, input, n - 1), TreesAfter(u, limit, input, n - 1);
      InvSpine(u, input, c, ts);
      TurnBound(u.g, u.a, u.t, limit, c, ts);
    }
  }

  ghost predicate AboveFrom(u: Product, limit: nat, input: seq<int>, n: nat, h: nat)
    requires Endless(u, limit, input)
  {
    forall m: nat :: m >= n ==> Height(ConfigAt(u, limit, input, m)) >= h
  }

  ghost predicate ReturnsAfter(u: Product, limit: nat, input: seq<int>, n: nat, h: nat)
    requires Endless(u, limit, input)
  {
    exists m: nat :: m >= n && Height(ConfigAt(u, limit, input, m)) == h
  }

  // The stack comes back again and again to the height below which it no longer falls.
  lemma {:induction false} Floor(u: Product, limit: nat, input: seq<int>, n: nat, h: nat) returns (n': nat, h': nat)
    requires Printed(u) && Ready(u) && Endless(u, limit, input) && AboveFrom(u, limit, input, n, h)
    ensures n' >= n && h' >= h && AboveFrom(u, limit, input, n', h') && forall m: nat :: m >= n' ==> ReturnsAfter(u, limit, input, m, h')
    decreases limit + 2 - h
  {
    hide Printed, Ready, Endless, ConfigAt, Height;
    HeightBound(u, limit, input, n);
    var above := h + 1;
    if j: nat :| j >= n && AboveFrom(u, limit, input, j, above) {
      HeightBound(u, limit, input, j);
      n', h' := Floor(u, limit, input, j, above);
    } else {
      n', h' := n, h;
      forall m: nat | m >= n
        ensures ReturnsAfter(u, limit, input, m, h)
      {
        assert !AboveFrom(u, limit, input, m, above);
        var j: nat :| j >= m && Height(ConfigAt(u, limit, input, j)) < above;
        assert Height(ConfigAt(u, limit, input, j)) == h;
      }
    }
  }

  // Times, one after the other, at which the stack has height h.
  ghost predicate LowTimes(u: Product, limit: nat, input: seq<int>, n: nat, h: nat, q: seq<nat>)
    requires Endless(u, limit, input)
  {
    && (forall i, j :: 0 <= i < j < |q| ==> q[i] < q[j])
    && forall i :: 0 <= i < |q| ==> q[i] >= n && Height(ConfigAt(u, limit, input, q[i])) == h
  }

  lemma {:induction false} FindTimes(u: Product, limit: nat, input: seq<int>, n: nat, h: nat, k: nat) returns (q: seq<nat>)
    requires Endless(u, limit, input) && forall m: nat :: m >= n ==> ReturnsAfter(u, limit, input, m, h)
    ensures |q| == k && LowTimes(u, limit, input, n, h, q)
    decreases k
  {
    hide Endless, ConfigAt, Height;
    if k == 0 {
      q := [];
    } else {
      var q' := FindTimes(u, limit, input, n, h, k - 1);
      var from := if q' == [] then n else q'[k - 2] + 1;
      assert ReturnsAfter(u, limit, input, from, h);
      var m: nat :| m >= from && Height(ConfigAt(u, limit, input, m)) == h;
      q := q' + [m];
    }
  }

  lemma TopInside(u: Product, limit: nat, input: seq<int>, n: nat)
    requires Printed(u) && Ready(u) && Endless(u, limit, input)
    ensures 0 <= Top(ConfigAt(u, limit, input, n)) < |u.a.kernels|
  {
    hide Printed, Run, Valid, Canonical, Faithful;
    TurnAt(u, limit, input, n);
    InvStates(u, input, ConfigAt(u, limit, input, n), TreesAfter(u, limit, input, n));
  }

  // At two such times the same state is on top.
  lemma SameTop(u: Product, limit: nat, input: seq<int>, n: nat, h: nat) returns (x: nat, y: nat)
    requires Printed(u) && Ready(u) && Endless(u, limit, input) && forall m: nat :: m >= n ==> ReturnsAfter(u, limit, input, m, h)
    ensures n <= x < y && Height(ConfigAt(u, limit, input, x)) == Height(ConfigAt(u, limit, input, y)) == h
    ensures Top(ConfigAt(u, limit, input, x)) == Top(ConfigAt(u, limit, input, y))
  {
    hide Printed, Ready, Endless, ConfigAt, Height, Top;
    var q := FindTimes(u, limit, input, n, h, |u.a.kernels| + 1);
    forall i | 0 <= i < |q|
      ensures 0 <= Top(ConfigAt(u, limit, input, q[i])) < |u.a.kernels|
    {
      TopInside(u, limit, input, q[i]);
    }
    var tops: seq<nat> := seq(|q|, i requires 0 <= i < |q| => Top(ConfigAt(u, limit, input, q[i])));
    if Distinct(tops) {
      Pigeonhole(tops, |u.a.kernels|);
      assert false;
    }
    var i, j :| 0 <= i < j < |tops| && tops[i] == tops[j];
    x, y := q[i], q[j];
  }

  // ---- what such a run does above the height it comes back to

  /** Since the time of c0, with the trees ts0 and the height h, the stack below its top at that time has not
      changed; the trees above are empty; and the one at this place has grown from that of then by these links. */
  ghost predicate Grew(u: Product, h: nat, c0: Config, ts0: seq<Tree>, c: Config, ts: seq<Tree>, links: seq<Link>) {
    && 2 <= h == |c0.stack| <= |c.stack| && |ts0| == h - 1 && |ts| == |c.stack| - 1 && c.stack[..h - 1] == c0.stack[..h - 1]
    && (forall k :: h - 1 <= k < |ts| ==> Yield(ts[k]) == [])
    && Chain(u.g, Root(u.g, ts0[h - 2]), links, Root(u.g, ts[h - 2]))
    && (links != [] ==> RuleForeseen(u, links[|links| - 1].rule))
  }

  ghost predicate RuleForeseen(u: Product, r: int) {
    exists s :: Foreseen(u, s, r)
  }

  lemma {:induction false} EmptyFrom(ts: seq<Tree>, k: nat)
    requires k <= |ts| && forall j :: k <= j < |ts| ==> Yield(ts[j]) == []
    ensures Yields(ForestFrom(ts, k)) == []
    decreases |ts| - k
  {
    if k < |ts| {
      EmptyFrom(ts, k + 1);
    }
  }

  lemma {:induction false} LinkMore(g: Grammar, x: int, links: seq<Link>, z: int, l: Link, y: int)
    requires Chain(g, x, links, z) && IsLink(g, z, l, y)
    ensures Chain(g, x, links + [l], y)
  {
    var all := links + [l];
    assert all[..|all| - 1] == links;
  }

  // The reduction takes in the tree at height h, and all above it.
  lemma GrewLink(u: Product, h: nat, c0: Config, ts0: seq<Tree>, c: Config, ts: seq<Tree>, links: seq<Link>, c': Config, ts': seq<Tree>, r: int)
    returns (links': seq<Link>)
    requires Valid(u.g) && Grew(u, h, c0, ts0, c, ts, links) && Reduction(u, c, ts, c', ts', r) && |ts| - RuleLength(u.g, r) == h - 2
    ensures Grew(u, h, c0, ts0, c', ts', links') && links' != [] && |c'.stack| == h
  {
    hide Valid, Foreseen, ValidTree;
    var l := Link(r, ForestFrom(ts, h - 1));
    EmptyFrom(ts, h - 1);
    TakenLink(u.g, ts, h - 2, r);
    LinkMore(u.g, Root(u.g, ts0[h - 2]), links, Root(u.g, ts[h - 2]), l, u.g.rlhs[r]);
    links' := links + [l];
    assert ts'[h - 2] == Node(r, ForestFrom(ts, h - 2));
    assert c'.stack[..h - 1] == c.stack[..h - 1];
    assert Foreseen(u, c.stack[|ts|], r);
  }

  lemma TakenLink(g: Grammar, ts: seq<Tree>, k: nat, r: int)
    requires Valid(g) && 3 <= r < |g.rlhs| && r + 1 < |g.rrhs| && k < |ts| && Matches(g, ForestFrom(ts, k), g.rrhs[r]) && Yields(ForestFrom(ts, k + 1)) == []
    ensures IsLink(g, Root(g, ts[k]), Link(r, ForestFrom(ts, k + 1)), g.rlhs[r])
  {
    assert ForestFrom(ts, k) == Cons(ts[k], ForestFrom(ts, k + 1));
    assert ValidTree(g, ts[k]);
  }

  // The reduction stays above height h.
  lemma GrewAbove(u: Product, h: nat, c0: Config, ts0: seq<Tree>, c: Config, ts: seq<Tree>, links: seq<Link>, c': Config, ts': seq<Tree>, r: int)
    requires Grew(u, h, c0, ts0, c, ts, links) && Reduction(u, c, ts, c', ts', r) && |ts| - RuleLength(u.g, r) >= h - 1
    ensures Grew(u, h, c0, ts0, c', ts', links) && |c'.stack| > h
  {
    hide Foreseen, ValidTree, Matches, Chain;
    var b := |ts| - RuleLength(u.g, r);
    EmptyFrom(ts, b);
    assert ts'[b] == Node(r, ForestFrom(ts, b)) && Yield(ts'[b]) == [];
    assert forall k :: 0 <= k < b ==> ts'[k] == ts[k];
    assert c'.stack[..h - 1] == c'.stack[..b + 1][..h - 1] == c.stack[..b + 1][..h - 1] == c.stack[..h - 1];
  }

  lemma {:induction false} Segment(u: Product, limit: nat, input: seq<int>, a: nat, m: nat, h: nat) returns (links: seq<Link>)
    requires Printed(u) && Ready(u) && Endless(u, limit, input) && a <= m && h >= 2
    requires SettledFrom(u, limit, input, a) && AboveFrom(u, limit, input, a, h) && Height(ConfigAt(u, limit, input, a)) == h
    ensures Grew(u, h, ConfigAt(u, limit, input, a), TreesAfter(u, limit, input, a), ConfigAt(u, limit, input, m), TreesAfter(u, limit, input, m), links)
    ensures m > a && Height(ConfigAt(u, limit, input, m)) == h ==> links != []
    decreases m
  {
    hide Printed, Ready, Endless, ConfigAt, TreesAfter, Reduction, Parsed, Grew;
    SizeOfCodes(u);
    var c0, ts0 := ConfigAt(u, limit, input, a), TreesAfter(u, limit, input, a);
    if m == a {
      links := [];
      TurnAt(u, limit, input, a);
      GrewNot(u, input, h, c0, ts0);
    } else {
      var before := Segment(u, limit, input, a, m - 1, h);
      assert ReductionAt(u, limit, input, m - 1) && Height(ConfigAt(u, limit, input, m)) >= h;
      var c, ts, c', ts' := ConfigAt(u, limit, input, m - 1), TreesAfter(u, limit, input, m - 1), ConfigAt(u, limit, input, m), TreesAfter(u, limit, input, m);
      var r :| Reduction(u, c, ts, c', ts', r);
      ReductionSizes(u, c, ts, c', ts', r);
      ReadyGrammar(u);
      if |ts| - RuleLength(u.g, r) == h - 2 {
        links := GrewLink(u, h, c0, ts0, c, ts, before, c', ts', r);
      } else {
        links := before;
        GrewAbove(u, h, c0, ts0, c, ts, before, c', ts', r);
      }
    }
  }

  lemma GrewNot(u: Product, input: seq<int>, h: nat, c: Config, ts: seq<Tree>)
    requires |u.value| == u.g.ntokens && Parsed(u, input, c, ts) && |c.stack| == h >= 2
    ensures Grew(u, h, c, ts, c, ts, [])
  {
  }

  lemma ReductionSizes(u: Product, c: Config, ts: seq<Tree>, c': Config, ts': seq<Tree>, r: int)
    requires Reduction(u, c, ts, c', ts', r)
    ensures r >= 0 && r + 1 < |u.g.rrhs| && |c'.stack| == |ts| - RuleLength(u.g, r) + 2
    ensures RuleLength(u.g, r) <= |ts|
  {
  }

  lemma ReadyGrammar(u: Product)
    requires Ready(u)
    ensures Valid(u.g) && Canonical(u.g, u.a)
  {
  }

  // ---- the end

  /** The goal becomes itself by a chain of rules. */
  ghost predicate GoalRecurs(g: Grammar) {
    exists links :: links != [] && Chain(g, g.Goal(), links, g.Goal())
  }

  lemma {:induction false} ChainFrom(g: Grammar, x: int, links: seq<Link>, y: int, k: nat) returns (z: int)
    requires Chain(g, x, links, y) && k <= |links|
    ensures Chain(g, x, links[..k], z) && Chain(g, z, links[k..], y) && (k > 0 ==> 0 <= links[k - 1].rule < |g.rlhs| && z == g.rlhs[links[k - 1].rule])
    decreases |links|
  {
    var n := |links| - 1;
    if k == |links| {
      z := y;
      assert links[..k] == links;
    } else {
      var before := links[..n];
      var y' :| Chain(g, x, before, y') && IsLink(g, y', links[n], y);
      z := ChainFrom(g, x, before, y', k);
      assert before[..k] == links[..k] && links[k..] == before[k..] + [links[n]];
      LinkMore(g, z, before[k..], y', links[n], y);
      assert k > 0 ==> before[k - 1] == links[k - 1];
    }
  }

  lemma {:induction false} ChainAppend(g: Grammar, x: int, p: seq<Link>, y: int, q: seq<Link>, z: int)
    requires Chain(g, x, p, y) && Chain(g, y, q, z)
    ensures Chain(g, x, p + q, z)
    decreases |q|
  {
    if q == [] {
      assert p + q == p;
    } else {
      var n := |q| - 1;
      var y' :| Chain(g, y, q[..n], y') && IsLink(g, y', q[n], z);
      ChainAppend(g, x, p, y, q[..n], y');
      LinkMore(g, x, p + q[..n], y', q[n], z);
      assert p + q == p + q[..n] + [q[n]];
    }
  }

  // A chain that comes back to its start avoids the goal, if the goal does not recur.
  lemma RoundAvoids(g: Grammar, x: int, links: seq<Link>)
    requires Chain(g, x, links, x) && !GoalRecurs(g)
    ensures AvoidsGoal(g, links)
  {
    hide Chain;
    if !AvoidsGoal(g, links) {
      var k :| 0 <= k < |links| && 0 <= links[k].rule < |g.rlhs| && g.rlhs[links[k].rule] == g.Goal();
      var z := ChainFrom(g, x, links, x, k + 1);
      ChainAppend(g, z, links[k + 1..], x, links[..k + 1], z);
    }
  }

  lemma SetupFor(u: Product, read: seq<set<nat>>, follow: seq<set<nat>>) returns (setup: Setup)
    requires Printed(u) && LooksFor(u, read, follow) && Unambiguous(u)
    ensures SetupOk(setup) && setup.g == u.g && setup.a == u.a
  {
    hide Valid, Canonical, ValidGotos, Faithful, Decides, ReadClosed, FollowClosed, LaClosed, Unambiguous, ParserFor, TokenVectors, TablesFor, GotoVectors;
    TablesFaithful(u);
    TablesDecide(u);
    var readable, following := LooksComplete(u, read, follow);
    setup := Setup(u.g, u.a, u.value, u.t, readable, following, u.la);
  }

  // The state on top tells the symbol that has led to it.
  lemma SameRoot(u: Product, input: seq<int>, c: Config, ts: seq<Tree>, c': Config, ts': seq<Tree>, k: nat)
    requires Ready(u) && |u.value| == u.g.ntokens && Parsed(u, input, c, ts) && Parsed(u, input, c', ts')
    requires |ts| == |ts'| == k + 1 && c.stack[k + 1] == c'.stack[k + 1]
    ensures Root(u.g, ts[k]) == Root(u.g, ts'[k])
  {
    hide Valid, Canonical, Faithful, Trans, AllBuilt, ValidTree;
    TransFacts(u.g, u.a, c.stack[k], Root(u.g, ts[k]), c.stack[k + 1]);
    TransFacts(u.g, u.a, c'.stack[k], Root(u.g, ts'[k]), c'.stack[k + 1]);
  }

  // A run without an end goes round a chain.
  lemma EndlessRound(u: Product, limit: nat, input: seq<int>) returns (x: int, links: seq<Link>)
    requires Printed(u) && Ready(u) && Endless(u, limit, input)
    ensures links != [] && Chain(u.g, x, links, x) && RuleForeseen(u, links[|links| - 1].rule)
  {
    hide Printed, Ready, Endless, ConfigAt, TreesAfter, Parsed, SettledFrom, RuleForeseen, Chain;
    SizeOfCodes(u);
    var n0 := Settles(u, limit, input, 0);
    SettledHigh(u, limit, input, n0);
    var n, h := Floor(u, limit, input, n0 + 1, 2);
    var a, b := SameTop(u, limit, input, n, h);
    SettledLater(u, limit, input, n0, a);
    links := Segment(u, limit, input, a, b, h);
    TurnAt(u, limit, input, a);
    TurnAt(u, limit, input, b);
    var c, ts, c', ts' := ConfigAt(u, limit, input, a), TreesAfter(u, limit, input, a), ConfigAt(u, limit, input, b), TreesAfter(u, limit, input, b);
    SameRoot(u, input, c, ts, c', ts', h - 2);
    x := Root(u.g, ts[h - 2]);
  }

  lemma SettledLater(u: Product, limit: nat, input: seq<int>, n: nat, m: nat)
    requires Endless(u, limit, input) && SettledFrom(u, limit, input, n) && n <= m
    ensures SettledFrom(u, limit, input, m)
  {
    hide ReductionAt, Endless;
  }

  lemma SettledHigh(u: Product, limit: nat, input: seq<int>, n: nat)
    requires Endless(u, limit, input) && SettledFrom(u, limit, input, n)
    ensures AboveFrom(u, limit, input, n + 1, 2)
  {
    hide Endless, ConfigAt, TreesAfter, Reduction;
    forall m: nat | m >= n + 1
      ensures Height(ConfigAt(u, limit, input, m)) >= 2
    {
      assert ReductionAt(u, limit, input, m - 1);
      var r :| Reduction(u, ConfigAt(u, limit, input, m - 1), TreesAfter(u, limit, input, m - 1), ConfigAt(u, limit, input, m), TreesAfter(u, limit, input, m), r);
      ReductionSizes(u, ConfigAt(u, limit, input, m - 1), TreesAfter(u, limit, input, m - 1), ConfigAt(u, limit, input, m), TreesAfter(u, limit, input, m), r);
    }
  }

  // The left-hand side of a foreseen rule occurs in a sentential form, before a token or at the end.
  lemma ForeseenOccurs(u: Product, read: seq<set<nat>>, follow: seq<set<nat>>, r: int) returns (t: Tree, w: seq<int>, v: seq<int>, p: int)
    requires Printed(u) && LooksFor(u, read, follow) && RuleForeseen(u, r)
    ensures 3 <= r < |u.g.rlhs| && Root(u.g, t) == u.g.Goal() && Opens(u.g, t, w, u.g.rlhs[r], v) && StartsWithToken(u.g, v) && Leads(u.a, 0, w, p)
    ensures u.g.IsVar(u.g.rlhs[r])
  {
    hide Valid, Canonical, ValidGotos, ReadAndFollow, ParserFor, TokenVectors, TablesFor, GotoVectors, InLa, Opens, Leads;
    var s :| Foreseen(u, s, r);
    var k: nat :| (s, r, k) in u.la;
    assert InLa(u.g, u.a, u.m, follow, s, r, k);
    LaAnticipates(u.g, u.a, u.m, read, follow, s, r, k);
    var p', w', v' :| AnticipatesBy(u.g, u.a, s, r, k, p', w', v');
    t :| Root(u.g, t) == u.g.Goal() && Opens(u.g, t, w', u.g.rlhs[r], v');
    w, v, p := w', v', p';
    LhsVar(u.g, r);
  }

  lemma ChainEnds(g: Grammar, x: int, links: seq<Link>, y: int)
    requires Chain(g, x, links, y) && links != []
    ensures 0 <= links[|links| - 1].rule < |g.rlhs| && y == g.rlhs[links[|links| - 1].rule]
  {
  }

  /** If nothing is suppressed, and the goal does not become itself, a generated parser comes to an end on every
      input, on a stack of any size. */
  lemma ParserHalts(u: Product, read: seq<set<nat>>, follow: seq<set<nat>>, limit: nat, input: seq<int>)
    requires Printed(u) && LooksFor(u, read, follow) && Unambiguous(u) && !GoalRecurs(u.g)
    ensures exists n: nat :: !Run(u.t, limit, Start(input), n).Running?
  {
    hide Printed, LooksFor, Unambiguous, Ready, Run, Chain, GoalRecurs, Opens, Leads, SetupOk;
    PrintedReady(u);
    if Endless(u, limit, input) {
      var x, links := EndlessRound(u, limit, input);
      ChainEnds(u.g, x, links, x);
      var t, w, v, p := ForeseenOccurs(u, read, follow, links[|links| - 1].rule);
      RoundAvoids(u.g, x, links);
      var setup := SetupFor(u, read, follow);
      NoChainRound(setup, t, w, x, v, p, links);
    }
  }

  // The run has ended after n turns, and unless its stack was full on the way, with the right verdict.
  ghost predicate Decided(u: Product, limit: nat, input: seq<int>, n: nat)
    requires |u.value| == u.g.ntokens
  {
    var o := Run(u.t, limit, Start(input), n);
    && !o.Running?
    && (!WasFull(u.t, limit, Start(input), n) ==>
          o == if DerivesCodes(u.g, u.value, u.g.Goal(), Sentence(input)) then Accepted else SyntaxError)
  }

  /** The generator makes deciders: without precedences and counted conflicts, for a goal that does not become itself,
      the parser ends on every input with the right verdict, unless its stack has been full. */
  lemma GeneratedDecides(u: Product, o: Result, limit: nat, input: seq<int>)
    requires EndsWith(u, o) && o.Done? && NoPrecedences(u.p) && o.srTotal + o.rrTotal == 0 && !GoalRecurs(u.g)
    ensures |u.value| == u.g.ntokens && exists n: nat :: Decided(u, limit, input, n)
  {
    hide Printed, LooksFor, Unambiguous, Run, Chain, GoalRecurs, SoundFor, ExactFor, NoPrecedences, ParserFor, Valid, Canonical, ValidGotos, ValidCodes,
         PrecedencesFit, AllShiftReduces, AllReduceReduces, WasFull, DerivesCodes;
    var read, follow :| LooksFor(u, read, follow);
    GeneratedSound(u);
    GeneratedExact(u, read, follow);
    ParserHalts(u, read, follow, limit, input);
    var n: nat :| !Run(u.t, limit, Start(input), n).Running?;
    if !WasFull(u.t, limit, Start(input), n) {
      EndsRight(u.g, u.value, u.t, limit, input, n);
    }
    assert Decided(u, limit, input, n);
  }

  /** A goal that becomes itself, as in S : S | 'a', can be the end of this, although no conflict is counted: with the
      goal alone on the stack, and a token left, a parser that reduces there by goal : goal does so for ever. */
  lemma {:induction false} GoalLoops(u: Product, r: int, limit: nat, c: Config, n: nat)
    requires Printed(u) && 3 <= r < |u.g.rlhs| && u.g.rlhs[r] == u.g.Goal() && r + 1 < |u.g.rrhs| && RuleLength(u.g, r) == 1
    requires 0 <= u.t.final < |u.parser.marks| && SoleRule(u.parser.marks[u.t.final], r)
    requires c.stack == [0, u.t.final] && c.yychar > 0
    ensures Run(u.t, limit, c, n) == Running(c)
  {
    hide Printed, SoleRule, Step;
    PrintedTables(u);
    TableSizes(u, u.t.final);
    SoleRuleOnce(u.parser.marks[u.t.final], r, u.parser.defred[u.t.final]);
    Overruns(u.t, limit, c, n);
  }

  lemma GoalTurn(t: Tables, limit: nat, c: Config, d: int)
    requires 0 <= t.final < |t.defred| == |t.sindex| == |t.rindex| && t.defred[t.final] == d && 1 <= d < |t.len| == |t.lhs|
    requires t.len[d] == 1 && t.lhs[d] == 0 && c.stack == [0, t.final] && c.yychar > 0
    ensures Step(t, limit, c) == Running(c)
  {
    assert c.stack[..1] == [0] && [0] + [t.final] == [0, t.final];
  }

  // An entry that is alone in its list is in no conflict, not even with the end of the parse in the final state.
  lemma AloneUncounted(x: Action, isFinal: bool)
    ensures ShiftReduces([x], isFinal, 1) == 0 && ReduceReduces([x], isFinal, 1) == 0
  {
    assert GroupStart([x], 0) == 0;
  }

  /** The tables for S : S | 'a', and an input on which their parser does not come to an end. */
  lemma {:induction false} Overrun(limit: nat, n: nat)
    requires limit >= 2
    ensures var t := Tables([-1, 0, 0], [2, 1, 1], [0, 2, 1], [2], [-97, 0, 0], [0, 0, 0], [0], [1], [97], 0, 2);
            Run(t, limit, Start([97, 97]), n).Running?
  {
    var t := Tables([-1, 0, 0], [2, 1, 1], [0, 2, 1], [2], [-97, 0, 0], [0, 0, 0], [0], [1], [97], 0, 2);
    var c0, c1, c2 := Start([97, 97]), Config([0, 1], -1, [97]), Config([0, 2], 97, []);
    assert [97, 97][1..] == [97] && [97][1..] == [] && [0] + [1] == [0, 1] && [0] + [2] == [0, 2] && [0, 1][..1] == [0];
    assert Step(t, limit, c0) == Running(c1) && Step(t, limit, c1) == Running(c2);
    if n >= 2 {
      Overruns(t, limit, c2, n - 2);
    }
  }

  lemma {:induction false} Overruns(t: Tables, limit: nat, c: Config, n: nat)
    requires 0 <= t.final < |t.defred| == |t.sindex| == |t.rindex| && 1 <= t.defred[t.final] < |t.len| == |t.lhs|
    requires t.len[t.defred[t.final]] == 1 && t.lhs[t.defred[t.final]] == 0 && c.stack == [0, t.final] && c.yychar > 0
    ensures Run(t, limit, c, n) == Running(c)
    decreases n
  {
    hide Step;
    GoalTurn(t, limit, c, t.defred[t.final]);
    if n > 0 {
      Overruns(t, limit, c, n - 1);
    }
  }
}
