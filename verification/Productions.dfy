/** Productions, and the languages they derive; symbols that only derive the empty string do not matter. */
module Productions {
  import opened Grammar

  datatype Rule = Rule(lhs: int, rhs: seq<int>)

  /** t is a parse tree over the rules from number `first` on; tokens are the symbols from 1 up to ntokens. */
  ghost predicate ValidIn(rules: seq<Rule>, first: nat, ntokens: nat, t: Tree) {
    match t
    case Leaf(a) => 0 < a < ntokens
    case Node(k, kids) => first <= k < |rules| && MatchesIn(rules, first, ntokens, kids, rules[k].rhs)
  }

  // The trees of f have as roots the symbols rhs.
  ghost predicate MatchesIn(rules: seq<Rule>, first: nat, ntokens: nat, f: Forest, rhs: seq<int>) {
    match f
    case Nil => rhs == []
    case Cons(t, f') =>
      rhs != [] && ValidIn(rules, first, ntokens, t) && RootIn(rules, t) == rhs[0] && MatchesIn(rules, first, ntokens, f', rhs[1..])
  }

  function RootIn(rules: seq<Rule>, t: Tree): int {
    match t
    case Leaf(a) => a
    case Node(k, _) => if 0 <= k < |rules| then rules[k].lhs else -1
  }

  ghost predicate DerivesIn(rules: seq<Rule>, first: nat, ntokens: nat, x: int, w: seq<int>) {
    exists t :: ValidIn(rules, first, ntokens, t) && RootIn(rules, t) == x && Yield(t) == w
  }

  // q without the symbols in f.
  function Without(q: seq<int>, f: set<int>): seq<int> {
    if q == [] then [] else (if q[0] in f then [] else [q[0]]) + Without(q[1..], f)
  }

  lemma {:induction false} WithoutAppend(p: seq<int>, q: seq<int>, f: set<int>)
    ensures Without(p + q, f) == Without(p, f) + Without(q, f)
  {
    if p == [] {
      assert p + q == q;
    } else {
      assert (p + q)[1..] == p[1..] + q;
      WithoutAppend(p[1..], q, f);
    }
  }

  ghost predicate HasRule(rules: seq<Rule>, first: nat, r: Rule) {
    exists k :: first <= k < |rules| && rules[k] == r
  }

  // Some rule is r, but for symbols of f in its right-hand side.
  ghost predicate HasRuleBut(rules: seq<Rule>, first: nat, f: set<int>, r: Rule) {
    exists k :: first <= k < |rules| && rules[k].lhs == r.lhs && Without(rules[k].rhs, f) == r.rhs
  }

  /** p is q with symbols f, which have only empty rules, put in here and there. */
  ghost predicate Expands(p: seq<Rule>, first: nat, q: seq<Rule>, f: set<int>, ntokens: nat) {
    && (forall x :: x in f ==> x >= ntokens && HasRule(p, first, Rule(x, [])))
    && (forall k :: first <= k < |p| && p[k].lhs in f ==> p[k].rhs == [])
    && (forall k :: first <= k < |p| && p[k].lhs !in f ==> HasRule(q, 0, Rule(p[k].lhs, Without(p[k].rhs, f))))
    && (forall k :: 0 <= k < |q| ==> q[k].lhs !in f && HasRuleBut(p, first, f, q[k]))
  }

  /** A tree over p, stripped of the subtrees for f, is a tree over q for the same string. */
  lemma {:induction false} StripTree(p: seq<Rule>, first: nat, q: seq<Rule>, f: set<int>, ntokens: nat, t: Tree) returns (t': Tree)
    requires Expands(p, first, q, f, ntokens) && ValidIn(p, first, ntokens, t) && RootIn(p, t) !in f
    ensures ValidIn(q, 0, ntokens, t') && RootIn(q, t') == RootIn(p, t) && Yield(t') == Yield(t)
  {
    match t
    case Leaf(_) => t' := t;
    case Node(k, kids) =>
      var kids' := StripForest(p, first, q, f, ntokens, kids, p[k].rhs);
      assert HasRule(q, 0, Rule(p[k].lhs, Without(p[k].rhs, f)));
      var k' :| 0 <= k' < |q| && q[k'] == Rule(p[k].lhs, Without(p[k].rhs, f));
      t' := Node(k', kids');
  }

  lemma {:induction false} StripForest(p: seq<Rule>, first: nat, q: seq<Rule>, f: set<int>, ntokens: nat, ts: Forest, rhs: seq<int>) returns (ts': Forest)
    requires Expands(p, first, q, f, ntokens) && MatchesIn(p, first, ntokens, ts, rhs)
    ensures MatchesIn(q, 0, ntokens, ts', Without(rhs, f)) && Yields(ts') == Yields(ts)
  {
    match ts
    case Nil => ts' := Nil;
    case Cons(t, rest) =>
      var rest' := StripForest(p, first, q, f, ntokens, rest, rhs[1..]);
      if rhs[0] in f {
        EmptyYield(p, first, q, f, ntokens, t);
        assert Without(rhs, f) == Without(rhs[1..], f);
        ts' := rest';
      } else {
        var t' := StripTree(p, first, q, f, ntokens, t);
        ts' := Cons(t', rest');
        assert Without(rhs, f) == [rhs[0]] + Without(rhs[1..], f);
        assert Without(rhs, f)[1..] == Without(rhs[1..], f);
      }
  }

  lemma EmptyYield(p: seq<Rule>, first: nat, q: seq<Rule>, f: set<int>, ntokens: nat, t: Tree)
    requires Expands(p, first, q, f, ntokens) && ValidIn(p, first, ntokens, t) && RootIn(p, t) in f
    ensures Yield(t) == []
  {
    if t.Node? {
      assert p[t.rule].rhs == [] && t.kids == Nil;
    }
  }

  /** A tree over q, with empty subtrees for f put in where p has them, is a tree over p for the same string. */
  lemma {:induction false} FillTree(p: seq<Rule>, first: nat, q: seq<Rule>, f: set<int>, ntokens: nat, t: Tree) returns (t': Tree)
    requires Expands(p, first, q, f, ntokens) && ValidIn(q, 0, ntokens, t)
    ensures ValidIn(p, first, ntokens, t') && RootIn(p, t') == RootIn(q, t) && Yield(t') == Yield(t)
    decreases t, 0
  {
    match t
    case Leaf(_) => t' := t;
    case Node(k, kids) =>
      assert HasRuleBut(p, first, f, q[k]);
      var k' :| first <= k' < |p| && p[k'].lhs == q[k].lhs && Without(p[k'].rhs, f) == q[k].rhs;
      var kids' := FillForest(p, first, q, f, ntokens, kids, p[k'].rhs);
      t' := Node(k', kids');
  }

  lemma {:induction false} FillForest(p: seq<Rule>, first: nat, q: seq<Rule>, f: set<int>, ntokens: nat, ts: Forest, rhs: seq<int>) returns (ts': Forest)
    requires Expands(p, first, q, f, ntokens) && MatchesIn(q, 0, ntokens, ts, Without(rhs, f))
    ensures MatchesIn(p, first, ntokens, ts', rhs) && Yields(ts') == Yields(ts)
    decreases ts, |rhs|
  {
    if rhs == [] {
      ts' := Nil;
    } else if rhs[0] in f {
      assert HasRule(p, first, Rule(rhs[0], []));
      var k :| first <= k < |p| && p[k] == Rule(rhs[0], []);
      assert Without(rhs, f) == Without(rhs[1..], f);
      var rest' := FillForest(p, first, q, f, ntokens, ts, rhs[1..]);
      assert Yield(Node(k, Nil)) == [];
      assert Yields(Cons(Node(k, Nil), rest')) == Yields(rest');
      ts' := Cons(Node(k, Nil), rest');
    } else {
      assert Without(rhs, f)[1..] == Without(rhs[1..], f);
      var t' := FillTree(p, first, q, f, ntokens, ts.hd);
      var rest' := FillForest(p, first, q, f, ntokens, ts.tl, rhs[1..]);
      ts' := Cons(t', rest');
    }
  }

  /** Putting in symbols that only derive the empty string changes no language. */
  lemma ExpansionDerives(p: seq<Rule>, first: nat, q: seq<Rule>, f: set<int>, ntokens: nat, x: int, w: seq<int>)
    requires Expands(p, first, q, f, ntokens) && x !in f
    ensures DerivesIn(p, first, ntokens, x, w) <==> DerivesIn(q, 0, ntokens, x, w)
  {
    if DerivesIn(p, first, ntokens, x, w) {
      var t :| ValidIn(p, first, ntokens, t) && RootIn(p, t) == x && Yield(t) == w;
      var t' := StripTree(p, first, q, f, ntokens, t);
    }
    if DerivesIn(q, 0, ntokens, x, w) {
      var t :| ValidIn(q, 0, ntokens, t) && RootIn(q, t) == x && Yield(t) == w;
      var t' := FillTree(p, first, q, f, ntokens, t);
    }
  }

  /** rules are the productions that the packed arrays of g hold. */
  ghost predicate Decodes(g: Grammar, rules: seq<Rule>) {
    && |rules| == |g.rlhs| && |g.rrhs| == |g.rlhs| + 1
    && forall r :: 3 <= r < |rules| ==> RuleIs(g, r, rules[r])
  }

  ghost predicate RuleIs(g: Grammar, r: int, rule: Rule)
    requires 0 <= r < |g.rlhs| && |g.rrhs| == |g.rlhs| + 1
  {
    && g.rlhs[r] == rule.lhs && 0 <= g.rrhs[r] <= g.rrhs[r + 1] <= |g.ritem|
    && g.ritem[g.rrhs[r]..g.rrhs[r + 1]] == rule.rhs + [-r] && forall k :: 0 <= k < |rule.rhs| ==> rule.rhs[k] >= 0
  }

  lemma {:induction false} PackedTree(g: Grammar, rules: seq<Rule>, t: Tree)
    requires Decodes(g, rules)
    ensures ValidTree(g, t) <==> ValidIn(rules, 3, g.ntokens, t)
    ensures ValidTree(g, t) ==> Root(g, t) == RootIn(rules, t)
  {
    match t
    case Leaf(_) =>
    case Node(r, kids) =>
      if 3 <= r < |rules| {
        assert RuleIs(g, r, rules[r]);
        assert g.ritem[g.rrhs[r]..g.rrhs[r + 1]] == rules[r].rhs[0..] + [-r];
        PackedForest(g, rules, kids, r, 0);
      }
  }

  lemma {:induction false} PackedForest(g: Grammar, rules: seq<Rule>, f: Forest, r: int, n: nat)
    requires Decodes(g, rules) && 3 <= r < |rules| && n <= |rules[r].rhs|
    ensures Matches(g, f, g.rrhs[r] + n) <==> MatchesIn(rules, 3, g.ntokens, f, rules[r].rhs[n..])
  {
    assert RuleIs(g, r, rules[r]);
    var i, rhs := g.rrhs[r] + n, rules[r].rhs;
    assert g.ritem[i] == g.ritem[g.rrhs[r]..g.rrhs[r + 1]][n] == (rhs + [-r])[n];
    match f
    case Nil =>
    case Cons(t, f') =>
      PackedTree(g, rules, t);
      if n < |rhs| {
        assert rhs[n..][1..] == rhs[n + 1..];
        PackedForest(g, rules, f', r, n + 1);
      }
  }

  /** The packed grammar derives what its productions do. */
  lemma PackedDerives(g: Grammar, rules: seq<Rule>, x: int, w: seq<int>)
    requires Decodes(g, rules)
    ensures Derives(g, x, w) <==> DerivesIn(rules, 3, g.ntokens, x, w)
  {
    if Derives(g, x, w) {
      var t :| ValidTree(g, t) && Root(g, t) == x && Yield(t) == w;
      PackedTree(g, rules, t);
    }
    if DerivesIn(rules, 3, g.ntokens, x, w) {
      var t :| ValidIn(rules, 3, g.ntokens, t) && RootIn(rules, t) == x && Yield(t) == w;
      PackedTree(g, rules, t);
    }
  }
}
