/** The packed grammar that reader.c leaves behind (pack_symbols, pack_grammar), and what it derives. */
module Grammar {
  /** Symbols below ntokens are tokens, token 0 is $end; ntokens is $accept and ntokens + 1 the goal.
      An item is an index into ritem: the dot stands before ritem[item], and a negative entry -r closes
      rule r. Rules 0 and 1 are placeholders and rule 2 is `$accept : goal $end`. */
  datatype Grammar = Grammar(ntokens: nat, nsyms: nat, ritem: seq<int>, rlhs: seq<int>, rrhs: seq<int>)
  {
    function Nrules(): nat { |rlhs| }
    function Nitems(): nat { |ritem| }
    function Nvars(): int { nsyms - ntokens }
    function Goal(): int { ntokens + 1 }

    predicate IsToken(s: int) { s < ntokens }
    predicate IsVar(s: int) { s >= ntokens }
  }

  ghost predicate Valid(g: Grammar) {
    && 2 <= g.ntokens && g.ntokens + 2 <= g.nsyms
    && 3 <= |g.rlhs| && |g.rrhs| == |g.rlhs| + 1
    && 4 <= |g.ritem| && g.ritem[0] == -1 && g.ritem[1] == g.Goal() && g.ritem[2] == 0 && g.ritem[3] == -2
    && g.rrhs[0] == 0 && g.rrhs[1] == 0 && g.rrhs[2] == 1 && g.rrhs[3] == 4 && g.rrhs[|g.rlhs|] == |g.ritem|
    && g.rlhs[0] == 0 && g.rlhs[1] == 0 && g.rlhs[2] == g.ntokens
    && (forall r :: 2 <= r < |g.rlhs| ==> ValidRule(g, r))
    && (forall r :: 3 <= r < |g.rlhs| ==> g.Goal() <= g.rlhs[r] < g.nsyms)
    && (forall i :: 3 <= i < |g.ritem| ==> g.ritem[i] != 0 && g.ritem[i] != g.ntokens && g.ritem[i] < g.nsyms)
  }

  // The right-hand side of rule r lies in ritem from rrhs[r], closed by -r.
  ghost predicate ValidRule(g: Grammar, r: int)
    requires 0 <= r < |g.rlhs| && |g.rrhs| == |g.rlhs| + 1
  {
    && 1 <= g.rrhs[r] < g.rrhs[r + 1] <= |g.ritem|
    && g.ritem[g.rrhs[r + 1] - 1] == -r
    && forall i :: g.rrhs[r] <= i < g.rrhs[r + 1] - 1 ==> g.ritem[i] >= 0
  }

  function RuleLength(g: Grammar, r: int): int
    requires 0 <= r && r + 1 < |g.rrhs|
  {
    g.rrhs[r + 1] - g.rrhs[r] - 1
  }

  // Item i belongs to rule r: its dot is somewhere in the right-hand side of r, or at its end.
  ghost predicate ItemOf(g: Grammar, i: int, r: int) {
    2 <= r < |g.rlhs| && r + 1 < |g.rrhs| && g.rrhs[r] <= i < g.rrhs[r + 1]
  }

  lemma {:induction false} RuleOfItem(g: Grammar, i: int, n: int) returns (r: int)
    requires Valid(g) && 2 <= n <= |g.rlhs| && 1 <= i < g.rrhs[n]
    ensures ItemOf(g, i, r) && r < n
  {
    assert ValidRule(g, 2);
    if n == 2 {
      r := 2;
    } else {
      assert ValidRule(g, n - 1);
      if g.rrhs[n - 1] <= i {
        r := n - 1;
      } else {
        r := RuleOfItem(g, i, n - 1);
      }
    }
  }

  lemma {:induction false} RuleStartsIncrease(g: Grammar, q: int, r: int)
    requires Valid(g) && 2 <= q < r <= |g.rlhs|
    ensures g.rrhs[q] < g.rrhs[r]
  {
    assert ValidRule(g, r - 1);
    if q < r - 1 {
      RuleStartsIncrease(g, q, r - 1);
    }
  }

  // An item that is not complete has a next item of the same rule; a complete one names its rule.
  lemma ItemStep(g: Grammar, i: int, r: int)
    requires Valid(g) && ItemOf(g, i, r)
    ensures 1 <= i < |g.ritem|
    ensures g.ritem[i] >= 0 ==> ItemOf(g, i + 1, r)
    ensures g.ritem[i] < 0 ==> g.ritem[i] == -r && i + 1 == g.rrhs[r + 1]
  {
    assert ValidRule(g, r);
  }

  /** Parse trees, their roots and their yields. */
  datatype Tree = Leaf(tok: int) | Node(rule: int, kids: Forest)
  datatype Forest = Nil | Cons(hd: Tree, tl: Forest)

  function Root(g: Grammar, t: Tree): int {
    match t
    case Leaf(a) => a
    case Node(r, _) => if 0 <= r < |g.rlhs| then g.rlhs[r] else -1
  }

  ghost predicate ValidTree(g: Grammar, t: Tree) {
    match t
    case Leaf(a) => 0 < a < g.ntokens
    case Node(r, kids) => 3 <= r < |g.rlhs| && r < |g.rrhs| && Matches(g, kids, g.rrhs[r])
  }

  // The trees of f have as roots the symbols from item i to the end of its rule.
  ghost predicate Matches(g: Grammar, f: Forest, i: int) {
    0 <= i < |g.ritem| &&
    match f
    case Nil => g.ritem[i] < 0
    case Cons(t, f') => g.ritem[i] >= 0 && ValidTree(g, t) && Root(g, t) == g.ritem[i] && Matches(g, f', i + 1)
  }

  function Yield(t: Tree): seq<int> {
    match t
    case Leaf(a) => [a]
    case Node(_, kids) => Yields(kids)
  }

  function Yields(f: Forest): seq<int> {
    match f
    case Nil => []
    case Cons(t, f') => Yield(t) + Yields(f')
  }

  // Symbol x derives the token string w.
  ghost predicate Derives(g: Grammar, x: int, w: seq<int>) {
    exists t :: ValidTree(g, t) && Root(g, t) == x && Yield(t) == w
  }

  ghost predicate Nullable(g: Grammar, x: int) {
    Derives(g, x, [])
  }

  lemma {:induction false} YieldTokens(g: Grammar, t: Tree)
    requires ValidTree(g, t)
    ensures forall k :: 0 <= k < |Yield(t)| ==> 0 < Yield(t)[k] < g.ntokens
  {
    if t.Node? {
      YieldsTokens(g, t.kids, g.rrhs[t.rule]);
    }
  }

  lemma {:induction false} YieldsTokens(g: Grammar, f: Forest, i: int)
    requires Matches(g, f, i)
    ensures forall k :: 0 <= k < |Yields(f)| ==> 0 < Yields(f)[k] < g.ntokens
  {
    if f.Cons? {
      YieldTokens(g, f.hd);
      YieldsTokens(g, f.tl, i + 1);
    }
  }

  /** A tree whose leaves may be variables as well: its yield is a sentential form of its root. */
  ghost predicate OpenTree(g: Grammar, t: Tree) {
    match t
    case Leaf(x) => 0 < x < g.nsyms
    case Node(r, kids) => 3 <= r < |g.rlhs| && r < |g.rrhs| && OpenMatches(g, kids, g.rrhs[r])
  }

  ghost predicate OpenMatches(g: Grammar, f: Forest, i: int) {
    0 <= i < |g.ritem| &&
    match f
    case Nil => g.ritem[i] < 0
    case Cons(t, f') => g.ritem[i] >= 0 && OpenTree(g, t) && Root(g, t) == g.ritem[i] && OpenMatches(g, f', i + 1)
  }

  lemma {:induction false} ValidIsOpen(g: Grammar, t: Tree)
    requires g.ntokens <= g.nsyms && ValidTree(g, t)
    ensures OpenTree(g, t)
  {
    if t.Node? {
      MatchesOpen(g, t.kids, g.rrhs[t.rule]);
    }
  }

  lemma {:induction false} MatchesOpen(g: Grammar, f: Forest, i: int)
    requires g.ntokens <= g.nsyms && Matches(g, f, i)
    ensures OpenMatches(g, f, i)
  {
    if f.Cons? {
      ValidIsOpen(g, f.hd);
      MatchesOpen(g, f.tl, i + 1);
    }
  }

  // An open tree without leaves is a parse tree.
  lemma {:induction false} EmptyIsValid(g: Grammar, t: Tree)
    requires OpenTree(g, t) && Yield(t) == []
    ensures ValidTree(g, t)
  {
    EmptyMatches(g, t.kids, g.rrhs[t.rule]);
  }

  lemma {:induction false} EmptyMatches(g: Grammar, f: Forest, i: int)
    requires OpenMatches(g, f, i) && Yields(f) == []
    ensures Matches(g, f, i)
  {
    if f.Cons? {
      EmptyIsValid(g, f.hd);
      EmptyMatches(g, f.tl, i + 1);
    }
  }
}
