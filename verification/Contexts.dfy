/** What the look-ahead sets mean: the tokens that come after a left-hand side in sentential forms of the goal
    (byacc-1.9/lalr.c). */
module Contexts {
  import opened Grammar
  import opened Closures
  import opened Automata
  import opened Relations
  import opened Gotos
  import opened Digraph
  import opened Completeness
  import opened Lookaheads
  import opened Seqs

  /** The symbols of w lead from state p to state s. */
  ghost predicate Leads(a: Automaton, p: int, w: seq<int>, s: int) {
    if w == [] then p == s else
    var w', x := w[..|w| - 1], w[|w| - 1];
    exists u :: Leads(a, p, w', u) && Trans(a, u, x, s)
  }

  /** An open tree with the yield u + [x] + v, where x is a leaf and nothing to the left of it is expanded. */
  ghost predicate Opens(g: Grammar, t: Tree, u: seq<int>, x: int, v: seq<int>)
    decreases t, 2
  {
    match t
    case Leaf(y) => u == [] && v == [] && x == y && 0 < x < g.nsyms
    case Node(r, kids) => 3 <= r < |g.rlhs| && r < |g.rrhs| && OpensIn(g, kids, g.rrhs[r], u, x, v)
  }

  // The same for the trees of a forest, which have as roots the symbols from item i to the end of its rule.
  ghost predicate OpensIn(g: Grammar, f: Forest, i: int, u: seq<int>, x: int, v: seq<int>)
    decreases f, 2
  {
    f.Cons? && 0 <= i < |g.ritem| && g.ritem[i] >= 0 && Root(g, f.hd) == g.ritem[i] && (OpensLater(g, f, i, u, x, v) || OpensHere(g, f, i, u, x, v))
  }

  // The first tree is a leaf, to the left of x.
  ghost predicate OpensLater(g: Grammar, f: Forest, i: int, u: seq<int>, x: int, v: seq<int>)
    requires f.Cons?
    decreases f, 1
  {
    f.hd.Leaf? && 0 < f.hd.tok < g.nsyms && u != [] && u[0] == f.hd.tok && OpensIn(g, f.tl, i + 1, u[1..], x, v)
  }

  // x is in the first tree.
  ghost predicate OpensHere(g: Grammar, f: Forest, i: int, u: seq<int>, x: int, v: seq<int>)
    requires f.Cons?
    decreases f, 1
  {
    var n := |v| - |Yields(f.tl)|;
    n >= 0 && v[n..] == Yields(f.tl) && OpenMatches(g, f.tl, i + 1) && Opens(g, f.hd, u, x, v[..n])
  }

  /** u x v is a sentential form of the goal, from a tree in which nothing to the left of x is expanded. */
  ghost predicate Context(g: Grammar, u: seq<int>, x: int, v: seq<int>) {
    exists t :: Root(g, t) == g.Goal() && Opens(g, t, u, x, v)
  }

  // The symbols from item i to item j.
  function Part(g: Grammar, i: int, j: int): seq<int> {
    if 0 <= i <= j <= |g.ritem| then g.ritem[i..j] else []
  }

  function Rhs(g: Grammar, r: int): seq<int>
    requires 0 <= r && r + 1 < |g.rrhs| && 0 <= g.rrhs[r] < g.rrhs[r + 1] <= |g.ritem|
  {
    g.ritem[g.rrhs[r]..g.rrhs[r + 1] - 1]
  }

  /** Before token k, which is 0 for the end, state q may reduce by rule r: some u leads from state 0 to a state
      from which the right-hand side of r leads to q, and in some sentential form of the goal the left-hand side
      of r comes after u and before k, with nothing expanded to the left of it. */
  ghost predicate Anticipates(g: Grammar, a: Automaton, q: int, r: int, k: int)
    requires Valid(g)
  {
    exists p, u, v :: AnticipatesBy(g, a, q, r, k, p, u, v)
  }

  ghost predicate AnticipatesBy(g: Grammar, a: Automaton, q: int, r: int, k: int, p: int, u: seq<int>, v: seq<int>)
    requires Valid(g)
  {
    && 3 <= r < |g.rlhs| && ValidRule(g, r) && Leads(a, 0, u, p) && Leads(a, p, Rhs(g, r), q)
    && Context(g, u, g.rlhs[r], v) && StartsWithToken(g, v) && k == First(v)
  }

  // ---- trees

  lemma {:induction false} OpensYield(g: Grammar, t: Tree, u: seq<int>, x: int, v: seq<int>)
    requires Opens(g, t, u, x, v)
    ensures OpenTree(g, t) && Yield(t) == u + [x] + v
    decreases t
  {
    if t.Node? {
      OpensYields(g, t.kids, g.rrhs[t.rule], u, x, v);
    }
  }

  lemma {:induction false} OpensYields(g: Grammar, f: Forest, i: int, u: seq<int>, x: int, v: seq<int>)
    requires OpensIn(g, f, i, u, x, v)
    ensures OpenMatches(g, f, i) && Yields(f) == u + [x] + v
    decreases f
  {
    if OpensLater(g, f, i, u, x, v) {
      OpensYields(g, f.tl, i + 1, u[1..], x, v);
      assert u == [u[0]] + u[1..];
    } else {
      var n := |v| - |Yields(f.tl)|;
      OpensYield(g, f.hd, u, x, v[..n]);
      assert v == v[..n] + v[n..];
    }
  }

  // The last symbol before x is such a leaf, too.
  lemma {:induction false} OpensBefore(g: Grammar, t: Tree, u: seq<int>, y: int, x: int, v: seq<int>)
    requires Opens(g, t, u + [y], x, v)
    ensures Opens(g, t, u, y, [x] + v)
    decreases t
  {
    OpensBeforeIn(g, t.kids, g.rrhs[t.rule], u, y, x, v);
  }

  lemma {:induction false} OpensBeforeIn(g: Grammar, f: Forest, i: int, u: seq<int>, y: int, x: int, v: seq<int>)
    requires OpensIn(g, f, i, u + [y], x, v)
    ensures OpensIn(g, f, i, u, y, [x] + v)
    decreases f
  {
    if OpensLater(g, f, i, u + [y], x, v) {
      if u == [] {
        assert (u + [y])[1..] == [];
        OpensYields(g, f.tl, i + 1, [], x, v);
        assert Yields(f.tl) == [x] + v;
        assert ([x] + v)[..0] == [] && ([x] + v)[0..] == [x] + v;
        assert OpensHere(g, f, i, [], y, [x] + v);
      } else {
        assert (u + [y])[1..] == u[1..] + [y];
        OpensBeforeIn(g, f.tl, i + 1, u[1..], y, x, v);
        assert OpensLater(g, f, i, u, y, [x] + v);
      }
    } else {
      var n := |v| - |Yields(f.tl)|;
      OpensBefore(g, f.hd, u, y, x, v[..n]);
      assert ([x] + v)[n + 1..] == v[n..] && ([x] + v)[..n + 1] == [x] + v[..n];
      assert OpensHere(g, f, i, u, y, [x] + v);
    }
  }

  // An open tree whose yield starts with a symbol that derives the empty string can do without it.
  lemma {:induction false} EraseFirst(g: Grammar, t: Tree, y: int, w: seq<int>) returns (t': Tree)
    requires g.ntokens <= g.nsyms && OpenTree(g, t) && Yield(t) == [y] + w && Nullable(g, y)
    ensures OpenTree(g, t') && Root(g, t') == Root(g, t) && Yield(t') == w
    decreases t
  {
    match t
    case Leaf(z) =>
      assert [z][0] == ([y] + w)[0] && |[z]| == |[y] + w|;
      var e :| ValidTree(g, e) && Root(g, e) == y && Yield(e) == [];
      ValidIsOpen(g, e);
      t' := e;
    case Node(r, kids) =>
      var kids' := EraseFirstIn(g, kids, g.rrhs[r], y, w);
      t' := Node(r, kids');
  }

  lemma {:induction false} EraseFirstIn(g: Grammar, f: Forest, i: int, y: int, w: seq<int>) returns (f': Forest)
    requires g.ntokens <= g.nsyms && OpenMatches(g, f, i) && Yields(f) == [y] + w && Nullable(g, y)
    ensures OpenMatches(g, f', i) && Yields(f') == w
    decreases f
  {
    if Yield(f.hd) == [] {
      var rest := EraseFirstIn(g, f.tl, i + 1, y, w);
      f' := Cons(f.hd, rest);
    } else {
      var n := |Yield(f.hd)|;
      assert Yield(f.hd) == ([y] + w)[..n] == [y] + w[..n - 1] && Yields(f.tl) == ([y] + w)[n..] == w[n - 1..];
      var t' := EraseFirst(g, f.hd, y, w[..n - 1]);
      f' := Cons(t', f.tl);
      assert w == w[..n - 1] + w[n - 1..];
    }
  }

  // So can one that opens at a leaf before such a symbol.
  lemma {:induction false} EraseNext(g: Grammar, t: Tree, u: seq<int>, x: int, y: int, v: seq<int>) returns (t': Tree)
    requires g.ntokens <= g.nsyms && Opens(g, t, u, x, [y] + v) && Nullable(g, y)
    ensures Opens(g, t', u, x, v) && Root(g, t') == Root(g, t)
    decreases t
  {
    var kids' := EraseNextIn(g, t.kids, g.rrhs[t.rule], u, x, y, v);
    t' := Node(t.rule, kids');
  }

  lemma {:induction false} EraseNextIn(g: Grammar, f: Forest, i: int, u: seq<int>, x: int, y: int, v: seq<int>) returns (f': Forest)
    requires g.ntokens <= g.nsyms && OpensIn(g, f, i, u, x, [y] + v) && Nullable(g, y)
    ensures OpensIn(g, f', i, u, x, v)
    decreases f
  {
    if OpensLater(g, f, i, u, x, [y] + v) {
      var rest := EraseNextIn(g, f.tl, i + 1, u[1..], x, y, v);
      f' := Cons(f.hd, rest);
      assert OpensLater(g, f', i, u, x, v);
    } else {
      var n := |[y] + v| - |Yields(f.tl)|;
      if n == 0 {
        assert ([y] + v)[0..] == [y] + v && ([y] + v)[..0] == [];
        var rest := EraseFirstIn(g, f.tl, i + 1, y, v);
        f' := Cons(f.hd, rest);
        assert v[..0] == [] && v[0..] == v;
      } else {
        assert ([y] + v)[..n] == [y] + v[..n - 1] && ([y] + v)[n..] == v[n - 1..];
        var t' := EraseNext(g, f.hd, u, x, y, v[..n - 1]);
        f' := Cons(t', f.tl);
      }
      assert OpensHere(g, f', i, u, x, v);
    }
  }

  // The symbols from item i to the end of its rule, as leaves.
  lemma {:induction false} LeavesFrom(g: Grammar, i: int, r: int) returns (f: Forest)
    requires Valid(g) && 3 <= r && ItemOf(g, i, r)
    ensures OpenMatches(g, f, i) && Yields(f) == Part(g, i, g.rrhs[r + 1] - 1)
    decreases |g.ritem| - i
  {
    RuleInside(g, i, r);
    if g.ritem[i] < 0 {
      f := Nil;
    } else {
      ItemStep(g, i, r);
      var f' := LeavesFrom(g, i + 1, r);
      f := Cons(Leaf(g.ritem[i]), f');
      RuleInside(g, i + 1, r);
      assert g.ritem[i..g.rrhs[r + 1] - 1] == [g.ritem[i]] + g.ritem[i + 1..g.rrhs[r + 1] - 1];
    }
  }

  // A rule lies inside ritem, behind the first rule, and has symbols in it.
  lemma {:induction false} RuleInside(g: Grammar, i: int, r: int)
    requires Valid(g) && 3 <= r && ItemOf(g, i, r)
    ensures ValidRule(g, r) && 4 <= g.rrhs[r] <= i < g.rrhs[r + 1] <= |g.ritem| && (g.ritem[i] >= 0 <==> i < g.rrhs[r + 1] - 1)
    ensures g.ritem[i] >= 0 ==> 0 < g.ritem[i] < g.nsyms && g.ritem[i] != g.ntokens
  {
    assert ValidRule(g, r);
    if r > 3 {
      RuleStartsIncrease(g, 3, r);
    }
  }

  // The children of rule r that open at item j: leaves before it, and f behind it.
  lemma {:induction false} KidsOpening(g: Grammar, i: int, j: int, r: int, f: Forest) returns (kids: Forest)
    requires Valid(g) && 3 <= r && ItemOf(g, i, r) && ItemOf(g, j, r) && i <= j && 0 <= j < |g.ritem| && g.ritem[j] > 0 && OpenMatches(g, f, j + 1)
    ensures 0 <= i && OpensIn(g, kids, i, g.ritem[i..j], g.ritem[j], Yields(f))
    decreases j - i
  {
    RuleInside(g, i, r);
    RuleInside(g, j, r);
    if i == j {
      kids := Cons(Leaf(g.ritem[j]), f);
      var v := Yields(f);
      assert v[0..] == v && v[..0] == [];
      assert OpensHere(g, kids, i, [], g.ritem[j], v);
    } else {
      ItemStep(g, i, r);
      var rest := KidsOpening(g, i + 1, j, r, f);
      kids := Cons(Leaf(g.ritem[i]), rest);
      assert g.ritem[i..j][1..] == g.ritem[i + 1..j];
      assert OpensLater(g, kids, i, g.ritem[i..j], g.ritem[j], Yields(f));
    }
  }

  // The leaf at which a tree opens is expanded by rule r, and the tree then opens at item j of it.
  lemma {:induction false} GrowAt(g: Grammar, t: Tree, u: seq<int>, v: seq<int>, j: int, r: int, f: Forest) returns (t': Tree)
    requires Valid(g) && 3 <= r && ItemOf(g, j, r) && 0 <= j < |g.ritem| && g.ritem[j] > 0 && OpenMatches(g, f, j + 1)
    requires Opens(g, t, u, g.rlhs[r], v)
    ensures Opens(g, t', u + Part(g, g.rrhs[r], j), g.ritem[j], Yields(f) + v) && Root(g, t') == Root(g, t)
    decreases t
  {
    match t
    case Leaf(_) =>
      RuleInside(g, j, r);
      var kids := KidsOpening(g, g.rrhs[r], j, r, f);
      t' := Node(r, kids);
      assert [] + Part(g, g.rrhs[r], j) == g.ritem[g.rrhs[r]..j] && Yields(f) + [] == Yields(f);
    case Node(q, kids) =>
      var kids' := GrowIn(g, kids, g.rrhs[q], u, v, j, r, f);
      t' := Node(q, kids');
  }

  lemma {:induction false} GrowIn(g: Grammar, h: Forest, i: int, u: seq<int>, v: seq<int>, j: int, r: int, f: Forest) returns (h': Forest)
    requires Valid(g) && 3 <= r && ItemOf(g, j, r) && 0 <= j < |g.ritem| && g.ritem[j] > 0 && OpenMatches(g, f, j + 1)
    requires OpensIn(g, h, i, u, g.rlhs[r], v)
    ensures OpensIn(g, h', i, u + Part(g, g.rrhs[r], j), g.ritem[j], Yields(f) + v)
    decreases h
  {
    RuleInside(g, j, r);
    var l, w := Part(g, g.rrhs[r], j), Yields(f);
    if OpensLater(g, h, i, u, g.rlhs[r], v) {
      var rest := GrowIn(g, h.tl, i + 1, u[1..], v, j, r, f);
      h' := Cons(h.hd, rest);
      assert (u + l)[1..] == u[1..] + l;
      assert OpensLater(g, h', i, u + l, g.ritem[j], w + v);
    } else {
      var n := |v| - |Yields(h.tl)|;
      var t' := GrowAt(g, h.hd, u, v[..n], j, r, f);
      h' := Cons(t', h.tl);
      assert (w + v)[..|w| + n] == w + v[..n] && (w + v)[|w| + n..] == v[n..];
      assert OpensHere(g, h', i, u + l, g.ritem[j], w + v);
    }
  }

  // ---- contexts

  lemma {:induction false} ContextStart(g: Grammar)
    requires Valid(g)
    ensures Context(g, [], g.Goal(), [])
  {
    assert Opens(g, Leaf(g.Goal()), [], g.Goal(), []);
  }

  lemma {:induction false} ContextBefore(g: Grammar, u: seq<int>, y: int, x: int, v: seq<int>)
    requires Context(g, u + [y], x, v)
    ensures Context(g, u, y, [x] + v)
  {
    var t :| Root(g, t) == g.Goal() && Opens(g, t, u + [y], x, v);
    OpensBefore(g, t, u, y, x, v);
  }

  lemma {:induction false} ContextErase(g: Grammar, u: seq<int>, x: int, y: int, v: seq<int>)
    requires g.ntokens <= g.nsyms && Context(g, u, x, [y] + v) && Nullable(g, y)
    ensures Context(g, u, x, v)
  {
    var t :| Root(g, t) == g.Goal() && Opens(g, t, u, x, [y] + v);
    var t' := EraseNext(g, t, u, x, y, v);
  }

  lemma {:induction false} ContextGrow(g: Grammar, u: seq<int>, v: seq<int>, j: int, r: int, f: Forest)
    requires Valid(g) && 3 <= r && ItemOf(g, j, r) && 0 <= j < |g.ritem| && g.ritem[j] > 0 && OpenMatches(g, f, j + 1)
    requires Context(g, u, g.rlhs[r], v)
    ensures Context(g, u + Part(g, g.rrhs[r], j), g.ritem[j], Yields(f) + v)
  {
    var t :| Root(g, t) == g.Goal() && Opens(g, t, u, g.rlhs[r], v);
    var t' := GrowAt(g, t, u, v, j, r, f);
  }

  // ---- states

  // Item i stands at the end of u: u ends with what the item has passed, and what comes before leads to its rule.
  ghost predicate Stands(g: Grammar, u: seq<int>, i: int)
    requires Valid(g)
  {
    exists r, w, v :: StandsBy(g, u, i, r, w, v)
  }

  ghost predicate StandsBy(g: Grammar, u: seq<int>, i: int, r: int, w: seq<int>, v: seq<int>)
    requires Valid(g)
  {
    && ItemOf(g, i, r) && 0 <= g.rrhs[r] <= i < |g.ritem| && u == w + Part(g, g.rrhs[r], i)
    && if r == 2 then w == [] else r >= 3 && Context(g, w, g.rlhs[r], v)
  }

  // What an item stands before has a context.
  lemma {:induction false} StandsBefore(g: Grammar, u: seq<int>, i: int) returns (v: seq<int>)
    requires Valid(g) && Stands(g, u, i) && 0 <= i < |g.ritem| && g.ritem[i] > 0
    ensures Context(g, u, g.ritem[i], v)
  {
    var r, w, z :| StandsBy(g, u, i, r, w, z);
    if r == 2 {
      assert ValidRule(g, 2);
      assert g.ritem[1..1] == [];
      ContextStart(g);
      v := [];
    } else {
      ItemStep(g, i, r);
      var f := LeavesFrom(g, i + 1, r);
      ContextGrow(g, w, z, i, r, f);
      v := Yields(f) + z;
    }
  }

  // The closure keeps to items that stand there.
  lemma {:induction false} StandsClosed(g: Grammar, u: seq<int>)
    requires Valid(g)
    ensures ClosedItems(g, iset i | Stands(g, u, i))
  {
    hide Context, Stands;
    forall i, r | Stands(g, u, i) && 0 <= i < |g.ritem| && 2 <= r < |g.rlhs| && g.ritem[i] >= g.ntokens && g.ritem[i] == g.rlhs[r]
      ensures Stands(g, u, g.rrhs[r])
    {
      StartStands(g, u, i, r);
    }
  }

  lemma {:induction false} StartStands(g: Grammar, u: seq<int>, i: int, r: int)
    requires Valid(g) && Stands(g, u, i) && 0 <= i < |g.ritem| && 2 <= r < |g.rlhs| && g.ritem[i] >= g.ntokens && g.ritem[i] == g.rlhs[r]
    ensures Stands(g, u, g.rrhs[r])
  {
    assert ValidRule(g, r);
    NotBeforeAccept(g, i);
    var v := StandsBefore(g, u, i);
    assert g.ritem[g.rrhs[r]..g.rrhs[r]] == [];
    assert StandsBy(g, u, g.rrhs[r], r, u, v);
  }

  /** Every item of a state stands at the end of each string that leads to the state. */
  lemma {:induction false} ItemsStand(g: Grammar, a: Automaton, u: seq<int>, s: int, i: int)
    requires Valid(g) && Canonical(g, a) && Leads(a, 0, u, s) && HasItem(g, a, s, i)
    ensures Stands(g, u, i)
    decreases |u|
  {
    hide Valid, Canonical, Trans, Context;
    forall k | k in a.kernels[s]
      ensures Stands(g, u, k)
    {
      KernelStands(g, a, u, s, k);
    }
    StandsClosed(g, u);
    ClosureIsLeast(g, a.kernels[s]);
  }

  lemma {:induction false} KernelStands(g: Grammar, a: Automaton, u: seq<int>, s: int, k: int)
    requires Valid(g) && Canonical(g, a) && Leads(a, 0, u, s) && 0 <= s < |a.kernels| && k in a.kernels[s]
    ensures Stands(g, u, k)
    decreases |u|, 0
  {
    hide Valid, Canonical, Trans, Context, Stands, HasItem;
    if u == [] {
      FirstStands(g, a, k);
    } else {
      var u', x := u[..|u| - 1], u[|u| - 1];
      var p :| Leads(a, 0, u', p) && Trans(a, p, x, s);
      KernelCame(g, a, p, x, s, k);
      ItemsStand(g, a, u', p, k - 1);
      StandsAfter(g, u', x, k - 1);
      assert u' + [x] == u;
    }
  }

  lemma {:induction false} FirstStands(g: Grammar, a: Automaton, k: int)
    requires Valid(g) && Canonical(g, a) && 0 < |a.kernels| && k in a.kernels[0]
    ensures Stands(g, [], k)
  {
    assert k == 1 && ValidRule(g, 2);
    assert g.ritem[1..1] == [];
    assert StandsBy(g, [], 1, 2, [], []);
  }

  lemma {:induction false} KernelCame(g: Grammar, a: Automaton, p: int, x: int, s: int, k: int)
    requires Valid(g) && Canonical(g, a) && Trans(a, p, x, s) && 0 <= s < |a.kernels| && k in a.kernels[s]
    ensures HasItem(g, a, p, k - 1) && 1 <= k - 1 < |g.ritem| && g.ritem[k - 1] == x > 0
  {
    TransFacts(g, a, p, x, s);
  }

  lemma {:induction false} StandsAfter(g: Grammar, u: seq<int>, x: int, i: int)
    requires Valid(g) && Stands(g, u, i) && 1 <= i < |g.ritem| && g.ritem[i] == x && x > 0
    ensures Stands(g, u + [x], i + 1)
  {
    hide Valid, Context;
    var r, w, v :| StandsBy(g, u, i, r, w, v);
    ItemStep(g, i, r);
    ItemStep(g, i + 1, r);
    var l := Part(g, g.rrhs[r], i);
    assert Part(g, g.rrhs[r], i + 1) == l + [x];
    assert u + [x] == w + (l + [x]);
    assert StandsBy(g, u + [x], i + 1, r, w, v);
  }

  lemma {:induction false} LeadsOn(a: Automaton, p: int, u: seq<int>, s: int, x: int, t: int)
    requires Leads(a, p, u, s) && Trans(a, s, x, t)
    ensures Leads(a, p, u + [x], t)
  {
    var w := u + [x];
    assert w[..|w| - 1] == u && w[|w| - 1] == x;
  }

  lemma {:induction false} NothingLeadsBack(g: Grammar, a: Automaton, u: seq<int>)
    requires Valid(g) && Canonical(g, a) && Leads(a, 0, u, 0)
    ensures u == []
  {
    hide Valid, Canonical, Trans;
    if u != [] {
      var u', x := u[..|u| - 1], u[|u| - 1];
      var p :| Leads(a, 0, u', p) && Trans(a, p, x, 0);
      TransFacts(g, a, p, x, 0);
    }
  }

  // Some string leads to each state.
  lemma {:induction false} Reached(g: Grammar, a: Automaton, s: nat) returns (u: seq<int>)
    requires Valid(g) && Canonical(g, a) && s < |a.kernels|
    ensures Leads(a, 0, u, s)
  {
    if s == 0 {
      u := [];
    } else {
      var p, x := ParentOf(g, a, s);
      var u' := Reached(g, a, p);
      LeadsOn(a, 0, u', p, x, s);
      u := u' + [x];
    }
  }

  lemma {:induction false} ParentOf(g: Grammar, a: Automaton, s: nat) returns (p: nat, x: int)
    requires Valid(g) && Canonical(g, a) && 0 < s < |a.kernels|
    ensures p < s && Trans(a, p, x, s)
  {
    hide Valid, Trans;
    assert HasParent(g, a.kernels, s);
    p, x :| 0 <= p < s && IsGoto(g, a.kernels[p], x, a.kernels[s]);
    var i := a.kernels[s][0];
    assert i in a.kernels[s];
    assert Before(g, a.kernels[p], x);
    var t := TransExists(g, a, p, x);
    TransFacts(g, a, p, x, t);
    SortedUnique(a.kernels[s], a.kernels[t]);
  }

  lemma {:induction false} LeadsAlong(g: Grammar, a: Automaton, p: int, i: int, j: int, s: int)
    requires 0 <= i <= j <= |g.ritem|
    ensures PathOver(g, a, p, i, j, s) <==> Leads(a, p, g.ritem[i..j], s)
    decreases j
  {
    hide Trans;
    var w := g.ritem[i..j];
    if i < j {
      var j' := j - 1;
      assert w[..|w| - 1] == g.ritem[i..j'] && w[|w| - 1] == g.ritem[j'];
      if PathOver(g, a, p, i, j, s) {
        var u :| PathOver(g, a, p, i, j', u) && Trans(a, u, g.ritem[j'], s);
        LeadsAlong(g, a, p, i, j', u);
      }
      if Leads(a, p, w, s) {
        var u :| Leads(a, p, w[..|w| - 1], u) && Trans(a, u, w[|w| - 1], s);
        LeadsAlong(g, a, p, i, j', u);
      }
    }
  }

  lemma {:induction false} LeadsTrans(a: Automaton, p: int, u: seq<int>, s: int, w: seq<int>, t: int)
    requires Leads(a, p, u, s) && Leads(a, s, w, t)
    ensures Leads(a, p, u + w, t)
    decreases |w|
  {
    hide Trans;
    if w == [] {
      assert u + w == u;
    } else {
      var w', x := w[..|w| - 1], w[|w| - 1];
      var v :| Leads(a, s, w', v) && Trans(a, v, x, t);
      LeadsTrans(a, p, u, s, w', v);
      LeadsOn(a, p, u + w', v, x, t);
      assert u + w == u + w' + [x];
    }
  }

  // ---- the look-ahead sets hold no more than that

  // After every string that leads to the state of goto i, and its symbol, token k can come.
  ghost predicate ComesAfter(g: Grammar, a: Automaton, m: GotoMap, i: nat, k: nat) {
    i < |m.from| == |m.to| && forall u :: Leads(a, 0, u, m.from[i]) ==> HasNext(g, u, SymbolOf(a, m, i), k)
  }

  ghost predicate HasNext(g: Grammar, u: seq<int>, x: int, k: int) {
    exists v :: Context(g, u, x, v) && StartsWithToken(g, v) && k == First(v)
  }

  lemma {:induction false} Next(g: Grammar, u: seq<int>, x: int, v: seq<int>, k: int)
    requires Context(g, u, x, v) && StartsWithToken(g, v) && k == First(v)
    ensures HasNext(g, u, x, k)
  {
  }

  lemma {:induction false} DirectComes(g: Grammar, a: Automaton, m: GotoMap, i: nat, k: nat)
    requires Valid(g) && Canonical(g, a) && ValidGotos(g, a, m) && DirectlyReads(g, a, m, i, k)
    ensures ComesAfter(g, a, m, i, k)
  {
    hide Valid, Canonical, ValidGotos, Trans, Context, Leads;
    GotoSize(g, a, m, i);
    var x := SymbolOf(a, m, i);
    GotoTrans(g, a, m, i);
    forall u | Leads(a, 0, u, m.from[i])
      ensures HasNext(g, u, x, k)
    {
      if exists s :: Trans(a, m.to[i], k, s) {
        var s :| Trans(a, m.to[i], k, s);
        LeadsOn(a, 0, u, m.from[i], x, m.to[i]);
        var j := ItemBefore(g, a, m.to[i], k, s);
        ItemsStand(g, a, u + [x], m.to[i], j);
        TransFacts(g, a, m.to[i], k, s);
        var v := StandsBefore(g, u + [x], j);
        ContextBefore(g, u, x, k, v);
        Next(g, u, x, [k] + v, k);
      } else {
        GoalGoto(g, a, m);
        NothingLeadsBack(g, a, u);
        ContextStart(g);
        Next(g, [], g.Goal(), [], 0);
      }
    }
  }

  lemma {:induction false} GotoSize(g: Grammar, a: Automaton, m: GotoMap, i: nat)
    requires ValidGotos(g, a, m)
    ensures |m.from| == |m.to|
  {
  }

  lemma {:induction false} GotoTrans(g: Grammar, a: Automaton, m: GotoMap, i: nat)
    requires Valid(g) && Canonical(g, a) && ValidGotos(g, a, m) && i < |m.from| == |m.to|
    ensures Trans(a, m.from[i], SymbolOf(a, m, i), m.to[i]) && g.IsVar(SymbolOf(a, m, i)) && 0 < m.to[i]
  {
    hide Canonical, BucketAt;
    var v := VarOfGoto(g, a, m, i, g.Nvars());
    TransOfGoto(g, a, m, v, i);
    TransFacts(g, a, m.from[i], v + g.ntokens, m.to[i]);
  }

  // A nullable goto behind goto i passes on what comes after it.
  lemma {:induction false} ComesThrough(g: Grammar, a: Automaton, m: GotoMap, i: nat, j: nat, k: nat)
    requires Valid(g) && Canonical(g, a) && ValidGotos(g, a, m) && ReadsGoto(g, a, m, i, j) && ComesAfter(g, a, m, j, k)
    ensures ComesAfter(g, a, m, i, k)
  {
    hide Valid, Canonical, ValidGotos, Trans, Context, Leads, Nullable;
    GotoSize(g, a, m, i);
    GotoTrans(g, a, m, i);
    GotoTrans(g, a, m, j);
    SizesOf(g);
    var x, y := SymbolOf(a, m, i), SymbolOf(a, m, j);
    forall u | Leads(a, 0, u, m.from[i])
      ensures HasNext(g, u, x, k)
    {
      LeadsOn(a, 0, u, m.from[i], x, m.to[i]);
      assert HasNext(g, u + [x], y, k);
      var v :| Context(g, u + [x], y, v) && StartsWithToken(g, v) && k == First(v);
      ContextBefore(g, u, x, y, v);
      ContextErase(g, u, x, y, v);
      Next(g, u, x, v, k);
    }
  }

  lemma SizesOf(g: Grammar)
    requires Valid(g)
    ensures g.ntokens <= g.nsyms
  {
  }

  // What spreads from one of the vertices that are reached has its property, if this passes along the edges.
  lemma {:induction false} SpreadKeeps(r: Graph, f0: seq<set<nat>>, f: seq<set<nat>>, good: iset<nat>, i: nat, k: nat)
    requires Spread(r, f0, f) && i < |r| && k in f[i]
    requires forall j: nat :: j < |f0| && k in f0[j] ==> j in good
    requires forall j: nat, w: nat :: j < |r| && w in r[j] && w in good ==> j in good
    ensures i in good
  {
    var w: nat :| Reach(r, i, w) && w < |r| && k in f0[w];
    if i !in good {
      var bad := iset j: nat | j !in good;
      ReachLeast(r, bad, i, w);
    }
  }

  lemma {:induction false} ReadComes(g: Grammar, a: Automaton, m: GotoMap, read: seq<set<nat>>, i: nat, k: nat)
    requires Valid(g) && Canonical(g, a) && ValidGotos(g, a, m) && Spread(ReadsGraph(g, a, m), DirectReads(g, a, m), read)
    requires i < |read| && k in read[i]
    ensures ComesAfter(g, a, m, i, k)
  {
    hide Valid, Canonical, ValidGotos, DirectlyReads, ReadsGoto, ComesAfter, Spread;
    var good := iset j: nat | ComesAfter(g, a, m, j, k);
    SpreadSize(ReadsGraph(g, a, m), DirectReads(g, a, m), read);
    forall j: nat | j < |m.to| && k in DirectReads(g, a, m)[j]
      ensures j in good
    {
      DirectComes(g, a, m, j, k);
    }
    forall j: nat, w: nat | j < |m.to| && w in ReadsGraph(g, a, m)[j] && w in good
      ensures j in good
    {
      ComesThrough(g, a, m, j, w, k);
    }
    SpreadKeeps(ReadsGraph(g, a, m), DirectReads(g, a, m), read, good, i, k);
  }

  lemma {:induction false} SpreadSize(r: Graph, f0: seq<set<nat>>, f: seq<set<nat>>)
    requires Spread(r, f0, f)
    ensures |f0| == |f| == |r|
  {
  }

  // Token k can come after some string that leads to the state of goto i, and its symbol.
  ghost predicate ComesSomewhere(g: Grammar, a: Automaton, m: GotoMap, i: nat, k: nat) {
    i < |m.from| == |m.to| && exists u :: Leads(a, 0, u, m.from[i]) && HasNext(g, u, SymbolOf(a, m, i), k)
  }

  lemma {:induction false} ReadSomewhere(g: Grammar, a: Automaton, m: GotoMap, i: nat, k: nat)
    requires Valid(g) && Canonical(g, a) && ValidGotos(g, a, m) && ComesAfter(g, a, m, i, k)
    ensures ComesSomewhere(g, a, m, i, k)
  {
    hide Valid, Canonical, ValidGotos, HasNext, Trans;
    GotoTrans(g, a, m, i);
    TransFacts(g, a, m.from[i], SymbolOf(a, m, i), m.to[i]);
    var u := Reached(g, a, m.from[i]);
  }

  // A symbol at the end of a rule but for nullable ones is followed by what follows the left-hand side.
  lemma {:induction false} ComesBehind(g: Grammar, a: Automaton, m: GotoMap, j: nat, i: nat, k: nat)
    requires Valid(g) && Canonical(g, a) && ValidGotos(g, a, m) && Includes(g, a, m, j, i) && ComesSomewhere(g, a, m, i, k)
    ensures ComesSomewhere(g, a, m, j, k)
  {
    hide Valid, Canonical, ValidGotos, HasNext, Trans, RestNullable, PathOver, Leads, SymbolOf;
    var r: nat, pos: int :| IncludesAt(g, a, m, j, i, r, pos);
    GotoSize(g, a, m, i);
    var u :| Leads(a, 0, u, m.from[i]) && HasNext(g, u, SymbolOf(a, m, i), k);
    RuleValid(g, r);
    LeadsAlong(g, a, m.from[i], g.rrhs[r], pos, m.from[j]);
    var l := g.ritem[g.rrhs[r]..pos];
    LeadsTrans(a, 0, u, m.from[i], l, m.from[j]);
    NextBehind(g, u, r, pos, k);
    assert Part(g, g.rrhs[r], pos) == l;
  }

  lemma {:induction false} NextBehind(g: Grammar, u: seq<int>, r: int, j: int, k: int)
    requires Valid(g) && 3 <= r && ItemOf(g, j, r) && 0 <= j < |g.ritem| && g.IsVar(g.ritem[j]) && RestNullable(g, j + 1)
    requires HasNext(g, u, g.rlhs[r], k)
    ensures HasNext(g, u + Part(g, g.rrhs[r], j), g.ritem[j], k)
  {
    hide Context, RestNullable;
    var v :| Context(g, u, g.rlhs[r], v) && StartsWithToken(g, v) && k == First(v);
    ItemStep(g, j, r);
    var f := EmptyForestFrom(g, j + 1);
    ContextGrow(g, u, v, j, r, f);
    assert Yields(f) + v == v;
  }

  lemma {:induction false} EmptyForestFrom(g: Grammar, i: int) returns (f: Forest)
    requires g.ntokens <= g.nsyms && RestNullable(g, i)
    ensures OpenMatches(g, f, i) && Yields(f) == []
    decreases |g.ritem| - i
  {
    if g.ritem[i] < 0 {
      f := Nil;
    } else {
      var t :| ValidTree(g, t) && Root(g, t) == g.ritem[i] && Yield(t) == [];
      ValidIsOpen(g, t);
      var f' := EmptyForestFrom(g, i + 1);
      f := Cons(t, f');
    }
  }

  lemma {:induction false} FollowComes(g: Grammar, a: Automaton, m: GotoMap, read: seq<set<nat>>, follow: seq<set<nat>>, i: nat, k: nat)
    requires Valid(g) && Canonical(g, a) && ValidGotos(g, a, m) && ReadAndFollow(g, a, m, read, follow) && i < |follow| && k in follow[i]
    ensures ComesSomewhere(g, a, m, i, k)
  {
    hide Valid, Canonical, ValidGotos, Includes, ComesAfter, ComesSomewhere, Spread;
    var good := iset j: nat | ComesSomewhere(g, a, m, j, k);
    SpreadSize(IncludesGraph(g, a, m), read, follow);
    forall j: nat | j < |read| && k in read[j]
      ensures j in good
    {
      ReadComes(g, a, m, read, j, k);
      ReadSomewhere(g, a, m, j, k);
    }
    forall j: nat, w: nat | j < |m.from| && w in IncludesGraph(g, a, m)[j] && w in good
      ensures j in good
    {
      ComesBehind(g, a, m, j, w, k);
    }
    SpreadKeeps(IncludesGraph(g, a, m), read, follow, good, i, k);
  }

  /** What is in a look-ahead set comes after the left-hand side in some sentential form. */
  lemma {:induction false} LaAnticipates(g: Grammar, a: Automaton, m: GotoMap, read: seq<set<nat>>, follow: seq<set<nat>>, q: int, r: nat, k: nat)
    requires Valid(g) && Canonical(g, a) && ValidGotos(g, a, m) && ReadAndFollow(g, a, m, read, follow) && InLa(g, a, m, follow, q, r, k)
    ensures Anticipates(g, a, q, r, k)
  {
    hide Valid, Canonical, ValidGotos, Context, PathOver, Leads, Spread, SymbolOf;
    var i: nat :| i < |follow| && LooksBack(g, a, m, q, r, i) && k in follow[i];
    FollowComes(g, a, m, read, follow, i, k);
    GotoSize(g, a, m, i);
    var p := m.from[i];
    var u :| Leads(a, 0, u, p) && HasNext(g, u, SymbolOf(a, m, i), k);
    var v :| Context(g, u, g.rlhs[r], v) && StartsWithToken(g, v) && k == First(v);
    RuleValid(g, r);
    LeadsAlong(g, a, p, g.rrhs[r], g.rrhs[r + 1] - 1, q);
    assert AnticipatesBy(g, a, q, r, k, p, u, v);
  }

  lemma {:induction false} RuleValid(g: Grammar, r: int)
    requires Valid(g) && 3 <= r < |g.rlhs|
    ensures r + 1 < |g.rrhs| == |g.rlhs| + 1 && ValidRule(g, r)
  {
  }

  // ---- the look-ahead sets hold no less than that

  lemma {:induction false} LeadsFirst(g: Grammar, a: Automaton, p: int, x: int, s: int, w: seq<int>, t: int)
    requires Valid(g) && Canonical(g, a) && Leads(a, p, [x] + w, t) && Trans(a, p, x, s)
    ensures Leads(a, s, w, t)
    decreases |w|
  {
    hide Valid, Canonical, Trans;
    var all := [x] + w;
    var u :| Leads(a, p, all[..|w|], u) && Trans(a, u, all[|w|], t);
    if w == [] {
      assert all[..0] == [] && all[0] == x;
      TransUnique(g, a, p, x, s, t);
    } else {
      var w' := w[..|w| - 1];
      assert all[..|w|] == [x] + w' && all[|w|] == w[|w| - 1];
      LeadsFirst(g, a, p, x, s, w', u);
      LeadsOn(a, s, w', u, w[|w| - 1], t);
      assert w' + [w[|w| - 1]] == w;
    }
  }

  // What may follow the root of a tree that stands at state s, and what the tree holds behind x, may follow x.
  lemma {:induction false} FollowsInTree(g: Grammar, a: Automaton, read: Looks, follow: Looks, s: int, i: int, t: Tree, u: seq<int>, x: int, v: seq<int>, z: seq<int>, p: int)
    requires Valid(g) && Canonical(g, a) && ReadClosed(g, a, read) && FollowClosed(g, a, read, follow)
    requires HasItem(g, a, s, i) && 1 <= i < |g.ritem| && Root(g, t) == g.ritem[i] && Opens(g, t, u, x, v) && Leads(a, s, u, p)
    requires g.IsVar(g.ritem[i]) && StartsWithToken(g, z) ==> (s, g.ritem[i], First(z)) in follow
    requires g.IsVar(x) && StartsWithToken(g, v + z)
    ensures (p, x, First(v + z)) in follow
    decreases t
  {
    hide Valid, Canonical, ReadClosed, FollowClosed, Trans, HasItem, Leads;
    match t
    case Leaf(_) =>
      assert v + z == z;
      LeadsNowhere(a, s, p);
    case Node(r, kids) =>
      StartsHere(g, a, s, i, r);
      RuleValid(g, r);
      LhsVar(g, r);
      FollowsInForest(g, a, read, follow, s, s, g.rrhs[r], r, kids, u, x, v, z, p);
  }

  lemma {:induction false} LeadsNowhere(a: Automaton, s: int, p: int)
    requires Leads(a, s, [], p)
    ensures s == p
  {
  }

  lemma {:induction false} FollowsInForest(g: Grammar, a: Automaton, read: Looks, follow: Looks, s0: int, s: int, i: int, r: int, f: Forest,
                                           u: seq<int>, x: int, v: seq<int>, z: seq<int>, p: int)
    requires Valid(g) && Canonical(g, a) && ReadClosed(g, a, read) && FollowClosed(g, a, read, follow)
    requires 3 <= r < |g.rlhs| && ItemOf(g, i, r) && HasItem(g, a, s, i) && PathOver(g, a, s0, g.rrhs[r], i, s)
    requires OpensIn(g, f, i, u, x, v) && Leads(a, s, u, p)
    requires StartsWithToken(g, z) ==> (s0, g.rlhs[r], First(z)) in follow
    requires g.IsVar(x) && StartsWithToken(g, v + z)
    ensures (p, x, First(v + z)) in follow
    decreases f
  {
    hide Valid, Canonical, ReadClosed, FollowClosed, Trans, HasItem, Leads, PathOver, ItemOf;
    RuleInside(g, i, r);
    ItemStep(g, i, r);
    var s' := Advanced(g, a, s, i);
    if OpensLater(g, f, i, u, x, v) {
      assert u == [u[0]] + u[1..];
      LeadsFirst(g, a, s, u[0], s', u[1..], p);
      PathMore(g, a, s0, g.rrhs[r], i, s, s');
      FollowsInForest(g, a, read, follow, s0, s', i + 1, r, f.tl, u[1..], x, v, z, p);
    } else {
      var n := |v| - |Yields(f.tl)|;
      var rest := Yields(f.tl);
      assert v + z == v[..n] + (rest + z);
      if g.IsVar(g.ritem[i]) && StartsWithToken(g, rest + z) {
        NextLook(g, a, read, follow, s0, s, i, r, s', f.tl, z);
      }
      FollowsInTree(g, a, read, follow, s, i, f.hd, u, x, v[..n], rest + z, p);
    }
  }

  lemma {:induction false} PathMore(g: Grammar, a: Automaton, p: int, i: int, j: int, s: int, s': int)
    requires PathOver(g, a, p, i, j, s) && 0 <= j < |g.ritem| && Trans(a, s, g.ritem[j], s')
    ensures PathOver(g, a, p, i, j + 1, s')
  {
    assert PathOver(g, a, p, i, j + 1 - 1, s);
  }

  /** What comes after the left-hand side in some sentential form is in the look-ahead set. */
  lemma {:induction false} AnticipatedInLa(g: Grammar, a: Automaton, m: GotoMap, read: seq<set<nat>>, follow: seq<set<nat>>, q: int, r: nat, k: nat)
    requires Valid(g) && Canonical(g, a) && ValidGotos(g, a, m) && ReadAndFollow(g, a, m, read, follow) && Anticipates(g, a, q, r, k)
    ensures InLa(g, a, m, follow, q, r, k)
  {
    hide Valid, Canonical, ValidGotos, ReadAndFollow, ReadClosed, FollowClosed, LaClosed, PathOver, Leads, InLa, Trans, HasItem, Opens, LooksBack, GotoIs;
    var p, u, v :| AnticipatesBy(g, a, q, r, k, p, u, v);
    var l, l' := Looking(g, a, m, read), Looking(g, a, m, follow);
    ReadAlone(g, a, m, read, follow);
    ReadLooksClosed(g, a, m, read);
    FollowLooksClosed(g, a, m, read, follow);
    LaLooksClosed(g, a, m, follow);
    var t :| Root(g, t) == g.Goal() && Opens(g, t, u, g.rlhs[r], v);
    GoalItem(g, a, l, l');
    assert v + [] == v;
    LhsVar(g, r);
    RuleValid(g, r);
    FollowsInTree(g, a, l, l', 0, 1, t, u, g.rlhs[r], v, [], p);
    LeadsAlong(g, a, p, g.rrhs[r], g.rrhs[r + 1] - 1, q);
    LaOfEdge(g, a, l', LaLooking(g, a, m, follow), p, k, r, q);
  }

  lemma {:induction false} ReadAlone(g: Grammar, a: Automaton, m: GotoMap, read: seq<set<nat>>, follow: seq<set<nat>>)
    requires Valid(g) && Canonical(g, a) && ValidGotos(g, a, m) && ReadAndFollow(g, a, m, read, follow)
    ensures Spread(ReadsGraph(g, a, m), DirectReads(g, a, m), read) && |follow| == |m.from|
  {
    SpreadSize(IncludesGraph(g, a, m), read, follow);
  }

  lemma {:induction false} GoalItem(g: Grammar, a: Automaton, read: Looks, follow: Looks)
    requires Valid(g) && Canonical(g, a) && FollowClosed(g, a, read, follow)
    ensures HasItem(g, a, 0, 1) && |g.ritem| > 1 && g.ritem[1] == g.Goal() && (0, g.Goal(), 0) in follow
  {
  }

  lemma {:induction false} LhsVar(g: Grammar, r: int)
    requires Valid(g) && 3 <= r < |g.rlhs|
    ensures g.IsVar(g.rlhs[r])
  {
  }

  lemma {:induction false} LaOfEdge(g: Grammar, a: Automaton, follow: Looks, la: Looks, p: int, k: int, r: int, q: int)
    requires LaClosed(g, a, follow, la) && LaEdge(g, a, follow, p, k, r, q)
    ensures (q, r, k) in la
  {
  }

  /** The look-ahead sets are exact: k is in that of state q and rule r just if, in some sentential form of the
      goal in which nothing before it is expanded, the left-hand side of r comes before k, and what it comes
      after leads, with the right-hand side of r, to q. */
  lemma {:induction false} LaExact(g: Grammar, a: Automaton, m: GotoMap, read: seq<set<nat>>, follow: seq<set<nat>>, q: int, r: nat, k: nat)
    requires Valid(g) && Canonical(g, a) && ValidGotos(g, a, m) && ReadAndFollow(g, a, m, read, follow)
    ensures InLa(g, a, m, follow, q, r, k) <==> Anticipates(g, a, q, r, k)
  {
    hide Valid, Canonical, ValidGotos, ReadAndFollow, InLa, Anticipates;
    if InLa(g, a, m, follow, q, r, k) {
      LaAnticipates(g, a, m, read, follow, q, r, k);
    }
    if Anticipates(g, a, q, r, k) {
      AnticipatedInLa(g, a, m, read, follow, q, r, k);
    }
  }
}
