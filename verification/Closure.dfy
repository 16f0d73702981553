/** Item closure (byacc-1.9/closure.c, and set_derives in byacc-1.9/lr0.c). */
module Closures {
  import opened Grammar
  import opened BitRows
  import opened Relations
  import opened Seqs
  import opened Warshall

  // The rules of variable x, in increasing order, among the first n.
  function RulesOf(g: Grammar, x: int, n: nat): seq<nat>
    requires n <= |g.rlhs|
  {
    if n == 0 then [] else RulesOf(g, x, n - 1) + if g.rlhs[n - 1] == x then [n - 1] else []
  }

  lemma {:induction false} RulesOfExact(g: Grammar, x: int, n: nat)
    requires n <= |g.rlhs|
    ensures forall r :: r in RulesOf(g, x, n) <==> 0 <= r < n && g.rlhs[r] == x
  {
    if n > 0 {
      RulesOfExact(g, x, n - 1);
    }
  }

  // derives[x - ntokens] lists the rules of x.
  ghost predicate DerivesTable(g: Grammar, derives: seq<seq<nat>>) {
    g.Nvars() >= 0 && |derives| == g.Nvars() &&
    forall v :: 0 <= v < g.Nvars() ==> derives[v] == RulesOf(g, v + g.ntokens, |g.rlhs|)
  }

  method SetDerives(g: Grammar) returns (derives: seq<seq<nat>>)
    requires Valid(g)
    ensures DerivesTable(g, derives)
  {
    derives := [];
    var lhs := g.ntokens;
    while lhs < g.nsyms
      invariant g.ntokens <= lhs <= g.nsyms && |derives| == lhs - g.ntokens
      invariant forall v :: 0 <= v < |derives| ==> derives[v] == RulesOf(g, v + g.ntokens, |g.rlhs|)
    {
      var rules := [];
      var i := 0;
      while i < g.Nrules()
        invariant 0 <= i <= g.Nrules() && rules == RulesOf(g, lhs, i)
      {
        if g.rlhs[i] == lhs {
          rules := rules + [i];
        }
        i := i + 1;
      }
      derives := derives + [rules];
      lhs := lhs + 1;
    }
  }

  // Rule r starts with variable w, counted from ntokens.
  ghost predicate StartsWith(g: Grammar, r: int, w: int) {
    2 <= r < |g.rlhs| && r < |g.rrhs| && 0 <= g.rrhs[r] < |g.ritem| && w >= 0 && g.ritem[g.rrhs[r]] == w + g.ntokens
  }

  // Some rule of v starts with variable w (both counted from ntokens).
  ghost predicate LeftCorner(g: Grammar, v: int, w: int) {
    exists r :: StartsWith(g, r, w) && g.rlhs[r] == v + g.ntokens
  }

  ghost function LeftCorners(g: Grammar): Graph
    requires Valid(g)
  {
    seq(g.Nvars(), v requires 0 <= v < g.Nvars() => set w: nat | w < g.Nvars() && LeftCorner(g, v, w))
  }

  // Variable x, standing after a dot, brings in the rules of y.
  ghost predicate BringsIn(g: Grammar, x: int, y: int)
    requires Valid(g)
  {
    x >= g.ntokens && y >= g.ntokens && Reach(LeftCorners(g), x - g.ntokens, y - g.ntokens)
  }

  /** Item i is in the closure of the items in kernel. */
  ghost predicate InClosure(g: Grammar, kernel: seq<int>, i: int)
    requires Valid(g)
  {
    i in kernel || exists r :: Starts(g, kernel, r) && g.rrhs[r] == i
  }

  // Rule r is brought in by some item of kernel.
  ghost predicate Starts(g: Grammar, kernel: seq<int>, r: int)
    requires Valid(g)
  {
    2 <= r < |g.rlhs| && exists k :: k in kernel && 0 <= k < |g.ritem| && BringsIn(g, g.ritem[k], g.rlhs[r])
  }

  ghost predicate ClosedItems(g: Grammar, s: iset<int>)
    requires Valid(g)
  {
    forall i, r :: i in s && 0 <= i < |g.ritem| && 2 <= r < |g.rlhs| && g.ritem[i] >= g.ntokens && g.ritem[i] == g.rlhs[r]
      ==> g.rrhs[r] in s
  }

  /** The closure is the least set of items that contains the kernel and, with a dot before a variable,
      the start of every rule of that variable. */
  lemma ClosureIsLeast(g: Grammar, kernel: seq<int>)
    requires Valid(g)
    ensures ClosedItems(g, iset i | InClosure(g, kernel, i))
    ensures forall s :: ClosedItems(g, s) && (forall k :: k in kernel ==> k in s) ==> forall i :: InClosure(g, kernel, i) ==> i in s
  {
    forall i, r | InClosure(g, kernel, i) && 0 <= i < |g.ritem| && 2 <= r < |g.rlhs| && g.ritem[i] >= g.ntokens && g.ritem[i] == g.rlhs[r]
      ensures InClosure(g, kernel, g.rrhs[r])
    {
      ClosureStep(g, kernel, i, r);
    }
    forall s, i | ClosedItems(g, s) && (forall k :: k in kernel ==> k in s) && InClosure(g, kernel, i)
      ensures i in s
    {
      if i !in kernel {
        var r :| Starts(g, kernel, r) && g.rrhs[r] == i;
        ClosureWithin(g, kernel, s, r);
      }
    }
  }

  lemma ClosureStep(g: Grammar, kernel: seq<int>, i: int, r: int)
    requires Valid(g) && InClosure(g, kernel, i) && 0 <= i < |g.ritem| && 2 <= r < |g.rlhs|
    requires g.ritem[i] >= g.ntokens && g.ritem[i] == g.rlhs[r]
    ensures Starts(g, kernel, r) && InClosure(g, kernel, g.rrhs[r])
  {
    var w := g.rlhs[r] - g.ntokens;
    if i in kernel {
      ReachRefl(LeftCorners(g), w);
      assert BringsIn(g, g.ritem[i], g.rlhs[r]);
    } else {
      var q :| Starts(g, kernel, q) && g.rrhs[q] == i;
      var k :| k in kernel && 0 <= k < |g.ritem| && BringsIn(g, g.ritem[k], g.rlhs[q]);
      var v := g.rlhs[q] - g.ntokens;
      assert StartsWith(g, q, w);
      ReachFirst(LeftCorners(g), g.ritem[k] - g.ntokens, v);
      ReachStep(LeftCorners(g), g.ritem[k] - g.ntokens, v, w);
      assert BringsIn(g, g.ritem[k], g.rlhs[r]);
    }
  }

  // All rules of variable v start in s.
  ghost predicate StartsIn(g: Grammar, v: int, s: iset<int>)
    requires Valid(g)
  {
    forall q :: 2 <= q < |g.rlhs| && g.rlhs[q] == v + g.ntokens ==> g.rrhs[q] in s
  }

  lemma ClosureWithin(g: Grammar, kernel: seq<int>, s: iset<int>, r: int)
    requires Valid(g) && ClosedItems(g, s) && (forall k :: k in kernel ==> k in s) && Starts(g, kernel, r)
    ensures g.rrhs[r] in s
  {
    var k :| k in kernel && 0 <= k < |g.ritem| && BringsIn(g, g.ritem[k], g.rlhs[r]);
    var lc := LeftCorners(g);
    var vars := iset v: nat | v < |lc| && StartsIn(g, v, s);
    var v := g.ritem[k] - g.ntokens;
    ReachFirst(lc, v, g.rlhs[r] - g.ntokens);
    forall a, b | a in vars && a < |lc| && b in lc[a]
      ensures b in vars
    {
      var q :| StartsWith(g, q, b) && g.rlhs[q] == a + g.ntokens;
      assert g.rrhs[q] in s;
    }
    ReachLeast(lc, vars, v, g.rlhs[r] - g.ntokens);
  }

  // Epsilon-free firsts: row v holds the variables that v reaches along left corners.
  method SetEFF(g: Grammar, derives: seq<seq<nat>>) returns (eff: BitMatrix)
    requires Valid(g) && DerivesTable(g, derives)
    ensures fresh(eff) && fresh(eff.words) && eff.Valid() && eff.nrows == g.Nvars() && eff.nrows <= 32 * eff.rowsize
    ensures forall v, w: nat :: 0 <= v < g.Nvars() ==> (w in eff.rows[v] <==> Reach(LeftCorners(g), v, w))
  {
    eff := new BitMatrix(g.Nvars(), WordSize(g.Nvars()));
    var i := g.ntokens;
    while i < g.nsyms
      invariant g.ntokens <= i <= g.nsyms && eff.Valid() && fresh(eff) && fresh(eff.words)
      invariant forall v :: 0 <= v < i - g.ntokens ==> eff.rows[v] == LeftCorners(g)[v]
      invariant forall v :: i - g.ntokens <= v < g.Nvars() ==> eff.rows[v] == {}
    {
      SetEFFRow(g, derives, eff, i - g.ntokens);
      i := i + 1;
    }
    assert eff.rows == LeftCorners(g);
    ReflexiveTransitiveClosure(eff);
  }

  method SetEFFRow(g: Grammar, derives: seq<seq<nat>>, eff: BitMatrix, v: nat)
    requires Valid(g) && DerivesTable(g, derives) && v < g.Nvars()
    requires eff.Valid() && eff.nrows == g.Nvars() <= 32 * eff.rowsize && eff.rows[v] == {}
    modifies eff, eff.words
    ensures eff.Valid() && eff.rows == old(eff.rows)[v := LeftCorners(g)[v]]
  {
    var sp := derives[v];
    DerivesRules(g, derives, v);
    var k := 0;
    hide Reach;
    while k < |sp| && sp[k] > 0
      invariant 0 <= k <= |sp| && eff.Valid() && eff.rows == old(eff.rows)[v := eff.rows[v]]
      invariant forall w :: w in eff.rows[v] <==> w < g.Nvars() && exists j :: 0 <= j < k && StartsWith(g, sp[j], w)
    {
      assert sp[k] in derives[v];
      assert ValidRule(g, sp[k]);
      var symbol := g.ritem[g.rrhs[sp[k]]];
      if g.IsVar(symbol) {
        eff.SetBit(v, symbol - g.ntokens);
      }
      k := k + 1;
    }
    assert eff.rows[v] == LeftCorners(g)[v];
  }

  lemma DerivesRules(g: Grammar, derives: seq<seq<nat>>, v: nat)
    requires Valid(g) && DerivesTable(g, derives) && v < g.Nvars()
    ensures forall r :: r in derives[v] <==> 2 <= r < |g.rlhs| && g.rlhs[r] == v + g.ntokens
  {
    RulesOfExact(g, v + g.ntokens, |g.rlhs|);
  }

  // Row v holds the rules that variable v brings in.
  ghost predicate FirstDerives(g: Grammar, fd: BitMatrix)
    requires Valid(g)
    reads fd, fd.words
  {
    && fd.Valid() && fd.nrows == g.Nvars() && fd.rowsize == WordSize(g.Nrules())
    && forall v, r: nat :: 0 <= v < g.Nvars() ==>
         (r in fd.rows[v] <==> r < g.Nrules() && BringsIn(g, v + g.ntokens, g.rlhs[r]))
  }

  method SetFirstDerives(g: Grammar, derives: seq<seq<nat>>) returns (fd: BitMatrix)
    requires Valid(g) && DerivesTable(g, derives)
    ensures fresh(fd) && fresh(fd.words) && FirstDerives(g, fd)
  {
    fd := new BitMatrix(g.Nvars(), WordSize(g.Nrules()));
    var eff := SetEFF(g, derives);
    var i := 0;
    while i < g.Nvars()
      invariant 0 <= i <= g.Nvars() && fd.Valid() && fresh(fd) && fresh(fd.words) && eff.Valid() && fd != eff && fd.words != eff.words
      invariant forall v, w: nat :: 0 <= v < g.Nvars() ==> (w in eff.rows[v] <==> Reach(LeftCorners(g), v, w))
      invariant forall v, r: nat :: 0 <= v < i ==>
                  (r in fd.rows[v] <==> r < g.Nrules() && BringsIn(g, v + g.ntokens, g.rlhs[r]))
      invariant forall v :: i <= v < g.Nvars() ==> fd.rows[v] == {}
    {
      SetFirstDerivesRow(g, derives, eff, fd, i);
      i := i + 1;
    }
  }

  // The bits of all rules in a list are set in a row.
  method SetRules(fd: BitMatrix, v: nat, rules: seq<nat>)
    requires fd.Valid() && v < fd.nrows && forall r :: r in rules ==> r < 32 * fd.rowsize
    modifies fd, fd.words
    ensures fd.Valid() && fd.rows == old(fd.rows)[v := old(fd.rows[v]) + Elems(rules)]
  {
    var k := 0;
    assert Elems(rules[..k]) == {};
    while k < |rules|
      invariant 0 <= k <= |rules| && fd.Valid()
      invariant fd.rows == old(fd.rows)[v := fd.rows[v]] && fd.rows[v] == old(fd.rows[v]) + Elems(rules[..k])
    {
      assert rules[k] in rules;
      fd.SetBit(v, rules[k]);
      assert Elems(rules[..k + 1]) == Elems(rules[..k]) + {rules[k]};
      k := k + 1;
    }
    assert rules[..k] == rules;
  }

  // Rule r belongs to a variable below j that v brings in.
  ghost predicate BroughtInBelow(g: Grammar, v: nat, j: nat, r: nat)
    requires Valid(g)
  {
    r < |g.rlhs| && g.rlhs[r] < j + g.ntokens && BringsIn(g, v + g.ntokens, g.rlhs[r])
  }

  method SetFirstDerivesRow(g: Grammar, derives: seq<seq<nat>>, eff: BitMatrix, fd: BitMatrix, v: nat)
    requires Valid(g) && DerivesTable(g, derives) && v < g.Nvars()
    requires eff.Valid() && eff.nrows == g.Nvars() <= 32 * eff.rowsize
    requires fd.Valid() && fd.nrows == g.Nvars() && fd.rowsize == WordSize(g.Nrules()) && fd.rows[v] == {}
    requires fd != eff && fd.words != eff.words
    requires forall w: nat :: w in eff.rows[v] <==> Reach(LeftCorners(g), v, w)
    modifies fd, fd.words
    ensures fd.Valid() && fd.rows == old(fd.rows)[v := fd.rows[v]]
    ensures forall r: nat :: r in fd.rows[v] <==> r < g.Nrules() && BringsIn(g, v + g.ntokens, g.rlhs[r])
  {
    hide Reach;
    var j := 0;
    while j < g.Nvars()
      invariant 0 <= j <= g.Nvars() && fd.Valid() && fd.rows == old(fd.rows)[v := fd.rows[v]] && eff.Valid()
      invariant forall r: nat :: r in fd.rows[v] <==> BroughtInBelow(g, v, j, r)
    {
      var hit := eff.Bit(v, j);
      DerivesRules(g, derives, j);
      if hit {
        SetRules(fd, v, derives[j]);
      }
      j := j + 1;
    }
    forall r | 0 <= r < g.Nrules() && BringsIn(g, v + g.ntokens, g.rlhs[r])
      ensures g.rlhs[r] < g.nsyms
    {
      ReachFirst(LeftCorners(g), v, g.rlhs[r] - g.ntokens);
    }
  }

  // A set of items as a state holds it: item numbers in increasing order.
  ghost predicate ItemList(g: Grammar, items: seq<int>) {
    StrictlyIncreasing(items) && forall i :: i in items ==> 1 <= i < |g.ritem|
  }

  // The first loop of closure: the union of the rows of first_derives for the nucleus.
  method CollectRules(g: Grammar, fd: BitMatrix, nucleus: seq<int>) returns (ruleset: BitMatrix)
    requires Valid(g) && FirstDerives(g, fd) && ItemList(g, nucleus)
    ensures fresh(ruleset) && fresh(ruleset.words) && ruleset.Valid()
    ensures ruleset.nrows == 1 && g.Nrules() <= 32 * ruleset.rowsize
    ensures forall r: nat :: r in ruleset.rows[0] <==> Starts(g, nucleus, r)
  {
    hide Reach, BringsIn, Valid, Starts;
    ruleset := new BitMatrix(1, WordSize(g.Nrules()));
    var c := 0;
    NoStarts(g);
    while c < |nucleus|
      invariant 0 <= c <= |nucleus| && ruleset.Valid() && fresh(ruleset) && fresh(ruleset.words) && fd.Valid()
      invariant forall r: nat :: r in ruleset.rows[0] <==> Starts(g, nucleus[..c], r)
    {
      assert nucleus[c] in nucleus;
      var symbol := g.ritem[nucleus[c]];
      StartsSplit(g, nucleus, c);
      if g.IsVar(symbol) {
        SymbolInRange(g, nucleus[c]);
        ghost var row := RowOfSymbol(g, fd, symbol);
        RulesStep(g, nucleus, c, ruleset.rows[0], row);
        ruleset.OrRowFrom(0, fd, symbol - g.ntokens);
      }
      c := c + 1;
    }
    assert nucleus[..c] == nucleus;
  }

  lemma RowOfSymbol(g: Grammar, fd: BitMatrix, symbol: int) returns (row: set<nat>)
    requires Valid(g) && FirstDerives(g, fd) && g.ntokens <= symbol < g.nsyms
    ensures symbol - g.ntokens < |fd.rows| && row == fd.rows[symbol - g.ntokens]
    ensures forall r: nat :: r in row <==> 2 <= r < |g.rlhs| && BringsIn(g, symbol, g.rlhs[r])
  {
    row := fd.rows[symbol - g.ntokens];
  }

  lemma SymbolInRange(g: Grammar, i: int)
    requires Valid(g) && 1 <= i < |g.ritem|
    ensures g.ritem[i] < g.nsyms
  {
  }

  lemma RulesStep(g: Grammar, nucleus: seq<int>, c: nat, rules: set<nat>, row: set<nat>)
    requires Valid(g) && ItemList(g, nucleus) && c < |nucleus| && 1 <= nucleus[c] < |g.ritem|
    requires forall r: nat :: r in rules <==> Starts(g, nucleus[..c], r)
    requires forall r: nat :: r in row <==> 2 <= r < |g.rlhs| && BringsIn(g, g.ritem[nucleus[c]], g.rlhs[r])
    ensures forall r: nat :: r in rules + row <==> Starts(g, nucleus[..c + 1], r)
  {
    hide Valid, Starts, BringsIn;
    StartsSplit(g, nucleus, c);
    forall r: nat
      ensures r in rules + row <==> Starts(g, nucleus[..c + 1], r)
    {
    }
  }

  lemma NoStarts(g: Grammar)
    requires Valid(g)
    ensures forall r :: !Starts(g, [], r)
  {
  }

  lemma StartsSplit(g: Grammar, nucleus: seq<int>, c: nat)
    requires Valid(g) && ItemList(g, nucleus) && c < |nucleus|
    ensures 1 <= nucleus[c] < |g.ritem|
    ensures forall r :: BringsIn(g, g.ritem[nucleus[c]], r) ==> g.IsVar(g.ritem[nucleus[c]])
    ensures forall r :: Starts(g, nucleus[..c + 1], r) <==>
              Starts(g, nucleus[..c], r) || (2 <= r < |g.rlhs| && BringsIn(g, g.ritem[nucleus[c]], g.rlhs[r]))
  {
    assert nucleus[c] in nucleus;
    assert nucleus[..c + 1] == nucleus[..c] + [nucleus[c]];
  }

  // Rule r < n is in the rule set and i is its first item.
  ghost predicate StartBelow(g: Grammar, rules: set<nat>, n: nat, i: int)
    requires Valid(g)
  {
    exists r: nat :: r in rules && 2 <= r < n && r < |g.rlhs| && g.rrhs[r] == i
  }

  lemma StartBelowStep(g: Grammar, rules: set<nat>, n: nat)
    requires Valid(g) && n < |g.rlhs|
    ensures forall i :: StartBelow(g, rules, n + 1, i) <==>
              StartBelow(g, rules, n, i) || (n in rules && 2 <= n && g.rrhs[n] == i)
  {
    forall i
      ensures StartBelow(g, rules, n + 1, i) <==> StartBelow(g, rules, n, i) || (n in rules && 2 <= n && g.rrhs[n] == i)
    {
      if StartBelow(g, rules, n, i) {
        var r: nat :| r in rules && 2 <= r < n && g.rrhs[r] == i;
        assert StartBelow(g, rules, n + 1, i);
      }
      if n in rules && 2 <= n && g.rrhs[n] == i {
        assert StartBelow(g, rules, n + 1, i);
      }
    }
  }

  // The merge of the first c items of the nucleus with the starts of the rules below n.
  ghost predicate Merged(g: Grammar, nucleus: seq<int>, rules: set<nat>, c: nat, n: nat, out: seq<int>)
    requires Valid(g) && c <= |nucleus|
  {
    && StrictlyIncreasing(out)
    && (forall i :: i in out <==> i in nucleus[..c] || StartBelow(g, rules, n, i))
    && (forall i, k :: i in out && c <= k < |nucleus| ==> i < nucleus[k])
    && (forall i, r :: i in out && n <= r < |g.rlhs| && 2 <= r ==> i < g.rrhs[r])
  }

  // The items of the nucleus below a limit are copied to the item set.
  method CopyBelow(g: Grammar, nucleus: seq<int>, ghost rules: set<nat>, c0: nat, n: nat, limit: int, out0: seq<int>)
    returns (c: nat, out: seq<int>)
    requires Valid(g) && ItemList(g, nucleus) && c0 <= |nucleus| && Merged(g, nucleus, rules, c0, n, out0)
    requires forall r :: n <= r < |g.rlhs| && 2 <= r ==> limit <= g.rrhs[r]
    ensures c0 <= c <= |nucleus| && Merged(g, nucleus, rules, c, n, out)
    ensures c == |nucleus| || limit <= nucleus[c]
    ensures forall i :: i in out ==> i in out0 || i < limit
  {
    c, out := c0, out0;
    while c < |nucleus| && nucleus[c] < limit
      invariant c0 <= c <= |nucleus| && Merged(g, nucleus, rules, c, n, out)
      invariant forall i :: i in out ==> i in out0 || i < limit
    {
      assert nucleus[..c + 1] == nucleus[..c] + [nucleus[c]];
      AppendIncreasing(out, nucleus[c]);
      out := out + [nucleus[c]];
      c := c + 1;
    }
  }

  // One set bit of the rule set: copy the nucleus below itemno, append itemno, skip it in the nucleus.
  method MergeRule(g: Grammar, nucleus: seq<int>, ghost rules: set<nat>, c0: nat, n: nat, out0: seq<int>)
    returns (c: nat, out: seq<int>)
    requires Valid(g) && ItemList(g, nucleus) && c0 <= |nucleus| && Merged(g, nucleus, rules, c0, n, out0)
    requires n in rules && 2 <= n < |g.rlhs|
    ensures c <= |nucleus| && Merged(g, nucleus, rules, c, n + 1, out)
  {
    var itemno := g.rrhs[n];
    forall r | n < r <= |g.rlhs|
      ensures itemno < g.rrhs[r]
    {
      RuleStartsIncrease(g, n, r);
    }
    c, out := CopyBelow(g, nucleus, rules, c0, n, itemno, out0);
    StartBelowStep(g, rules, n);
    AppendIncreasing(out, itemno);
    out := out + [itemno];
    ghost var c1 := c;
    while c < |nucleus| && nucleus[c] == itemno
      invariant c1 <= c <= |nucleus|
      invariant forall i :: i in nucleus[..c] ==> i in nucleus[..c1] || i == itemno
      invariant forall k :: c <= k < |nucleus| ==> itemno <= nucleus[k]
    {
      assert nucleus[..c + 1] == nucleus[..c] + [nucleus[c]];
      c := c + 1;
    }
    assert nucleus[..c1] <= nucleus[..c];
    assert forall i :: i in nucleus[..c1] ==> i in nucleus[..c];
  }

  // All rules handled, and the rest of the nucleus copied: the closure.
  lemma MergedAll(g: Grammar, nucleus: seq<int>, rules: set<nat>, out: seq<int>)
    requires Valid(g) && ItemList(g, nucleus) && Merged(g, nucleus, rules, |nucleus|, |g.rlhs|, out)
    requires forall r: nat :: r in rules <==> Starts(g, nucleus, r)
    ensures ItemList(g, out)
    ensures forall i :: i in out <==> InClosure(g, nucleus, i)
  {
    assert nucleus[..|nucleus|] == nucleus;
    forall i | StartBelow(g, rules, |g.rlhs|, i)
      ensures 1 <= i < |g.ritem|
    {
      var r: nat :| r in rules && 2 <= r < |g.rlhs| && g.rrhs[r] == i;
      assert ValidRule(g, r);
    }
    forall i | InClosure(g, nucleus, i) && i !in nucleus
      ensures StartBelow(g, rules, |g.rlhs|, i)
    {
      var r :| Starts(g, nucleus, r) && g.rrhs[r] == i;
      var r': nat := r;
      assert r' in rules;
    }
  }

  method Closure(g: Grammar, fd: BitMatrix, nucleus: seq<int>) returns (itemset: seq<int>)
    requires Valid(g) && FirstDerives(g, fd) && ItemList(g, nucleus)
    ensures ItemList(g, itemset)
    ensures forall i :: i in itemset <==> InClosure(g, nucleus, i)
  {
    hide Reach, FirstDerives, Starts;
    var ruleset := CollectRules(g, fd, nucleus);
    ghost var rules := ruleset.rows[0];
    var ruleno: nat, c: nat := 0, 0;
    itemset := [];
    while ruleno < g.Nrules()
      invariant 0 <= ruleno <= g.Nrules() && c <= |nucleus| && ruleset.Valid() && ruleset.rows[0] == rules
      invariant Merged(g, nucleus, rules, c, ruleno, itemset)
    {
      var hit := ruleset.Bit(0, ruleno);
      StartBelowStep(g, rules, ruleno);
      if hit {
        StartsRule(g, nucleus, ruleno);
        c, itemset := MergeRule(g, nucleus, rules, c, ruleno, itemset);
      }
      ruleno := ruleno + 1;
    }
    assert forall k :: 0 <= k < |nucleus| ==> nucleus[k] in nucleus;
    c, itemset := CopyBelow(g, nucleus, rules, c, ruleno, g.Nitems(), itemset);
    MergedAll(g, nucleus, rules, itemset);
  }

  lemma StartsRule(g: Grammar, nucleus: seq<int>, r: int)
    requires Valid(g) && Starts(g, nucleus, r)
    ensures 2 <= r < |g.rlhs|
  {
  }
}
