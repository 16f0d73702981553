/** Generation of the LR(0) states (byacc-1.9/lr0.c). */
module Lr0 {
  import opened Grammar
  import opened Closures
  import opened Automata
  import opened BitRows
  import opened Seqs
  import opened Wrappers

  const MAXSHORT := 32767

  // The items of the list that stand before x, each advanced by one.
  function Advance(g: Grammar, items: seq<int>, x: int): seq<int> {
    if items == [] then [] else
    var i := items[|items| - 1];
    Advance(g, items[..|items| - 1], x) + if 0 <= i < |g.ritem| && g.ritem[i] == x then [i + 1] else []
  }

  lemma {:induction false} AdvanceExact(g: Grammar, items: seq<int>, x: int)
    requires StrictlyIncreasing(items)
    ensures StrictlyIncreasing(Advance(g, items, x))
    ensures forall i :: i in Advance(g, items, x) <==> i - 1 in items && 0 <= i - 1 < |g.ritem| && g.ritem[i - 1] == x
  {
    if items != [] {
      var rest, last := items[..|items| - 1], items[|items| - 1];
      AdvanceExact(g, rest, x);
      assert items == rest + [last];
      forall i | i in rest
        ensures i < last
      {
      }
      if 0 <= last < |g.ritem| && g.ritem[last] == x {
        AppendIncreasing(Advance(g, rest, x), last + 1);
      }
    }
  }

  lemma AdvanceStep(g: Grammar, items: seq<int>, k: nat, x: int)
    requires k < |items|
    ensures Advance(g, items[..k + 1], x) ==
            Advance(g, items[..k], x) + if 0 <= items[k] < |g.ritem| && g.ritem[items[k]] == x then [items[k] + 1] else []
  {
    assert items[..k + 1][..k] == items[..k];
  }

  // shift_symbol lists each symbol with a kernel once.
  ghost predicate Symbols(g: Grammar, items: seq<int>, symbols: seq<int>) {
    && Distinct(symbols)
    && forall x :: x in symbols <==> 0 < x < g.nsyms && Advance(g, items, x) != []
  }

  // Taking in one more item adds its symbol, if that is not listed yet.
  lemma SymbolsStep(g: Grammar, items: seq<int>, k: nat, symbols: seq<int>)
    requires Valid(g) && ItemList(g, items) && k < |items| && Symbols(g, items[..k], symbols)
    ensures 1 <= items[k] < |g.ritem|
    ensures var x := g.ritem[items[k]];
            x < g.nsyms && Symbols(g, items[..k + 1], if x > 0 && Advance(g, items[..k], x) == [] then symbols + [x] else symbols)
  {
    hide Valid, Advance;
    assert items[k] in items;
    var x := g.ritem[items[k]];
    SymbolInRange(g, items[k]);
    forall y
      ensures Advance(g, items[..k + 1], y) == Advance(g, items[..k], y) + if x == y then [items[k] + 1] else []
    {
      AdvanceStep(g, items, k, y);
    }
    if x > 0 && Advance(g, items[..k], x) == [] {
      assert x !in symbols;
      assert forall y :: y in symbols + [x] <==> y in symbols || y == x;
    }
  }

  // kernel[x] is the kernel buffer of symbol x.
  ghost predicate Kernels(g: Grammar, items: seq<int>, kernel: seq<seq<int>>) {
    |kernel| == g.nsyms && forall x :: 0 < x < g.nsyms ==> kernel[x] == Advance(g, items, x)
  }

  lemma KernelsStep(g: Grammar, items: seq<int>, k: nat, kernel: seq<seq<int>>)
    requires Valid(g) && ItemList(g, items) && k < |items| && Kernels(g, items[..k], kernel)
    ensures 1 <= items[k] < |g.ritem|
    ensures var i := items[k]; var x := g.ritem[i];
            x < g.nsyms && Kernels(g, items[..k + 1], if x > 0 then kernel[x := kernel[x] + [i + 1]] else kernel)
  {
    assert items[k] in items;
    SymbolInRange(g, items[k]);
    forall y | 0 < y < g.nsyms
      ensures Advance(g, items[..k + 1], y) == kernel[y] + if g.ritem[items[k]] == y then [items[k] + 1] else []
    {
      AdvanceStep(g, items, k, y);
    }
  }

  method NewItemsets(g: Grammar, itemset: seq<int>) returns (kernel: seq<seq<int>>, symbols: seq<int>)
    requires Valid(g) && ItemList(g, itemset)
    ensures Kernels(g, itemset, kernel) && Symbols(g, itemset, symbols)
  {
    kernel := seq(g.nsyms, _ => []);
    symbols := [];
    var k := 0;
    while k < |itemset|
      invariant 0 <= k <= |itemset| && Kernels(g, itemset[..k], kernel) && Symbols(g, itemset[..k], symbols)
    {
      hide Symbols, ItemList, Valid;
      SymbolsStep(g, itemset, k, symbols);
      KernelsStep(g, itemset, k, kernel);
      var i := itemset[k];
      var symbol := g.ritem[i];
      if symbol > 0 {
        if kernel[symbol] == [] {
          symbols := symbols + [symbol];
        }
        kernel := kernel[symbol := kernel[symbol] + [i + 1]];
      }
      k := k + 1;
    }
    assert itemset[..k] == itemset;
  }

  // The insertion sort at the head of append_states.
  method SortSymbols(a: array<int>)
    requires Distinct(a[..])
    modifies a
    ensures StrictlyIncreasing(a[..])
    ensures forall x :: x in a[..] <==> x in old(a[..])
  {
    var i := 1;
    while i < a.Length
      invariant 1 <= i && (i <= a.Length || a.Length == 0)
      invariant i <= a.Length ==> StrictlyIncreasing(a[..i])
      invariant forall x :: x in a[..] <==> x in old(a[..])
      invariant Distinct(a[..])
    {
      InsertSymbol(a, i);
      i := i + 1;
    }
    assert a.Length > 0 ==> a[..i] == a[..];
    assert a.Length == 0 ==> a[..] == [];
  }

  method InsertSymbol(a: array<int>, i: nat)
    requires 1 <= i < a.Length && StrictlyIncreasing(a[..i]) && Distinct(a[..])
    modifies a
    ensures StrictlyIncreasing(a[..i + 1]) && Distinct(a[..])
    ensures forall x :: x in a[..] <==> x in old(a[..])
  {
    hide StrictlyIncreasing, Distinct;
    ghost var s := a[..];
    Below(s, i);
    var symbol := a[i];
    var j := i;
    while j > 0 && a[j - 1] > symbol
      invariant 0 <= j <= i && (j < i ==> s[j] > symbol)
      invariant a[..j] == s[..j] && a[i + 1..] == s[i + 1..] && a[j + 1..i + 1] == s[j..i]
    {
      assert a[j - 1] == s[j - 1];
      a[j] := a[j - 1];
      j := j - 1;
    }
    a[j] := symbol;
    assert a[..] == s[..j] + [symbol] + s[j..i] + s[i + 1..];
    Inserted(s, j, i);
  }

  lemma Below(s: seq<int>, i: nat)
    requires i < |s| && StrictlyIncreasing(s[..i])
    ensures forall j, k :: 0 <= j < k < i ==> s[j] < s[k]
  {
    assert forall j :: 0 <= j < i ==> s[..i][j] == s[j];
  }

  lemma Inserted(s: seq<int>, j: nat, i: nat)
    requires j <= i < |s| && Distinct(s) && StrictlyIncreasing(s[..i])
    requires (j < i ==> s[j] > s[i]) && (j > 0 ==> s[j - 1] <= s[i])
    ensures var t := s[..j] + [s[i]] + s[j..i] + s[i + 1..];
            StrictlyIncreasing(t[..i + 1]) && Distinct(t) && forall x :: x in t <==> x in s
  {
    var t := s[..j] + [s[i]] + s[j..i] + s[i + 1..];
    assert s == s[..j] + s[j..i] + [s[i]] + s[i + 1..];
    Rotated(s[..j], s[j..i], s[i], s[i + 1..]);
    forall k, m | 0 <= k < m < i + 1
      ensures t[k] < t[m]
    {
      assert s[..i][..j] == s[..j] && s[..i][j..] == s[j..i];
      if m == j {
        assert k == j - 1 || s[..i][k] < s[..i][j - 1];
      } else if k == j {
        assert m - 1 == j || s[..i][j] < s[..i][m - 1];
      }
    }
  }

  lemma Rotated(p: seq<int>, q: seq<int>, x: int, r: seq<int>)
    requires Distinct(p + q + [x] + r)
    ensures Distinct(p + [x] + q + r)
    ensures forall y :: y in p + [x] + q + r <==> y in p + q + [x] + r
  {
    var s, t := p + q + [x] + r, p + [x] + q + r;
    forall j, k | 0 <= j < k < |t|
      ensures t[j] != t[k]
    {
      assert t[j] == s[Unrotate(|p|, |q|, j)] && t[k] == s[Unrotate(|p|, |q|, k)];
    }
  }

  function Unrotate(p: nat, q: nat, k: nat): nat {
    if k == p then p + q else if p < k <= p + q then k - 1 else k
  }

  // Some item of the list completes rule r.
  ghost predicate CompletedIn(g: Grammar, items: seq<int>, r: int) {
    r > 0 && exists i :: i in items && 1 <= i < |g.ritem| && g.ritem[i] == -r
  }

  ghost predicate RulesOfItems(g: Grammar, items: seq<int>, rules: seq<int>) {
    StrictlyIncreasing(rules) && forall r :: r in rules <==> CompletedIn(g, items, r)
  }

  lemma CompleteItem(g: Grammar, i: int)
    requires Valid(g) && 1 <= i < |g.ritem| && g.ritem[i] < 0
    ensures var r := -g.ritem[i]; 2 <= r < |g.rlhs| && i == g.rrhs[r + 1] - 1 && ItemOf(g, i, r)
  {
    var r := RuleOfItem(g, i, |g.rlhs|);
    ItemStep(g, i, r);
  }

  // Rules end in the order of their numbers.
  lemma CompleteOrder(g: Grammar, i: int, j: int)
    requires Valid(g) && 1 <= i < j < |g.ritem| && g.ritem[i] < 0 && g.ritem[j] < 0
    ensures -g.ritem[i] < -g.ritem[j]
  {
    CompleteItem(g, i);
    CompleteItem(g, j);
    if -g.ritem[j] < -g.ritem[i] {
      RuleStartsIncrease(g, -g.ritem[j] + 1, -g.ritem[i] + 1);
    }
  }

  lemma RulesOfItemsStep(g: Grammar, items: seq<int>, k: nat, rules: seq<int>)
    requires Valid(g) && ItemList(g, items) && k < |items| && RulesOfItems(g, items[..k], rules)
    ensures 1 <= items[k] < |g.ritem|
    ensures var item := g.ritem[items[k]];
            RulesOfItems(g, items[..k + 1], if item < 0 then rules + [-item] else rules)
  {
    assert items[k] in items;
    var i := items[k];
    assert items[..k + 1] == items[..k] + [i];
    if g.ritem[i] < 0 {
      forall r | r in rules
        ensures r < -g.ritem[i]
      {
        var j :| j in items[..k] && 1 <= j < |g.ritem| && g.ritem[j] == -r;
        CompleteOrder(g, j, i);
      }
      AppendIncreasing(rules, -g.ritem[i]);
    }
  }

  // The complete items of the closure, as rule numbers.
  method SaveReductions(g: Grammar, ghost kernel: seq<int>, itemset: seq<int>) returns (rules: seq<nat>)
    requires Valid(g) && ItemList(g, itemset) && forall i :: i in itemset <==> InClosure(g, kernel, i)
    ensures RedsExact(g, kernel, rules)
  {
    hide RulesOfItems, Valid, ItemList, InClosure, RedsExact;
    rules := [];
    NoRulesYet(g);
    var k := 0;
    while k < |itemset|
      invariant 0 <= k <= |itemset| && RulesOfItems(g, itemset[..k], rules)
    {
      RulesOfItemsStep(g, itemset, k, rules);
      var item := g.ritem[itemset[k]];
      if item < 0 {
        rules := rules + [-item];
      }
      k := k + 1;
    }
    assert itemset[..k] == itemset;
    ItemsToReds(g, kernel, itemset, rules);
  }

  lemma NoRulesYet(g: Grammar)
    ensures RulesOfItems(g, [], [])
  {
  }

  lemma ItemsToReds(g: Grammar, kernel: seq<int>, items: seq<int>, rules: seq<nat>)
    requires Valid(g) && ItemList(g, items) && (forall i :: i in items <==> InClosure(g, kernel, i))
    requires RulesOfItems(g, items, rules)
    ensures RedsExact(g, kernel, rules)
  {
    assert forall r :: CompletedIn(g, items, r) <==> Completes(g, kernel, r);
  }

  /** The collection while states below |shifts| are finished and the others wait in the list. */
  ghost predicate Partial(g: Grammar, a: Automaton)
    requires Valid(g)
  {
    && |a.acc| == |a.kernels| && |a.shifts| == |a.reds| <= |a.kernels|
    && Generated(g, a.kernels) && AllDistinct(a.kernels) && a.acc[0] == 0
    && (forall s :: 0 <= s < |a.kernels| ==> ItemList(g, a.kernels[s]))
    && (forall s :: 0 < s < |a.kernels| ==> EnteredOn(g, a.kernels[s], a.acc[s]))
    && (forall s :: 0 <= s < |a.shifts| ==> ShiftsExact(g, a.kernels, a.acc, s, a.shifts[s]))
    && (forall s :: 0 <= s < |a.reds| ==> RedsExact(g, a.kernels[s], a.reds[s]))
  }

  // Every item of kernel k has just been advanced over x.
  ghost predicate EnteredOn(g: Grammar, k: seq<int>, x: int) {
    x > 0 && k != [] && forall i :: i in k ==> 2 <= i <= |g.ritem| && g.ritem[i - 1] == x
  }

  ghost function WithState(a: Automaton, k: seq<int>, x: int): Automaton {
    a.(kernels := a.kernels + [k], acc := a.acc + [x])
  }

  // More states have been added to a; none has been finished.
  ghost predicate Grown(a: Automaton, b: Automaton) {
    a.kernels <= b.kernels && a.acc <= b.acc && a.shifts == b.shifts && a.reds == b.reds
  }

  lemma NewStatePartial(g: Grammar, a: Automaton, s: nat, k: seq<int>, x: int)
    requires Valid(g) && Partial(g, a) && s < |a.kernels| && IsGoto(g, a.kernels[s], x, k) && EnteredOn(g, k, x)
    requires k !in a.kernels
    ensures Partial(g, WithState(a, k, x))
  {
    var b := WithState(a, k, x);
    forall t | 0 < t < |b.kernels|
      ensures HasParent(g, b.kernels, t)
    {
      if t < |a.kernels| {
        assert HasParent(g, a.kernels, t);
        var s, x :| 0 <= s < t && IsGoto(g, a.kernels[s], x, a.kernels[t]);
        assert IsGoto(g, b.kernels[s], x, b.kernels[t]);
      } else {
        assert IsGoto(g, b.kernels[s], x, b.kernels[t]);
      }
    }
    forall t | 0 <= t < |b.shifts|
      ensures ShiftsExact(g, b.kernels, b.acc, t, b.shifts[t])
    {
      assert ShiftsExact(g, a.kernels, a.acc, t, a.shifts[t]);
    }
  }

  lemma EnteredOnce(g: Grammar, k: seq<int>, x: int, y: int)
    requires EnteredOn(g, k, x) && EnteredOn(g, k, y)
    ensures x == y
  {
    var i := k[0];
    assert i in k && g.ritem[i - 1] == x && g.ritem[i - 1] == y;
  }

  // state_set[key] is the chain of the states whose kernel starts with item key; state 0 is in none.
  ghost predicate Chains(g: Grammar, ks: seq<seq<int>>, chains: seq<seq<nat>>) {
    && |chains| == |g.ritem|
    && (forall key: nat, s: nat {:trigger s in chains[key]} :: key < |chains| && s in chains[key] ==> 0 < s < |ks| && ks[s] != [] && ks[s][0] == key)
    && (forall s: nat :: 0 < s < |ks| ==> ks[s] != [] && 0 <= ks[s][0] < |chains| && s in chains[ks[s][0]])
  }

  lemma ChainsAppend(g: Grammar, ks: seq<seq<int>>, chains: seq<seq<nat>>, k: seq<int>)
    requires Chains(g, ks, chains) && |ks| > 0 && k != [] && 0 <= k[0] < |chains|
    ensures Chains(g, ks + [k], chains[k[0] := chains[k[0]] + [|ks|]])
  {
    var chains' := chains[k[0] := chains[k[0]] + [|ks|]];
    assert |ks| in chains'[k[0]];
    assert forall s: nat :: s in chains'[k[0]] <==> s in chains[k[0]] || s == |ks|;
    forall key: nat, s: nat | key < |chains| && s in chains'[key]
      ensures 0 < s < |ks| + 1 && (ks + [k])[s] != [] && (ks + [k])[s][0] == key
    {
      assert s in chains[key] || s == |ks|;
    }
    forall s: nat | 0 < s < |ks|
      ensures ks[s] != [] && 0 <= ks[s][0] < |chains| && s in chains'[ks[s][0]]
    {
      assert s in chains[ks[s][0]];
    }
  }

  lemma ChainCount(g: Grammar, ks: seq<seq<int>>, chains: seq<seq<nat>>)
    requires Chains(g, ks, chains)
    ensures |chains| == |g.ritem|
  {
  }

  lemma ChainFacts(g: Grammar, a: Automaton, chains: seq<seq<nat>>, key: nat)
    requires Valid(g) && Partial(g, a) && Chains(g, a.kernels, chains) && key < |chains|
    ensures |a.acc| == |a.kernels| && |chains| == |g.ritem|
    ensures forall s: nat :: s in chains[key] ==> 0 < s < |a.kernels| && EnteredOn(g, a.kernels[s], a.acc[s])
  {
    forall s: nat | s in chains[key]
      ensures 0 < s < |a.kernels| && EnteredOn(g, a.kernels[s], a.acc[s])
    {
    }
  }

  // A kernel that no state of its chain has is no state's kernel.
  lemma NotInChain(g: Grammar, a: Automaton, chains: seq<seq<nat>>, k: seq<int>, x: int)
    requires Valid(g) && Partial(g, a) && Chains(g, a.kernels, chains) && EnteredOn(g, k, x) && ItemList(g, k)
    requires 0 <= k[0] < |chains| && forall s :: s in chains[k[0]] && s < |a.kernels| ==> a.kernels[s] != k
    ensures k !in a.kernels
  {
    assert k[0] in k;
    assert a.kernels[0] == [1];
  }

  // More distinct kernels than a state number can count are generated from g.
  ghost predicate TooMany(g: Grammar)
    requires Valid(g)
  {
    exists ks :: Generated(g, ks) && AllDistinct(ks) && |ks| > MAXSHORT
  }

  /** The static variables of lr0.c: the list of states, the bucket table state_set, and the lists of
      shifts and reductions saved so far. */
  class Generator {
    const g: Grammar
    const stateSet: array<seq<nat>>
    var a: Automaton

    ghost predicate Ok()
      reads this, stateSet
    {
      Valid(g) && Partial(g, a) && Chains(g, a.kernels, stateSet[..]) && |a.kernels| <= MAXSHORT
    }

    // initialize_states
    constructor (g: Grammar)
      requires Valid(g)
      ensures Ok() && this.g == g && fresh(stateSet)
      ensures a == Automaton([[1]], [0], [], [])
    {
      this.g := g;
      this.stateSet := new seq<nat>[|g.ritem|](_ => []);
      this.a := Automaton([[g.rrhs[2]]], [0], [], []);
    }

    // The search of one chain for a state with kernel k.
    method FindInChain(chain: seq<nat>, k: seq<int>) returns (found: bool, t: nat)
      requires forall s :: s in chain ==> s < |a.kernels|
      ensures found ==> t in chain && a.kernels[t] == k
      ensures !found ==> forall s :: s in chain && s < |a.kernels| ==> a.kernels[s] != k
    {
      found, t := false, 0;
      var n := 0;
      while n < |chain|
        invariant 0 <= n <= |chain|
        invariant forall s :: s in chain[..n] && s < |a.kernels| ==> a.kernels[s] != k
      {
        t := chain[n];
        assert t in chain;
        if a.kernels[t] == k {
          found := true;
          return;
        }
        assert chain[..n + 1] == chain[..n] + [t];
        n := n + 1;
      }
      assert chain[..n] == chain;
    }

    // The kernel k of symbol x as a state, found or new; fails when state numbers run out.
    method GetState(ghost s: nat, k: seq<int>, x: int) returns (ok: bool, t: nat)
      requires Ok() && s < |a.kernels| && IsGoto(g, a.kernels[s], x, k) && EnteredOn(g, k, x)
      modifies this, stateSet
      ensures ok ==> Ok() && Grown(old(a), a) && 0 < t < |a.kernels| && |a.acc| == |a.kernels| && a.kernels[t] == k && a.acc[t] == x
      ensures !ok ==> TooMany(g)
    {
      hide InClosure, Partial, Chains, Valid;
      KeyInRange(g, k);
      ChainCount(g, a.kernels, stateSet[..]);
      var key := k[0];
      ChainFacts(g, a, stateSet[..], key);
      var found;
      found, t := FindInChain(stateSet[..][key], k);
      ok := true;
      if found {
        EnteredOnce(g, k, x, a.acc[t]);
        return;
      }
      NotInChain(g, a, stateSet[..], k, x);
      NewStatePartial(g, a, s, k, x);
      if |a.kernels| >= MAXSHORT {
        ok := false;
        StatesRunOut(g, WithState(a, k, x));
        return;
      }
      t := |a.kernels|;
      ChainsAppend(g, a.kernels, stateSet[..], k);
      assert stateSet[..][key := stateSet[..][key] + [t]] == stateSet[..][k[0] := stateSet[..][k[0]] + [|a.kernels|]];
      stateSet[key] := stateSet[key] + [t];
      a := a.(kernels := a.kernels + [k], acc := a.acc + [x]);
    }

    // append_states: the kernels of the sorted symbols, as states.
    method AppendStates(s: nat, ghost itemset: seq<int>, kernel: seq<seq<int>>, symbols: seq<int>)
      returns (ok: bool, shiftset: seq<nat>)
      requires Ok() && s < |a.kernels| && ClosureList(g, a.kernels[s], itemset)
      requires Kernels(g, itemset, kernel) && Symbols(g, itemset, symbols)
      modifies this, stateSet
      ensures ok ==> Ok() && Grown(old(a), a) && |a.acc| == |a.kernels| && ShiftsExact(g, a.kernels, a.acc, s, shiftset)
      ensures !ok ==> TooMany(g)
    {
      hide InClosure, Partial, Chains, Valid, IsGoto, EnteredOn, ShiftsExact, ItemList;
      var shiftSymbol := new int[|symbols|](i requires 0 <= i < |symbols| => symbols[i]);
      assert shiftSymbol[..] == symbols;
      SortSymbols(shiftSymbol);
      ghost var sorted := shiftSymbol[..];
      ghost var k := a.kernels[s];
      shiftset := [];
      PartialCount(g, a);
      var i := 0;
      while i < shiftSymbol.Length
        invariant 0 <= i <= shiftSymbol.Length && shiftSymbol[..] == sorted
        invariant Ok() && Grown(old(a), a) && s < |a.kernels| && a.kernels[s] == k
        invariant Gotos(g, a, itemset, sorted[..i], shiftset)
      {
        var symbol := shiftSymbol[i];
        assert symbol in sorted;
        AdvanceGoto(g, k, itemset, symbol);
        ghost var before := a;
        var t;
        ok, t := GetState(s, kernel[symbol], symbol);
        if !ok {
          return;
        }
        GotosGrow(g, before, a, itemset, sorted[..i], shiftset);
        assert sorted[..i + 1] == sorted[..i] + [symbol];
        shiftset := shiftset + [t];
        i := i + 1;
      }
      ok := true;
      assert sorted[..i] == sorted;
      PartialCount(g, a);
      GotosExact(g, a, s, itemset, sorted, shiftset);
    }

    /** generate_states. */
    method Run(derives: seq<seq<nat>>) returns (ok: bool)
      requires Ok() && a == Automaton([[1]], [0], [], []) && DerivesTable(g, derives)
      modifies this, stateSet
      ensures ok ==> Canonical(g, a)
      ensures !ok ==> TooMany(g)
    {
      hide InClosure, ShiftsExact, RedsExact, Chains;
      var fd := SetFirstDerives(g, derives);
      var thisState := 0;
      while thisState < |a.kernels|
        invariant Ok() && thisState == |a.shifts| <= |a.kernels| && FirstDerives(g, fd) && fresh(fd) && fresh(fd.words)
        decreases MAXSHORT - thisState
      {
        ok := FinishState(thisState, fd);
        if !ok {
          return;
        }
        thisState := thisState + 1;
      }
      ok := true;
    }

    // One turn of the loop of generate_states.
    method FinishState(s: nat, fd: BitMatrix) returns (ok: bool)
      requires Ok() && s == |a.shifts| < |a.kernels| && FirstDerives(g, fd)
      modifies this, stateSet
      ensures ok ==> Ok() && |a.shifts| == s + 1 <= |a.kernels|
      ensures !ok ==> TooMany(g)
    {
      hide InClosure, ShiftsExact, RedsExact, Chains, FirstDerives, IsGoto, EnteredOn, Generated;
      var itemset := Closure(g, fd, a.kernels[s]);
      var rules := SaveReductions(g, a.kernels[s], itemset);
      var kernel, symbols := NewItemsets(g, itemset);
      ghost var k := a.kernels[s];
      var shiftset;
      ok, shiftset := AppendStates(s, itemset, kernel, symbols);
      if !ok {
        return;
      }
      assert a.kernels[s] == k;
      a := a.(shifts := a.shifts + [shiftset], reds := a.reds + [rules]);
    }
  }

  // The item set of closure for kernel k.
  ghost predicate ClosureList(g: Grammar, k: seq<int>, itemset: seq<int>)
    requires Valid(g)
  {
    ItemList(g, itemset) && forall i :: i in itemset <==> InClosure(g, k, i)
  }

  lemma AdvanceGoto(g: Grammar, k: seq<int>, itemset: seq<int>, x: int)
    requires Valid(g) && ClosureList(g, k, itemset) && 0 < x && Advance(g, itemset, x) != []
    ensures IsGoto(g, k, x, Advance(g, itemset, x)) && EnteredOn(g, Advance(g, itemset, x), x)
  {
    AdvanceExact(g, itemset, x);
    forall i | i in Advance(g, itemset, x)
      ensures 2 <= i < |g.ritem|
    {
      assert i - 1 in itemset;
      var r := RuleOfItem(g, i - 1, |g.rlhs|);
      ItemStep(g, i - 1, r);
      ItemStep(g, i, r);
    }
  }

  // shiftset[j] is the state whose kernel is the goto on symbols[j].
  ghost predicate Gotos(g: Grammar, a: Automaton, itemset: seq<int>, symbols: seq<int>, shiftset: seq<nat>) {
    && |shiftset| == |symbols| && |a.acc| == |a.kernels|
    && forall j :: 0 <= j < |shiftset| ==> 0 < shiftset[j] < |a.kernels| && a.acc[shiftset[j]] == symbols[j]
                                           && a.kernels[shiftset[j]] == Advance(g, itemset, symbols[j])
  }

  lemma GotosGrow(g: Grammar, a: Automaton, b: Automaton, itemset: seq<int>, symbols: seq<int>, shiftset: seq<nat>)
    requires Gotos(g, a, itemset, symbols, shiftset) && Grown(a, b) && |b.acc| == |b.kernels|
    ensures Gotos(g, b, itemset, symbols, shiftset)
  {
  }

  lemma PartialCount(g: Grammar, a: Automaton)
    requires Valid(g) && Partial(g, a)
    ensures |a.acc| == |a.kernels|
  {
  }

  lemma GotosExact(g: Grammar, a: Automaton, s: nat, itemset: seq<int>, symbols: seq<int>, shiftset: seq<nat>)
    requires Valid(g) && |a.acc| == |a.kernels| && s < |a.kernels| && ClosureList(g, a.kernels[s], itemset)
    requires Gotos(g, a, itemset, symbols, shiftset) && StrictlyIncreasing(symbols)
    requires forall x :: x in symbols <==> 0 < x < g.nsyms && Advance(g, itemset, x) != []
    ensures ShiftsExact(g, a.kernels, a.acc, s, shiftset)
  {
    forall j | 0 <= j < |shiftset|
      ensures IsGoto(g, a.kernels[s], a.acc[shiftset[j]], a.kernels[shiftset[j]])
    {
      assert symbols[j] in symbols;
      AdvanceGoto(g, a.kernels[s], itemset, symbols[j]);
    }
    forall x | Before(g, a.kernels[s], x)
      ensures exists j :: 0 <= j < |shiftset| && a.acc[shiftset[j]] == x
    {
      var i :| InClosure(g, a.kernels[s], i) && 1 <= i < |g.ritem| && g.ritem[i] == x;
      AdvanceExact(g, itemset, x);
      SymbolInRange(g, i);
      assert i + 1 in Advance(g, itemset, x);
      assert x in symbols;
      var j :| 0 <= j < |symbols| && symbols[j] == x;
      assert a.acc[shiftset[j]] == x;
    }
  }

  lemma KeyInRange(g: Grammar, k: seq<int>)
    requires ItemList(g, k) && k != []
    ensures 1 <= k[0] < |g.ritem|
  {
    assert k[0] in k;
  }

  lemma StatesRunOut(g: Grammar, a: Automaton)
    requires Valid(g) && Partial(g, a) && |a.kernels| > MAXSHORT
    ensures TooMany(g)
  {
  }

  /** The LR(0) states of g, or None when there are more than state numbers. */
  method GenerateStates(g: Grammar, derives: seq<seq<nat>>) returns (a: Option<Automaton>)
    requires Valid(g) && DerivesTable(g, derives)
    ensures a.Some? ==> Canonical(g, a.value)
    ensures a.None? ==> TooMany(g)
  {
    var gen := new Generator(g);
    var ok := gen.Run(derives);
    a := if ok then Some(gen.a) else None;
  }
}
