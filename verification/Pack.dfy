/** Numbering of the symbols and packing of the rules (byacc-1.9/reader.c, pack_symbols and pack_grammar). */
module Pack {
  import opened Wrappers
  import opened Grammar
  import opened Productions
  import opened Reader
  import opened Seqs
  import opened Gotos
  import opened Lr0

  // The symbols of the list that are tokens, or that are not, in order.
  function Chosen(list: seq<Sym>, buckets: map<Sym, Bucket>, tokens: bool): seq<Sym> {
    if list == [] then [] else
    var x := list[|list| - 1];
    Chosen(list[..|list| - 1], buckets, tokens) + if x in buckets && (buckets[x].cls == Term) == tokens then [x] else []
  }

  lemma {:induction false} ChosenExact(list: seq<Sym>, buckets: map<Sym, Bucket>, tokens: bool)
    requires Distinct(list)
    ensures Distinct(Chosen(list, buckets, tokens))
    ensures forall x :: x in Chosen(list, buckets, tokens) <==> x in list && x in buckets && (buckets[x].cls == Term) == tokens
  {
    if list != [] {
      var rest, x := list[..|list| - 1], list[|list| - 1];
      ChosenExact(rest, buckets, tokens);
      assert list == rest + [x];
      assert x !in rest;
    }
  }

  // check_symbols: what has not been defined is a token.
  function Checked(buckets: map<Sym, Bucket>): map<Sym, Bucket> {
    map x | x in buckets :: if buckets[x].cls == Unknown then buckets[x].(cls := Term) else buckets[x]
  }

  /** The numbers of the symbols. */
  datatype Numbering = Numbering(index: map<Sym, int>, ntokens: nat, nsyms: nat)

  function IndexOf(m: Numbering, x: Sym): int {
    if x in m.index then m.index[x] else -1
  }

  /** Tokens have the numbers from 1 on, then comes $accept, then the goal, then the other variables; each
      number is used once. */
  ghost predicate NumberingOk(buckets: map<Sym, Bucket>, goal: Sym, m: Numbering) {
    && 1 <= m.ntokens < m.nsyms && m.index.Keys == buckets.Keys && goal in m.index && m.index[goal] == m.ntokens + 1
    && (forall x :: x in buckets ==> if buckets[x].cls == Term then 1 <= m.index[x] < m.ntokens else m.ntokens < m.index[x] < m.nsyms)
    && (forall x, y :: x in m.index && y in m.index && m.index[x] == m.index[y] ==> x == y)
  }

  /** pack_symbols, the numbers of the symbols; terms are the tokens in the order of their numbers. */
  method NumberSymbols(list: seq<Sym>, buckets: map<Sym, Bucket>, goal: Sym) returns (m: Numbering, terms: seq<Sym>)
    requires Distinct(list) && (forall x :: x in list <==> x in buckets) && goal in buckets && buckets[goal].cls != Term
    ensures NumberingOk(buckets, goal, m) && terms == Chosen(list, buckets, true) && m.ntokens == 1 + |terms|
    ensures forall i :: 0 <= i < |terms| ==> terms[i] in m.index && m.index[terms[i]] == i + 1
  {
    hide Chosen, TokensNumbered, VarsNumbered;
    var nsyms, ntokens, vars;
    nsyms, ntokens, terms, vars := CountSymbols(list, buckets);
    ChosenExact(list, buckets, true);
    ChosenExact(list, buckets, false);
    var index := NumberTokens(terms);
    index := NumberVars(index, ntokens, vars, goal);
    m := Numbering(index, ntokens, nsyms);
    forall x, y | x in index && y in index && index[x] == index[y]
      ensures x == y
    {
      SameNumber(index, terms, vars, goal, x, y);
    }
    NumbersApart(index, terms, vars, goal);
  }

  // The loops of pack_symbols that count the symbols and part the tokens from the others.
  method CountSymbols(list: seq<Sym>, buckets: map<Sym, Bucket>) returns (nsyms: int, ntokens: int, terms: seq<Sym>, vars: seq<Sym>)
    requires forall x :: x in list ==> x in buckets
    ensures terms == Chosen(list, buckets, true) && vars == Chosen(list, buckets, false)
    ensures ntokens == 1 + |terms| && nsyms == ntokens + 1 + |vars|
  {
    nsyms, ntokens := 2, 1;
    terms, vars := [], [];
    for i := 0 to |list|
      invariant terms == Chosen(list[..i], buckets, true) && vars == Chosen(list[..i], buckets, false)
      invariant ntokens == 1 + |terms| && nsyms == ntokens + 1 + |vars|
    {
      assert list[i] in list && list[..i + 1][..i] == list[..i];
      nsyms := nsyms + 1;
      if buckets[list[i]].cls == Term {
        ntokens := ntokens + 1;
        terms := terms + [list[i]];
      } else {
        vars := vars + [list[i]];
      }
    }
    assert list[..|list|] == list;
  }

  lemma NumbersApart(index: map<Sym, int>, terms: seq<Sym>, vars: seq<Sym>, goal: Sym)
    requires TokensNumbered(index, terms) && VarsNumbered(index, |terms| + 3, vars, goal, |terms| + 2 + |vars|)
    requires goal in index && index[goal] == |terms| + 2 && goal in vars
    ensures forall i :: 0 <= i < |terms| ==> terms[i] in index && index[terms[i]] == i + 1
    ensures forall x :: x in terms ==> x in index && 1 <= index[x] < |terms| + 1
    ensures forall x :: x in vars ==> x in index && |terms| + 1 < index[x] < |terms| + 2 + |vars|
  {
  }

  // The tokens have the numbers from 1 on.
  ghost predicate TokensNumbered(index: map<Sym, int>, terms: seq<Sym>) {
    forall i :: 0 <= i < |terms| ==> terms[i] in index && index[terms[i]] == i + 1
  }

  // The tokens are numbered from 1 on.
  method NumberTokens(terms: seq<Sym>) returns (index: map<Sym, int>)
    requires Distinct(terms)
    ensures TokensNumbered(index, terms) && forall x :: x in index <==> x in terms
  {
    index := map[];
    for i := 0 to |terms|
      invariant TokensNumbered(index, terms[..i]) && forall x :: x in index <==> x in terms[..i]
    {
      assert terms[..i + 1] == terms[..i] + [terms[i]];
      index := index[terms[i] := i + 1];
    }
    assert terms[..|terms|] == terms;
  }

  // The variables other than the goal have the numbers from `start` on.
  ghost predicate VarsNumbered(index: map<Sym, int>, start: int, vars: seq<Sym>, goal: Sym, k: int) {
    && k == start + |vars| - (if goal in vars then 1 else 0)
    && (forall x :: x in vars && x != goal ==> x in index && start <= index[x] < k)
    && (forall x, y :: x in vars && y in vars && x != goal && y != goal && x in index && y in index && index[x] == index[y] ==> x == y)
  }

  // The goal has the number behind $accept; the other variables follow in the order of the list.
  method NumberVars(index0: map<Sym, int>, ntokens: int, vars: seq<Sym>, goal: Sym) returns (index: map<Sym, int>)
    requires Distinct(vars) && goal in vars && forall x :: x in vars ==> x !in index0
    ensures goal in index && index[goal] == ntokens + 1 && VarsNumbered(index, ntokens + 2, vars, goal, ntokens + 1 + |vars|)
    ensures (forall x :: x in index <==> x in index0 || x in vars) && forall x :: x in index0 ==> index[x] == index0[x]
  {
    index := index0[goal := ntokens + 1];
    var k := ntokens + 2;
    for i := 0 to |vars|
      invariant goal in index && index[goal] == ntokens + 1 && VarsNumbered(index, ntokens + 2, vars[..i], goal, k)
      invariant forall x :: x in index <==> x in index0 || x in vars[..i] || x == goal
      invariant forall x :: x in index0 ==> index[x] == index0[x]
    {
      assert vars[..i + 1] == vars[..i] + [vars[i]];
      assert vars[i] !in vars[..i];
      if vars[i] != goal {
        index := index[vars[i] := k];
        k := k + 1;
      }
    }
    assert vars[..|vars|] == vars;
  }

  lemma SameNumber(index: map<Sym, int>, terms: seq<Sym>, vars: seq<Sym>, goal: Sym, x: Sym, y: Sym)
    requires TokensNumbered(index, terms) && VarsNumbered(index, |terms| + 3, vars, goal, |terms| + 2 + |vars|)
    requires goal in index && index[goal] == |terms| + 2 && goal in vars
    requires x in index && y in index && index[x] == index[y] && (x in terms || x in vars) && (y in terms || y in vars)
    ensures x == y
  {
    if x in terms && y in terms {
      var i :| 0 <= i < |terms| && terms[i] == x;
      var j :| 0 <= j < |terms| && terms[j] == y;
    }
  }

  /** The codes of the tokens, from those that were declared for them (UNDEFINED where none was): declared
      codes stay, "error" gets 256, and the others get codes of their own from 257 on. */
  ghost predicate CodesAssigned(declared: seq<int>, value: seq<int>) {
    && |value| == |declared| >= 2 && value[0] == 0
    && (forall i :: 1 <= i < |value| && declared[i] != UNDEFINED ==> value[i] == declared[i])
    && (declared[1] == UNDEFINED ==> value[1] == 256)
    && (forall i :: 2 <= i < |value| && declared[i] == UNDEFINED ==> NewCode(declared, value, i))
  }

  // The code of token i is greater than 256, nobody has declared it, and no token before i was given it.
  ghost predicate NewCode(declared: seq<int>, value: seq<int>, i: nat)
    requires i < |value| && |value| == |declared|
  {
    && value[i] > 256 && (forall j :: 1 <= j < |declared| ==> declared[j] != value[i])
    && forall j :: 2 <= j < i && declared[j] == UNDEFINED ==> value[j] < value[i]
  }

  // The declared codes do not clash with each other, with that of $end, or with the one that "error" gets.
  ghost predicate NoClash(declared: seq<int>) {
    && (forall i, j :: 1 <= i < j < |declared| && declared[i] != UNDEFINED ==> declared[i] != declared[j])
    && (forall i :: 1 <= i < |declared| ==> declared[i] != 0)
    && (|declared| > 1 && declared[1] == UNDEFINED ==> forall i :: 1 <= i < |declared| ==> declared[i] != 256)
  }

  /** The codes are pairwise distinct if and only if the declared ones do not clash. */
  lemma CodesDistinct(declared: seq<int>, value: seq<int>)
    requires CodesAssigned(declared, value)
    ensures Distinct(value) <==> NoClash(declared)
  {
    if NoClash(declared) {
      forall i, j | 0 <= i < j < |value|
        ensures value[i] != value[j]
      {
        assert j >= 2 && declared[j] == UNDEFINED ==> NewCode(declared, value, j);
        assert i >= 2 && declared[i] == UNDEFINED ==> NewCode(declared, value, i);
      }
    }
    if Distinct(value) {
      assert forall i :: 1 <= i < |value| ==> value[0] != value[i];
      forall i, j | 1 <= i < j < |declared| && declared[i] != UNDEFINED
        ensures declared[i] != declared[j]
      {
        assert value[i] != value[j];
      }
      if declared[1] == UNDEFINED {
        forall i | 1 <= i < |declared|
          ensures declared[i] != 256
        {
          assert i > 1 ==> value[1] != value[i];
        }
      }
    }
  }

  ghost predicate NonDecreasing(q: seq<int>) {
    forall i, j :: 0 <= i < j < |q| ==> q[i] <= q[j]
  }

  // The declared codes over 256 among the first n, in order.
  ghost predicate SortedCodes(declared: seq<int>, n: nat, codes: seq<int>) {
    && n <= |declared| && NonDecreasing(codes) && (forall c :: c in codes ==> c > 256)
    && forall i :: 1 <= i < n && declared[i] > 256 ==> declared[i] in codes
  }

  // The insertion sort of the declared codes over 256, in the array that is to hold all codes.
  method SortCodes(declared: seq<int>, value: array<int>) returns (k: nat)
    requires value.Length == |declared| >= 1
    modifies value
    ensures k <= value.Length && SortedCodes(declared, |declared|, value[..k])
    ensures forall c :: c in value[..k] ==> c in declared[1..]
  {
    k := 0;
    for i := 1 to |declared|
      invariant k < i && SortedCodes(declared, i, value[..k])
      invariant forall c :: c in value[..k] ==> c in declared[1..]
    {
      var n := declared[i];
      if n > 256 {
        ghost var was := value[..k];
        InsertCode(value, k, n);
        k := k + 1;
        assert n in declared[1..] by {
          assert declared[1..][i - 1] == n;
        }
        SortedMore(declared, i, was, value[..k]);
      }
    }
  }

  lemma SortedMore(declared: seq<int>, i: nat, was: seq<int>, codes: seq<int>)
    requires i < |declared| && SortedCodes(declared, i, was) && NonDecreasing(codes) && declared[i] > 256
    requires forall c :: c in codes <==> c in was || c == declared[i]
    ensures SortedCodes(declared, i + 1, codes)
  {
  }

  // One code is inserted in its place among the first k, which are in order.
  method InsertCode(value: array<int>, k: nat, n: int)
    requires k < value.Length && NonDecreasing(value[..k])
    modifies value
    ensures NonDecreasing(value[..k + 1]) && forall c :: c in value[..k + 1] <==> c in old(value[..k]) || c == n
  {
    ghost var was := value[..k];
    var j := k;
    while j > 0 && value[j - 1] > n
      invariant 0 <= j <= k
      invariant forall h :: 0 <= h < j ==> value[h] == was[h]
      invariant forall h :: j < h <= k ==> value[h] == was[h - 1]
      invariant j < k ==> was[j] > n
    {
      value[j] := value[j - 1];
      j := j - 1;
    }
    value[j] := n;
    InsertedCode(was, j, n, value[..k + 1]);
  }

  lemma InsertedCode(was: seq<int>, j: nat, n: int, now: seq<int>)
    requires NonDecreasing(was) && j <= |was| && (j > 0 ==> was[j - 1] <= n) && (j < |was| ==> was[j] > n)
    requires |now| == |was| + 1 && now[j] == n
    requires (forall h :: 0 <= h < j ==> now[h] == was[h]) && forall h :: j < h < |now| ==> now[h] == was[h - 1]
    ensures NonDecreasing(now) && forall c :: c in now <==> c in was || c == n
  {
    assert forall h :: 0 <= h < |was| ==> was[h] == now[if h < j then h else h + 1];
  }

  // The next code from n on that is not among the codes from j on.
  method NextCode(codes: seq<int>, j0: nat, n0: int) returns (j: nat, n: int)
    requires NonDecreasing(codes) && j0 <= |codes| && (forall h :: 0 <= h < j0 ==> codes[h] < n0) && (j0 < |codes| ==> codes[j0] >= n0)
    ensures n >= n0 && n !in codes && j <= |codes| && (forall h :: 0 <= h < j ==> codes[h] < n) && (j < |codes| ==> codes[j] > n)
  {
    j, n := j0, n0;
    while j < |codes| && n == codes[j]
      invariant n0 <= n && j <= |codes| && (forall h :: 0 <= h < j ==> codes[h] < n) && (j < |codes| ==> codes[j] >= n)
      decreases |codes| - j
    {
      j := j + 1;
      while j < |codes| && n == codes[j]
        invariant j <= |codes| && (forall h :: 0 <= h < j ==> codes[h] <= n) && (j < |codes| ==> codes[j] >= n)
        decreases |codes| - j
      {
        j := j + 1;
      }
      n := n + 1;
    }
  }

  /** pack_symbols, the codes of the tokens. */
  method AssignCodes(declared: seq<int>) returns (value: seq<int>)
    requires |declared| >= 2 && forall i :: 1 <= i < |declared| ==> declared[i] >= UNDEFINED
    ensures CodesAssigned(declared, value)
  {
    hide NewCode;
    var symbolValue := new int[|declared|](_ => 0);
    var k := SortCodes(declared, symbolValue);
    var codes := symbolValue[..k];
    value := declared;
    if declared[1] == UNDEFINED {
      value := value[1 := 256];
    }
    assert codes != [] ==> codes[0] in codes;
    var j: nat, n := 0, 257;
    for i := 2 to |declared|
      invariant |value| == |declared| && j <= |codes| && n > 256
      invariant (forall h :: 0 <= h < j ==> codes[h] < n) && (j < |codes| ==> codes[j] >= n)
      invariant forall h :: i <= h < |value| ==> value[h] == declared[h]
      invariant forall h :: 1 <= h < |value| && declared[h] != UNDEFINED ==> value[h] == declared[h]
      invariant declared[1] == UNDEFINED ==> value[1] == 256
      invariant forall h :: 2 <= h < i && declared[h] == UNDEFINED ==> value[h] < n && NewCode(declared, value, h)
    {
      if value[i] == UNDEFINED {
        j, n := NextCode(codes, j, n);
        NewCodesKept(declared, value, i, n);
        IsNew(declared, codes, value, i, n);
        value := value[i := n];
        n := n + 1;
      }
    }
    NewCodesKept(declared, value, |value|, 0);
    value := value[0 := 0];
  }

  // New codes stay new when another place is written to.
  lemma NewCodesKept(declared: seq<int>, value: seq<int>, i: nat, n: int)
    requires |value| == |declared| && 2 <= i <= |value| && forall h :: 2 <= h < i && declared[h] == UNDEFINED ==> NewCode(declared, value, h)
    ensures i < |value| ==> forall h :: 2 <= h < i && declared[h] == UNDEFINED ==> NewCode(declared, value[i := n], h)
    ensures forall h :: 2 <= h < i && declared[h] == UNDEFINED ==> NewCode(declared, value[0 := n], h)
  {
  }

  lemma IsNew(declared: seq<int>, codes: seq<int>, value: seq<int>, i: nat, n: int)
    requires |value| == |declared| && 2 <= i < |value| && SortedCodes(declared, |declared|, codes) && n > 256 && n !in codes
    requires forall h :: 2 <= h < i && declared[h] == UNDEFINED ==> value[h] < n
    ensures NewCode(declared, value[i := n], i)
  {
  }

  function Numbers(m: Numbering, q: seq<Sym>): seq<int> {
    seq(|q|, i requires 0 <= i < |q| => IndexOf(m, q[i]))
  }

  function Numbered(m: Numbering, rules: seq<SymRule>): seq<Rule> {
    seq(|rules|, k requires 0 <= k < |rules| => Rule(IndexOf(m, rules[k].lhs), Numbers(m, rules[k].rhs)))
  }

  // ritem, after the first n rules.
  function PackedItems(m: Numbering, rules: seq<SymRule>, n: int): seq<int>
    requires n <= |rules|
    decreases n
  {
    if n <= 3 then [-1, m.ntokens + 1, 0, -2]
    else PackedItems(m, rules, n - 1) + Numbers(m, rules[n - 1].rhs) + [1 - n]
  }

  // rrhs, after the first n rules.
  ghost predicate StartsAre(m: Numbering, rules: seq<SymRule>, n: nat, rrhs: seq<int>) {
    && 3 <= n <= |rules| && |rrhs| == n + 1 && rrhs[0] == 0 && rrhs[1] == 0 && rrhs[2] == 1
    && forall k :: 3 <= k <= n ==> rrhs[k] == |PackedItems(m, rules, k)|
  }

  lemma {:induction false} LayoutLength(m: Numbering, rules: seq<SymRule>, n: nat)
    requires n <= |rules|
    ensures |PackedItems(m, rules, n)| == |Layout(rules[..n])|
  {
    if n > 3 {
      LayoutLength(m, rules, n - 1);
      assert rules[..n][..n - 1] == rules[..n - 1];
    }
  }

  // Where rule n lies in pitem.
  lemma {:induction false} LayoutAt(rules: seq<SymRule>, n: nat, total: nat)
    requires 3 <= n < total <= |rules|
    ensures Layout(rules[..n]) + Somes(rules[n].rhs) + [None] <= Layout(rules[..total])
    decreases total
  {
    assert rules[..total][..total - 1] == rules[..total - 1];
    LayoutStep(rules[..total]);
    if n < total - 1 {
      LayoutAt(rules, n, total - 1);
      PrefixTrans(Layout(rules[..n]) + Somes(rules[n].rhs) + [None], Layout(rules[..total - 1]), Somes(rules[total - 1].rhs) + [None]);
      assert Layout(rules[..total]) == Layout(rules[..total - 1]) + (Somes(rules[total - 1].rhs) + [None]);
    }
  }

  lemma PrefixTrans<T>(p: seq<T>, q: seq<T>, r: seq<T>)
    requires p <= q
    ensures p <= q + r
  {
  }

  // The precedence of the last token of a right-hand side.
  function TermPrec(buckets: map<Sym, Bucket>, q: seq<Sym>): (int, int) {
    if q == [] then (0, TOKEN) else
    var x := q[|q| - 1];
    if x in buckets && buckets[x].cls == Term then (buckets[x].prec, buckets[x].assoc) else TermPrec(buckets, q[..|q| - 1])
  }

  // The precedence of a rule: its own, or that of its last token.
  function RulePrec(buckets: map<Sym, Bucket>, r: SymRule): (int, int) {
    if r.prec == UNDEFINED then TermPrec(buckets, r.rhs) else (r.prec, r.assoc)
  }

  // Of this right-hand side, the symbol at i is the last token.
  ghost predicate LastToken(buckets: map<Sym, Bucket>, q: seq<Sym>, i: nat) {
    && i < |q| && q[i] in buckets && buckets[q[i]].cls == Term
    && forall j :: i < j < |q| && q[j] in buckets ==> buckets[q[j]].cls != Term
  }

  /** A rule has the precedence and associativity that %prec gives it, or else those of its last token, or else
      none. */
  lemma {:induction false} RulePrecIs(buckets: map<Sym, Bucket>, r: SymRule)
    ensures r.prec != UNDEFINED ==> RulePrec(buckets, r) == (r.prec, r.assoc)
    ensures r.prec == UNDEFINED ==> forall i: nat :: LastToken(buckets, r.rhs, i) ==>
              RulePrec(buckets, r) == (buckets[r.rhs[i]].prec, buckets[r.rhs[i]].assoc)
    ensures r.prec == UNDEFINED && (forall i: nat :: !LastToken(buckets, r.rhs, i)) ==> RulePrec(buckets, r) == (0, TOKEN)
    decreases |r.rhs|
  {
    if r.rhs != [] {
      var n := |r.rhs| - 1;
      var x, rest := r.rhs[n], r.(rhs := r.rhs[..n]);
      if x in buckets && buckets[x].cls == Term {
        assert LastToken(buckets, r.rhs, n);
        forall i: nat | LastToken(buckets, r.rhs, i)
          ensures i == n
        {
        }
      } else {
        RulePrecIs(buckets, rest);
        forall i: nat
          ensures LastToken(buckets, r.rhs, i) <==> LastToken(buckets, rest.rhs, i)
        {
        }
      }
    }
  }

  /** The inner loop of pack_grammar: one right-hand side. */
  method PackRule(pitem: array<Option<Sym>>, m: Numbering, buckets: map<Sym, Bucket>, ritem0: seq<int>, ghost rhs: seq<Sym>)
    returns (ritem: seq<int>, prec: int, assoc: int)
    requires |ritem0| + |rhs| < pitem.Length && pitem[|ritem0|..|ritem0| + |rhs| + 1] == Somes(rhs) + [None]
    requires forall x :: x in rhs ==> x in buckets && x in m.index
    ensures ritem == ritem0 + Numbers(m, rhs) && (prec, assoc) == TermPrec(buckets, rhs)
  {
    ghost var n := |ritem0|;
    ritem, prec, assoc := ritem0, 0, TOKEN;
    assert forall j :: n <= j <= n + |rhs| ==> pitem[j] == pitem[n..n + |rhs| + 1][j - n];
    var j := |ritem0|;
    while pitem[j].Some?
      invariant n <= j <= n + |rhs| && ritem == ritem0 + Numbers(m, rhs[..j - n]) && (prec, assoc) == TermPrec(buckets, rhs[..j - n])
      decreases n + |rhs| - j
    {
      var x := pitem[j].value;
      assert x == rhs[j - n] && x in rhs;
      assert rhs[..j + 1 - n] == rhs[..j - n] + [x];
      assert rhs[..j + 1 - n][..j - n] == rhs[..j - n];
      ritem := ritem + [m.index[x]];
      if buckets[x].cls == Term {
        prec, assoc := buckets[x].prec, buckets[x].assoc;
      }
      j := j + 1;
    }
    assert rhs[..j - n] == rhs;
  }

  // The heads and the items that the reader has left.
  ghost predicate Holds(r: GrammarReader)
    reads r, r.pitem, r.heads
  {
    && 3 <= r.nrules == |r.rules| && r.nitems <= r.pitem.Length && r.nrules <= r.heads.Length
    && HeadsAre(r.heads[..r.nrules], r.rules) && r.pitem[..r.nitems] == Layout(r.rules)
  }

  ghost predicate LhsAre(m: Numbering, rules: seq<SymRule>, n: nat, rlhs: seq<int>) {
    && 3 <= n <= |rules| && |rlhs| == n && rlhs[0] == 0 && rlhs[1] == 0 && rlhs[2] == m.ntokens
    && forall k :: 3 <= k < n ==> rlhs[k] == IndexOf(m, rules[k].lhs)
  }

  // The precedences of the first n rules; the three rules that come before those of the grammar file have none.
  ghost predicate PrecsAre(buckets: map<Sym, Bucket>, rules: seq<SymRule>, n: nat, rulePrec: seq<int>, ruleAssoc: seq<int>) {
    && n <= |rules| && |rulePrec| == |ruleAssoc| == n && (forall k :: 0 <= k < 3 && k < n ==> rulePrec[k] == 0)
    && forall k :: 3 <= k < n ==> (rulePrec[k], ruleAssoc[k]) == RulePrec(buckets, rules[k])
  }

  // One rule more.
  lemma PackedStep(m: Numbering, rules: seq<SymRule>, n: int, ritem: seq<int>, rrhs: seq<int>)
    requires 3 <= n < |rules| && ritem == PackedItems(m, rules, n) && StartsAre(m, rules, n, rrhs + [|ritem|])
    ensures var ritem' := ritem + Numbers(m, rules[n].rhs) + [-n];
            ritem' == PackedItems(m, rules, n + 1) && StartsAre(m, rules, n + 1, rrhs + [|ritem|] + [|ritem'|])
  {
  }

  lemma LhsStep(m: Numbering, rules: seq<SymRule>, n: nat, rlhs: seq<int>)
    requires n < |rules| && LhsAre(m, rules, n, rlhs)
    ensures LhsAre(m, rules, n + 1, rlhs + [IndexOf(m, rules[n].lhs)])
  {
  }

  lemma PrecsStep(buckets: map<Sym, Bucket>, rules: seq<SymRule>, n: nat, rulePrec: seq<int>, ruleAssoc: seq<int>, prec: int, assoc: int)
    requires 3 <= n < |rules| && PrecsAre(buckets, rules, n, rulePrec, ruleAssoc) && (prec, assoc) == RulePrec(buckets, rules[n])
    ensures PrecsAre(buckets, rules, n + 1, rulePrec + [prec], ruleAssoc + [assoc])
  {
  }

  lemma PackedStart(m: Numbering, rules: seq<SymRule>, buckets: map<Sym, Bucket>)
    requires 3 <= |rules|
    ensures var ritem := [-1, m.ntokens + 1, 0, -2];
            ritem == PackedItems(m, rules, 3) && StartsAre(m, rules, 3, [0, 0, 1] + [|ritem|])
    ensures LhsAre(m, rules, 3, [0, 0, m.ntokens]) && PrecsAre(buckets, rules, 3, [0, 0, 0], [TOKEN, TOKEN, TOKEN])
  {
  }

  /** pack_grammar */
  method PackGrammar(r: GrammarReader, m: Numbering, buckets: map<Sym, Bucket>, goal: Sym)
    returns (g: Grammar, rulePrec: seq<int>, ruleAssoc: seq<int>)
    requires Holds(r) && RulesOk(r.rules, buckets, r.gensym) && NumberingOk(buckets, goal, m) && m.ntokens >= 2
    ensures g.ntokens == m.ntokens && g.nsyms == m.nsyms && Valid(g) && Decodes(g, Numbered(m, r.rules))
    ensures PrecsAre(buckets, r.rules, |r.rules|, rulePrec, ruleAssoc)
  {
    hide Valid, Decodes, RulesOk, NumberingOk, Layout, PackedItems, StartsAre, LhsAre, PrecsAre, Numbers;
    IndexFacts(buckets, goal, m);
    var ritem := [-1, m.index[goal], 0, -2];
    var rlhs := [0, 0, m.ntokens];
    var rrhs := [0, 0, 1];
    rulePrec, ruleAssoc := [0, 0, 0], [TOKEN, TOKEN, TOKEN];
    ghost var rules := r.rules;
    PackedStart(m, rules, buckets);
    var i := 3;
    while i < r.nrules
      invariant 3 <= i <= r.nrules && ritem == PackedItems(m, rules, i) && StartsAre(m, rules, i, rrhs + [|ritem|])
      invariant LhsAre(m, rules, i, rlhs) && PrecsAre(buckets, rules, i, rulePrec, ruleAssoc)
    {
      HeadAt(r.heads[..r.nrules], rules, i);
      RuleInTable(rules, buckets, r.gensym, i);
      ItemsAt(r, m, i);
      PackedStep(m, rules, i, ritem, rrhs);
      LhsStep(m, rules, i, rlhs);
      var head := r.heads[i];
      rlhs := rlhs + [m.index[head.lhs.value]];
      rrhs := rrhs + [|ritem|];
      var prec, assoc;
      ritem, prec, assoc := PackRule(r.pitem, m, buckets, ritem, rules[i].rhs);
      ritem := ritem + [-i];
      if head.prec != UNDEFINED {
        prec, assoc := head.prec, head.assoc;
      }
      PrecsStep(buckets, rules, i, rulePrec, ruleAssoc, prec, assoc);
      rulePrec := rulePrec + [prec];
      ruleAssoc := ruleAssoc + [assoc];
      i := i + 1;
    }
    g := Grammar(m.ntokens, m.nsyms, ritem, rlhs, rrhs + [|ritem|]);
    UnpackedLhs(m, rules, rlhs);
    PackedDecodes(g, m, rules, buckets, goal, r.gensym);
    PackedValid(g, m, rules, buckets, goal, r.gensym);
  }

  lemma UnpackedLhs(m: Numbering, rules: seq<SymRule>, rlhs: seq<int>)
    requires LhsAre(m, rules, |rules|, rlhs)
    ensures |rlhs| == |rules| && rlhs[0] == 0 && rlhs[1] == 0 && rlhs[2] == m.ntokens
    ensures forall k :: 3 <= k < |rules| ==> rlhs[k] == IndexOf(m, rules[k].lhs)
  {
  }

  lemma IndexFacts(buckets: map<Sym, Bucket>, goal: Sym, m: Numbering)
    requires NumberingOk(buckets, goal, m)
    ensures goal in m.index && m.index[goal] == m.ntokens + 1 && m.index.Keys == buckets.Keys
  {
  }

  lemma HeadAt(heads: seq<Head>, rules: seq<SymRule>, i: int)
    requires HeadsAre(heads, rules) && 3 <= i < |rules|
    ensures |heads| == |rules| && heads[i] == HeadOf(rules[i])
  {
  }

  lemma RuleInTable(rules: seq<SymRule>, buckets: map<Sym, Bucket>, gensym: nat, i: int)
    requires RulesOk(rules, buckets, gensym) && 3 <= i < |rules|
    ensures RuleOk(rules[i], buckets)
  {
  }

  lemma ItemsAt(r: GrammarReader, m: Numbering, i: int)
    requires Holds(r) && 3 <= i < |r.rules|
    ensures var n, k := |PackedItems(m, r.rules, i)|, |r.rules[i].rhs|;
            n + k < r.pitem.Length && r.pitem[n..n + k + 1] == Somes(r.rules[i].rhs) + [None]
  {
    LayoutLength(m, r.rules, i);
    LayoutAt(r.rules, i, |r.rules|);
    assert r.rules[..|r.rules|] == r.rules;
    var n, k, rhs := |PackedItems(m, r.rules, i)|, |r.rules[i].rhs|, Somes(r.rules[i].rhs) + [None];
    var items := r.pitem[..r.nitems];
    assert Layout(r.rules[..i]) + rhs <= items;
    assert (Layout(r.rules[..i]) + rhs)[n..n + k + 1] == rhs;
    assert items[n..n + k + 1] == rhs;
  }

  // What follows rule r leaves its items alone.
  lemma {:induction false} ItemsOf(m: Numbering, rules: seq<SymRule>, r: int, n: int)
    requires 3 <= r < n <= |rules|
    ensures PackedItems(m, rules, r + 1) <= PackedItems(m, rules, n)
    decreases n
  {
    if r + 1 < n {
      ItemsOf(m, rules, r, n - 1);
      PrefixTrans(PackedItems(m, rules, r + 1), PackedItems(m, rules, n - 1), Numbers(m, rules[n - 1].rhs) + [1 - n]);
      assert PackedItems(m, rules, n) == PackedItems(m, rules, n - 1) + (Numbers(m, rules[n - 1].rhs) + [1 - n]);
    }
  }

  // g holds these rules, packed.
  ghost predicate IsPacked(g: Grammar, m: Numbering, rules: seq<SymRule>) {
    && g.ntokens == m.ntokens && g.nsyms == m.nsyms && |rules| >= 3
    && g.ritem == PackedItems(m, rules, |rules|) && StartsAre(m, rules, |rules|, g.rrhs)
    && |g.rlhs| == |rules| && g.rlhs[0] == 0 && g.rlhs[1] == 0 && g.rlhs[2] == m.ntokens
    && forall k :: 3 <= k < |rules| ==> g.rlhs[k] == IndexOf(m, rules[k].lhs)
  }

  lemma PackedSlice(g: Grammar, m: Numbering, rules: seq<SymRule>, r: int)
    requires IsPacked(g, m, rules) && 3 <= r < |rules|
    ensures 4 <= g.rrhs[r] < g.rrhs[r + 1] <= |g.ritem|
    ensures g.ritem[g.rrhs[r]..g.rrhs[r + 1]] == Numbers(m, rules[r].rhs) + [-r]
  {
    ItemsOf(m, rules, r, |rules|);
    FirstItems(m, rules, r);
    var p, q := PackedItems(m, rules, r), PackedItems(m, rules, r + 1);
    assert q == p + (Numbers(m, rules[r].rhs) + [-r]);
    assert g.ritem[|p|..|q|] == q[|p|..|q|];
  }

  lemma {:induction false} FirstItems(m: Numbering, rules: seq<SymRule>, n: int)
    requires 3 <= n <= |rules|
    ensures PackedItems(m, rules, 3) <= PackedItems(m, rules, n)
    decreases n
  {
    if n > 3 {
      FirstItems(m, rules, n - 1);
    }
  }

  lemma NumbersInRange(buckets: map<Sym, Bucket>, goal: Sym, m: Numbering, q: seq<Sym>)
    requires NumberingOk(buckets, goal, m) && forall x :: x in q ==> x in buckets
    ensures forall k :: 0 <= k < |q| ==> 1 <= Numbers(m, q)[k] < m.nsyms && Numbers(m, q)[k] != m.ntokens
  {
    forall k | 0 <= k < |q|
      ensures 1 <= Numbers(m, q)[k] < m.nsyms && Numbers(m, q)[k] != m.ntokens
    {
      assert q[k] in q && q[k] in m.index;
    }
  }

  lemma PackedDecodes(g: Grammar, m: Numbering, rules: seq<SymRule>, buckets: map<Sym, Bucket>, goal: Sym, gensym: nat)
    requires IsPacked(g, m, rules) && RulesOk(rules, buckets, gensym) && NumberingOk(buckets, goal, m)
    ensures Decodes(g, Numbered(m, rules))
  {
    hide NumberingOk, RulesOk;
    forall r | 3 <= r < |rules|
      ensures RuleIs(g, r, Numbered(m, rules)[r])
    {
      PackedSlice(g, m, rules, r);
      RuleInTable(rules, buckets, gensym, r);
      NumbersInRange(buckets, goal, m, rules[r].rhs);
    }
  }

  // No item is 0 or $accept, but for the first ones.
  lemma {:induction false} ItemsInRange(m: Numbering, rules: seq<SymRule>, buckets: map<Sym, Bucket>, goal: Sym, gensym: nat, n: int)
    requires RulesOk(rules, buckets, gensym) && NumberingOk(buckets, goal, m) && 3 <= n <= |rules|
    ensures var q := PackedItems(m, rules, n);
            |q| >= 4 && forall i :: 3 <= i < |q| ==> q[i] != 0 && q[i] != m.ntokens && q[i] < m.nsyms
    decreases n
  {
    hide NumberingOk, RulesOk;
    if n > 3 {
      ItemsInRange(m, rules, buckets, goal, gensym, n - 1);
      RuleInTable(rules, buckets, gensym, n - 1);
      NumbersInRange(buckets, goal, m, rules[n - 1].rhs);
    }
  }

  lemma PackedRuleValid(g: Grammar, m: Numbering, rules: seq<SymRule>, buckets: map<Sym, Bucket>, goal: Sym, gensym: nat, r: int)
    requires IsPacked(g, m, rules) && RulesOk(rules, buckets, gensym) && NumberingOk(buckets, goal, m) && 3 <= r < |rules|
    ensures ValidRule(g, r) && m.ntokens < g.rlhs[r] < m.nsyms
  {
    hide RulesOk;
    PackedSlice(g, m, rules, r);
    RuleInTable(rules, buckets, gensym, r);
    NumbersInRange(buckets, goal, m, rules[r].rhs);
    var slice := g.ritem[g.rrhs[r]..g.rrhs[r + 1]];
    assert forall i :: g.rrhs[r] <= i < g.rrhs[r + 1] ==> g.ritem[i] == slice[i - g.rrhs[r]];
    assert rules[r].lhs in m.index;
  }

  // Rule 2 is `$accept : goal $end`.
  lemma PackedFirst(g: Grammar, m: Numbering, rules: seq<SymRule>)
    requires IsPacked(g, m, rules)
    ensures |g.ritem| >= 4 && g.ritem[0] == -1 && g.ritem[1] == m.ntokens + 1 && g.ritem[2] == 0 && g.ritem[3] == -2
    ensures |g.rrhs| == |rules| + 1 && g.rrhs[3] == 4 && g.rrhs[|rules|] == |g.ritem|
  {
    FirstItems(m, rules, |rules|);
    assert PackedItems(m, rules, 3) == g.ritem[..4];
    assert forall i :: 0 <= i < 4 ==> g.ritem[i] == g.ritem[..4][i];
  }

  lemma GoalNumber(buckets: map<Sym, Bucket>, goal: Sym, m: Numbering)
    requires NumberingOk(buckets, goal, m)
    ensures m.ntokens + 2 <= m.nsyms
  {
    assert goal in buckets && m.index[goal] == m.ntokens + 1;
  }

  lemma PackedValid(g: Grammar, m: Numbering, rules: seq<SymRule>, buckets: map<Sym, Bucket>, goal: Sym, gensym: nat)
    requires IsPacked(g, m, rules) && RulesOk(rules, buckets, gensym) && NumberingOk(buckets, goal, m) && m.ntokens >= 2
    ensures Valid(g)
  {
    hide RulesOk, NumberingOk, PackedItems;
    PackedFirst(g, m, rules);
    GoalNumber(buckets, goal, m);
    ItemsInRange(m, rules, buckets, goal, gensym, |rules|);
    forall r | 3 <= r < |rules|
      ensures ValidRule(g, r) && m.ntokens < g.rlhs[r] < m.nsyms
    {
      PackedRuleValid(g, m, rules, buckets, goal, gensym, r);
    }
  }

  // The numbers of the made-up symbols.
  ghost function MadeUp(m: Numbering): set<int> {
    set x | x in m.index && x.Gensym? :: m.index[x]
  }

  lemma MadeUpNumber(buckets: map<Sym, Bucket>, goal: Sym, m: Numbering, x: Sym)
    requires NumberingOk(buckets, goal, m) && x in buckets
    ensures x in m.index && (m.index[x] in MadeUp(m) <==> x.Gensym?)
  {
  }

  // Erasing made-up symbols and numbering the rest can be done in either order.
  lemma {:induction false} BareNumbers(buckets: map<Sym, Bucket>, goal: Sym, m: Numbering, q: seq<Sym>)
    requires NumberingOk(buckets, goal, m) && forall x :: x in q ==> x in buckets
    ensures Without(Numbers(m, q), MadeUp(m)) == Numbers(m, Bare(q))
  {
    hide NumberingOk;
    if q != [] {
      var rest, x := q[..|q| - 1], q[|q| - 1];
      assert x in q;
      BareNumbers(buckets, goal, m, rest);
      MadeUpNumber(buckets, goal, m, x);
      assert Numbers(m, q) == Numbers(m, rest) + [m.index[x]];
      WithoutAppend(Numbers(m, rest), [m.index[x]], MadeUp(m));
      assert Without([m.index[x]], MadeUp(m)) == if x.Gensym? then [] else [m.index[x]];
      assert Numbers(m, Bare(q)) == Numbers(m, Bare(rest)) + if x.Gensym? then [] else [m.index[x]];
    }
  }

  lemma {:induction false} StrippedHas(rules: seq<SymRule>, k: nat)
    requires 3 <= k < |rules| && !rules[k].lhs.Gensym?
    ensures rules[k].(rhs := Bare(rules[k].rhs)) in Stripped(rules)
    decreases |rules|
  {
    if k < |rules| - 1 {
      StrippedHas(rules[..|rules| - 1], k);
    }
  }

  lemma {:induction false} StrippedFrom(rules: seq<SymRule>, r: SymRule) returns (k: nat)
    requires r in Stripped(rules)
    ensures 3 <= k < |rules| && !rules[k].lhs.Gensym? && r == rules[k].(rhs := Bare(rules[k].rhs))
    decreases |rules|
  {
    if r in Stripped(rules[..|rules| - 1]) {
      k := StrippedFrom(rules[..|rules| - 1], r);
    } else {
      k := |rules| - 1;
    }
  }

  lemma NumberedRule(buckets: map<Sym, Bucket>, goal: Sym, m: Numbering, rules: seq<SymRule>, gensym: nat, k: nat)
    requires NumberingOk(buckets, goal, m) && RulesOk(rules, buckets, gensym) && 3 <= k < |rules|
    ensures var r, n := rules[k], Numbered(m, rules)[k];
            && r.lhs in buckets && r.lhs in m.index && n.lhs == m.index[r.lhs] && (n.lhs in MadeUp(m) <==> r.lhs.Gensym?)
            && Without(n.rhs, MadeUp(m)) == Numbers(m, Bare(r.rhs)) && (r.lhs.Gensym? ==> r.rhs == [] && n.rhs == [])
  {
    hide NumberingOk, RulesOk;
    RuleInTable(rules, buckets, gensym, k);
    MadeUpNumber(buckets, goal, m, rules[k].lhs);
    BareNumbers(buckets, goal, m, rules[k].rhs);
  }

  // Every made-up symbol is a variable, and has its rule.
  lemma MadeUpRule(buckets: map<Sym, Bucket>, goal: Sym, m: Numbering, list: seq<Sym>, rules: seq<SymRule>, gensym: nat, x: Sym)
    requires NumberingOk(buckets, goal, m) && RulesOk(rules, buckets, gensym) && TableOk(list, buckets, gensym) && x in m.index && x.Gensym?
    ensures m.index[x] >= m.ntokens && HasRule(Numbered(m, rules), 3, Rule(m.index[x], []))
  {
    assert x in buckets && HasEmptyRule(rules, x.n);
    var k :| 3 <= k < |rules| && rules[k].lhs == Gensym(x.n);
    NumberedRule(buckets, goal, m, rules, gensym, k);
    assert Numbered(m, rules)[k] == Rule(m.index[x], []);
  }

  /** The packed rules are the source rules with the made-up symbols put in. */
  lemma StrippedExpands(buckets: map<Sym, Bucket>, goal: Sym, m: Numbering, list: seq<Sym>, rules: seq<SymRule>, gensym: nat)
    requires NumberingOk(buckets, goal, m) && RulesOk(rules, buckets, gensym) && TableOk(list, buckets, gensym)
    ensures Expands(Numbered(m, rules), 3, Numbered(m, Stripped(rules)), MadeUp(m), m.ntokens)
  {
    hide NumberingOk, RulesOk, TableOk, Stripped, Bare, Numbers, Without;
    var p, source, q := Numbered(m, rules), Stripped(rules), Numbered(m, Stripped(rules));
    forall n | n in MadeUp(m)
      ensures n >= m.ntokens && HasRule(p, 3, Rule(n, []))
    {
      var x :| x in m.index && x.Gensym? && m.index[x] == n;
      MadeUpRule(buckets, goal, m, list, rules, gensym, x);
    }
    forall k: nat | 3 <= k < |p|
      ensures p[k].lhs in MadeUp(m) ==> p[k].rhs == []
      ensures p[k].lhs !in MadeUp(m) ==> HasRule(q, 0, Rule(p[k].lhs, Without(p[k].rhs, MadeUp(m))))
    {
      NumberedRule(buckets, goal, m, rules, gensym, k);
      if !rules[k].lhs.Gensym? {
        StrippedHas(rules, k);
        var j :| 0 <= j < |source| && source[j] == rules[k].(rhs := Bare(rules[k].rhs));
        assert q[j] == Rule(p[k].lhs, Without(p[k].rhs, MadeUp(m)));
      }
    }
    forall j | 0 <= j < |q|
      ensures q[j].lhs !in MadeUp(m) && HasRuleBut(p, 3, MadeUp(m), q[j])
    {
      assert source[j] in source;
      var k := StrippedFrom(rules, source[j]);
      NumberedRule(buckets, goal, m, rules, gensym, k);
      assert p[k].lhs == q[j].lhs && Without(p[k].rhs, MadeUp(m)) == q[j].rhs;
    }
  }
}
