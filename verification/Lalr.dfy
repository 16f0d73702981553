/** Computation of the look-ahead sets (byacc-1.9/lalr.c). */
module Lalr {
  import opened Wrappers
  import opened Grammar
  import opened Closures
  import opened Automata
  import opened BitRows
  import opened Relations
  import opened Seqs
  import opened Digraph
  import opened Gotos
  import opened Completeness
  import opened Lookaheads
  import opened Contexts
  import Lr0

  // The tokens that state s can shift.
  ghost predicate ShiftsToken(g: Grammar, a: Automaton, s: nat, k: nat) {
    k < g.ntokens && exists t :: Trans(a, s, k, t)
  }

  // Some of the first n shifts of state s is on symbol x.
  ghost predicate OnAmong(a: Automaton, s: nat, n: nat, x: int) {
    s < |a.shifts| && exists j :: 0 <= j < n && j < |a.shifts[s]| && a.shifts[s][j] < |a.acc| && a.acc[a.shifts[s][j]] == x
  }

  lemma OnAmongAll(g: Grammar, a: Automaton, s: nat, x: int)
    requires Valid(g) && Canonical(g, a) && s < |a.shifts|
    ensures OnAmong(a, s, |a.shifts[s]|, x) <==> exists t :: Trans(a, s, x, t)
  {
    StateShifts(g, a, s);
    if t :| Trans(a, s, x, t) {
      assert t in a.shifts[s];
    }
    if OnAmong(a, s, |a.shifts[s]|, x) {
      var j :| 0 <= j < |a.shifts[s]| && a.shifts[s][j] < |a.acc| && a.acc[a.shifts[s][j]] == x;
      assert Trans(a, s, x, a.shifts[s][j]);
    }
  }

  lemma ShiftTrans(g: Grammar, a: Automaton, s: nat, j: nat)
    requires Valid(g) && Canonical(g, a) && s < |a.shifts| && j < |a.shifts[s]|
    ensures a.shifts[s][j] < |a.acc| && Trans(a, s, a.acc[a.shifts[s][j]], a.shifts[s][j])
    ensures 0 < a.acc[a.shifts[s][j]] < g.nsyms
    ensures forall x :: OnAmong(a, s, j + 1, x) <==> OnAmong(a, s, j, x) || x == a.acc[a.shifts[s][j]]
  {
    hide Valid, Canonical, OnAmong;
    ShiftFacts(g, a, s, j);
    forall x
      ensures OnAmong(a, s, j + 1, x) <==> OnAmong(a, s, j, x) || x == a.acc[a.shifts[s][j]]
    {
      OneMoreShift(a, s, j, x);
    }
  }

  lemma OneMoreShift(a: Automaton, s: nat, j: nat, x: int)
    requires s < |a.shifts| && j < |a.shifts[s]| && a.shifts[s][j] < |a.acc|
    ensures OnAmong(a, s, j + 1, x) <==> OnAmong(a, s, j, x) || x == a.acc[a.shifts[s][j]]
  {
  }

  // After the first nonterminal, the shifts of a state are on nonterminals only.
  lemma TokensFirst(g: Grammar, a: Automaton, s: nat, i: nat, j: nat)
    requires Valid(g) && Canonical(g, a) && s < |a.shifts| && i <= j < |a.shifts[s]|
    requires a.shifts[s][i] < |a.acc| && g.IsVar(a.acc[a.shifts[s][i]])
    ensures a.shifts[s][j] < |a.acc| && g.IsVar(a.acc[a.shifts[s][j]])
  {
    StateShifts(g, a, s);
  }

  // The first loop over the shifts: the bits of the tokens are set.
  method ReadTokens(g: Grammar, a: Automaton, F: BitMatrix, i: nat, s: nat) returns (j: nat)
    requires Valid(g) && Canonical(g, a) && s < |a.shifts|
    requires F.Valid() && i < F.nrows && g.ntokens <= 32 * F.rowsize && F.rows[i] == {}
    modifies F, F.words
    ensures F.Valid() && F.rows == old(F.rows)[i := F.rows[i]]
    ensures forall k: nat :: k in F.rows[i] <==> k < g.ntokens && OnAmong(a, s, j, k)
    ensures j <= |a.shifts[s]| && forall x :: OnAmong(a, s, j, x) ==> g.IsToken(x)
    ensures j == |a.shifts[s]| || (a.shifts[s][j] < |a.acc| && g.IsVar(a.acc[a.shifts[s][j]]))
  {
    hide Valid, Canonical, OnAmong, Trans;
    j := 0;
    NoneAmong(a, s);
    while j < |a.shifts[s]|
      invariant j <= |a.shifts[s]| && F.Valid() && F.rows == old(F.rows)[i := F.rows[i]]
      invariant forall k: nat :: k in F.rows[i] <==> k < g.ntokens && OnAmong(a, s, j, k)
      invariant forall x :: OnAmong(a, s, j, x) ==> g.IsToken(x)
    {
      ShiftTrans(g, a, s, j);
      var symbol := a.acc[a.shifts[s][j]];
      if g.IsVar(symbol) {
        break;
      }
      F.SetBit(i, symbol);
      j := j + 1;
    }
  }

  lemma NoneAmong(a: Automaton, s: nat)
    ensures forall x :: !OnAmong(a, s, 0, x)
  {
  }

  // Goto n is read after a goto into state s, on one of the first j shifts.
  ghost predicate ReadAmong(g: Grammar, a: Automaton, m: GotoMap, s: nat, j: nat, n: nat) {
    n < |m.from| && m.from[n] == s && Nullable(g, SymbolOf(a, m, n)) && OnAmong(a, s, j, SymbolOf(a, m, n))
  }

  // The second loop over the shifts: the reads edges.
  method ReadEdges(g: Grammar, a: Automaton, m: GotoMap, nullable: seq<bool>, s: nat, j0: nat) returns (edge: seq<nat>)
    requires Valid(g) && Canonical(g, a) && ValidGotos(g, a, m) && NullableTable(g, nullable)
    requires s < |a.shifts| && j0 <= |a.shifts[s]|
    requires j0 == |a.shifts[s]| || (a.shifts[s][j0] < |a.acc| && g.IsVar(a.acc[a.shifts[s][j0]]))
    requires forall x :: OnAmong(a, s, j0, x) ==> g.IsToken(x)
    ensures forall n: nat :: n in edge <==> ReadAmong(g, a, m, s, |a.shifts[s]|, n)
  {
    hide Valid, Canonical, ValidGotos, OnAmong, Trans;
    edge := [];
    NoneRead(g, a, m, s, j0);
    var j := j0;
    while j < |a.shifts[s]|
      invariant j0 <= j <= |a.shifts[s]|
      invariant forall n: nat :: n in edge <==> ReadAmong(g, a, m, s, j, n)
    {
      ShiftTrans(g, a, s, j);
      TokensFirst(g, a, s, j0, j);
      var symbol := a.acc[a.shifts[s][j]];
      if nullable[symbol] {
        var n := MapGoto(g, a, m, s, symbol);
        OneMoreRead(g, a, m, s, j, n, symbol);
        edge := edge + [n];
      } else {
        NoMoreRead(g, a, m, s, j, symbol);
      }
      j := j + 1;
    }
  }

  lemma NoneRead(g: Grammar, a: Automaton, m: GotoMap, s: nat, j: nat)
    requires Valid(g) && forall x :: OnAmong(a, s, j, x) ==> g.IsToken(x)
    ensures forall n: nat :: !ReadAmong(g, a, m, s, j, n)
  {
    forall n: nat | ReadAmong(g, a, m, s, j, n)
      ensures false
    {
      Nullables.TokensAreNotNullable(g, SymbolOf(a, m, n));
    }
  }

  lemma OneMoreRead(g: Grammar, a: Automaton, m: GotoMap, s: nat, j: nat, n: nat, x: int)
    requires Valid(g) && Canonical(g, a) && ValidGotos(g, a, m) && Nullable(g, x) && g.IsVar(x)
    requires s < |a.shifts| && j < |a.shifts[s]| && a.shifts[s][j] < |a.acc| && a.acc[a.shifts[s][j]] == x
    requires n < |m.to| && IsGotoNo(g, a, m, n, s, x, m.to[n])
    ensures forall n': nat :: ReadAmong(g, a, m, s, j + 1, n') <==> ReadAmong(g, a, m, s, j, n') || n' == n
  {
    hide Valid, Canonical, ValidGotos, Nullable;
    ShiftTrans(g, a, s, j);
    IsItsGoto(g, a, m, n, s, x);
    assert OnAmong(a, s, j + 1, x);
    forall n': nat
      ensures ReadAmong(g, a, m, s, j + 1, n') <==> ReadAmong(g, a, m, s, j, n') || n' == n
    {
      if n' < |m.from| && m.from[n'] == s && SymbolOf(a, m, n') == x {
        GotoIsOf(g, a, m, n');
        GotoUnique(g, a, m, n, n', s, x);
      } else if n' < |m.from| {
        var y := SymbolOf(a, m, n');
        assert OnAmong(a, s, j + 1, y) <==> OnAmong(a, s, j, y) || y == x;
      }
    }
  }

  lemma NoMoreRead(g: Grammar, a: Automaton, m: GotoMap, s: nat, j: nat, x: int)
    requires Valid(g) && Canonical(g, a) && !Nullable(g, x)
    requires s < |a.shifts| && j < |a.shifts[s]| && a.shifts[s][j] < |a.acc| && a.acc[a.shifts[s][j]] == x
    ensures forall n': nat :: ReadAmong(g, a, m, s, j + 1, n') <==> ReadAmong(g, a, m, s, j, n')
  {
    ShiftTrans(g, a, s, j);
  }

  lemma IsItsGoto(g: Grammar, a: Automaton, m: GotoMap, n: nat, s: int, x: int)
    requires Valid(g) && Canonical(g, a) && n < |m.to| && IsGotoNo(g, a, m, n, s, x, m.to[n])
    ensures GotoIs(g, a, m, n, s, x)
  {
    TransFacts(g, a, s, x, m.to[n]);
  }

  // Every goto number is the goto of its own start and variable.
  lemma GotoIsOf(g: Grammar, a: Automaton, m: GotoMap, n: nat)
    requires Valid(g) && Canonical(g, a) && ValidGotos(g, a, m) && n < |m.from|
    ensures GotoIs(g, a, m, n, m.from[n], SymbolOf(a, m, n)) && g.Goal() <= SymbolOf(a, m, n) < g.nsyms
    ensures Trans(a, m.from[n], SymbolOf(a, m, n), m.to[n]) && m.from[n] < |a.shifts| && m.to[n] < |a.shifts|
  {
    var v := VarOfGoto(g, a, m, n, g.Nvars());
    TransOfGoto(g, a, m, v, n);
    IsItsGoto(g, a, m, n, m.from[n], v + g.ntokens);
    TransFacts(g, a, m.from[n], v + g.ntokens, m.to[n]);
    var i := ItemBefore(g, a, m.from[n], v + g.ntokens, m.to[n]);
    NotBeforeAccept(g, i);
  }

  // The tokens that can be shifted after goto i; DirectReads adds $end after goto 0.
  ghost function ShiftedAfter(g: Grammar, a: Automaton, m: GotoMap, i: nat): set<nat>
    requires i < |m.to|
  {
    set k: nat | k < g.ntokens && ShiftsToken(g, a, m.to[i], k)
  }

  // One turn of the loop of initialize_F: row i and the reads edges of goto i.
  method ReadRow(g: Grammar, a: Automaton, m: GotoMap, nullable: seq<bool>, F: BitMatrix, i: nat) returns (edge: seq<nat>)
    requires Valid(g) && Canonical(g, a) && ValidGotos(g, a, m) && NullableTable(g, nullable) && i < |m.from| == |m.to|
    requires F.Valid() && i < F.nrows && g.ntokens <= 32 * F.rowsize && F.rows[i] == {}
    modifies F, F.words
    ensures F.Valid() && F.rows == old(F.rows)[i := ShiftedAfter(g, a, m, i)]
    ensures Elems(edge) == ReadsGraph(g, a, m)[i]
  {
    GotoIsOf(g, a, m, i);
    var stateno := m.to[i];
    var j := ReadTokens(g, a, F, i, stateno);
    TokensAmong(g, a, stateno, j);
    edge := ReadEdges(g, a, m, nullable, stateno, j);
    RowDone(g, a, m, i, j, F.rows[i], edge);
  }

  lemma TokensAmong(g: Grammar, a: Automaton, s: nat, j: nat)
    requires Valid(g) && Canonical(g, a) && s < |a.shifts| && j <= |a.shifts[s]|
    requires j == |a.shifts[s]| || (a.shifts[s][j] < |a.acc| && g.IsVar(a.acc[a.shifts[s][j]]))
    ensures forall k: int :: g.IsToken(k) ==> (OnAmong(a, s, j, k) <==> exists t :: Trans(a, s, k, t))
  {
    StateShifts(g, a, s);
    forall k: int | g.IsToken(k)
      ensures OnAmong(a, s, j, k) <==> exists t :: Trans(a, s, k, t)
    {
      OnAmongAll(g, a, s, k);
      if OnAmong(a, s, |a.shifts[s]|, k) {
        var n :| 0 <= n < |a.shifts[s]| && a.shifts[s][n] < |a.acc| && a.acc[a.shifts[s][n]] == k;
        if j <= n {
          TokensFirst(g, a, s, j, n);
        }
      }
    }
  }

  lemma RowDone(g: Grammar, a: Automaton, m: GotoMap, i: nat, j: nat, row: set<nat>, edge: seq<nat>)
    requires Valid(g) && Canonical(g, a) && ValidGotos(g, a, m) && i < |m.from| == |m.to| && m.to[i] < |a.shifts|
    requires forall k: int :: g.IsToken(k) ==> (OnAmong(a, m.to[i], j, k) <==> exists t :: Trans(a, m.to[i], k, t))
    requires forall k: nat :: k in row <==> k < g.ntokens && OnAmong(a, m.to[i], j, k)
    requires forall n: nat :: n in edge <==> ReadAmong(g, a, m, m.to[i], |a.shifts[m.to[i]]|, n)
    ensures row == ShiftedAfter(g, a, m, i) && Elems(edge) == ReadsGraph(g, a, m)[i]
  {
    hide Valid, Canonical, ValidGotos;
    forall n: nat
      ensures n in edge <==> n in ReadsGraph(g, a, m)[i]
    {
      if n < |m.from| {
        GotoIsOf(g, a, m, n);
        OnAmongAll(g, a, m.to[i], SymbolOf(a, m, n));
      }
    }
  }

  // Each list of edges holds the row of the graph.
  ghost predicate EdgeLists(lists: seq<seq<nat>>, r: Graph) {
    |lists| == |r| && forall i :: 0 <= i < |lists| ==> Elems(lists[i]) == r[i]
  }

  lemma EdgeListsAre(lists: seq<seq<nat>>, r: Graph)
    requires EdgeLists(lists, r) && InRange(r)
    ensures Adjacency(lists) == r && ValidEdges(lists)
  {
    forall i, k | 0 <= i < |lists| && 0 <= k < |lists[i]|
      ensures lists[i][k] < |lists|
    {
      assert lists[i][k] in Elems(lists[i]);
    }
  }

  /** initialize_F: F holds the Read sets. */
  method InitializeF(g: Grammar, a: Automaton, m: GotoMap, nullable: seq<bool>) returns (F: BitMatrix)
    requires Valid(g) && Canonical(g, a) && ValidGotos(g, a, m) && NullableTable(g, nullable) && |m.from| + 2 <= Lr0.MAXSHORT
    ensures fresh(F) && fresh(F.words) && F.Valid() && F.nrows == |m.from| && F.rowsize == WordSize(g.ntokens)
    ensures Spread(ReadsGraph(g, a, m), DirectReads(g, a, m), F.rows)
  {
    hide Valid, Canonical, ValidGotos, NullableTable;
    GotoCount(g, a, m);
    F := new BitMatrix(|m.from|, WordSize(g.ntokens));
    var relation: seq<seq<nat>> := [];
    var i := 0;
    while i < |m.from|
      invariant 0 <= i <= |m.from| && F.Valid() && fresh(F) && fresh(F.words) && |relation| == i
      invariant forall j :: 0 <= j < i ==> F.rows[j] == ShiftedAfter(g, a, m, j)
      invariant forall j :: i <= j < |m.from| ==> F.rows[j] == {}
      invariant forall j :: 0 <= j < i ==> Elems(relation[j]) == ReadsGraph(g, a, m)[j]
    {
      var edge := ReadRow(g, a, m, nullable, F, i);
      relation := relation + [edge];
      i := i + 1;
    }
    F.SetBit(0, 0);
    DirectRows(g, a, m, F.rows);
    EdgeListsAre(relation, ReadsGraph(g, a, m));
    Digraph.Digraph(F, relation);
  }

  lemma GotoCount(g: Grammar, a: Automaton, m: GotoMap)
    requires Valid(g) && Canonical(g, a) && ValidGotos(g, a, m)
    ensures 0 < |m.from| == |m.to| && g.ntokens > 0
  {
    GoalGoto(g, a, m);
  }

  lemma DirectRows(g: Grammar, a: Automaton, m: GotoMap, rows: seq<set<nat>>)
    requires |rows| == |m.to| && |rows| > 0 && rows[0] == ShiftedAfter(g, a, m, 0) + {0} && g.ntokens > 0
    requires forall j :: 0 < j < |rows| ==> rows[j] == ShiftedAfter(g, a, m, j)
    ensures rows == DirectReads(g, a, m)
  {
    forall j | 0 <= j < |rows|
      ensures rows[j] == DirectReads(g, a, m)[j]
    {
      forall k: nat
        ensures k in rows[j] <==> k in DirectReads(g, a, m)[j]
      {
        assert DirectlyReads(g, a, m, j, k) <==> k < g.ntokens && ((j == 0 && k == 0) || ShiftsToken(g, a, m.to[j], k));
      }
    }
  }

  lemma {:induction false} PathUnique(g: Grammar, a: Automaton, p: int, i: int, j: int, s: int, t: int)
    requires Valid(g) && Canonical(g, a) && PathOver(g, a, p, i, j, s) && PathOver(g, a, p, i, j, t)
    ensures s == t
    decreases j
  {
    hide Valid, Canonical, Trans;
    if i < j {
      var j' := j - 1;
      var u :| PathOver(g, a, p, i, j', u) && Trans(a, u, g.ritem[j'], s);
      var v :| PathOver(g, a, p, i, j', v) && Trans(a, v, g.ritem[j'], t);
      PathUnique(g, a, p, i, j', u, v);
      TransUnique(g, a, u, g.ritem[j'], s, t);
    }
  }

  // The successor of a state on a symbol, searched for among its shifts.
  method FindShift(g: Grammar, a: Automaton, s: nat, x: int) returns (stateno: nat)
    requires Valid(g) && Canonical(g, a) && exists t :: Trans(a, s, x, t)
    ensures Trans(a, s, x, stateno) && stateno < |a.shifts|
  {
    hide Valid, Canonical;
    ghost var t :| Trans(a, s, x, t);
    StateOfTrans(g, a, s, x, t);
    stateno := s;
    var j := 0;
    while j < |a.shifts[s]|
      invariant 0 <= j <= |a.shifts[s]|
      invariant forall n :: 0 <= n < j ==> a.shifts[s][n] < |a.acc| && a.acc[a.shifts[s][n]] != x
    {
      ShiftFacts(g, a, s, j);
      stateno := a.shifts[s][j];
      if a.acc[stateno] == x {
        return;
      }
      j := j + 1;
    }
  }

  // states[n] is reached from p over the first n symbols of rule r.
  ghost predicate StatesAlong(g: Grammar, a: Automaton, p: int, r: nat, states: seq<nat>) {
    && 3 <= r < |g.rlhs| && r + 1 < |g.rrhs| && |states| > 0
    && (forall n :: 0 <= n < |states| ==> ReachedAfter(g, a, p, r, n, states[n]))
    && (forall n :: 0 <= n && n + 1 < |states| ==> OneStep(g, a, r, states, n))
  }

  // The first n symbols of rule r lead from p to s.
  ghost predicate ReachedAfter(g: Grammar, a: Automaton, p: int, r: nat, n: nat, s: nat) {
    r < |g.rrhs| && 0 <= g.rrhs[r] + n <= |g.ritem| && PathOver(g, a, p, g.rrhs[r], g.rrhs[r] + n, s)
  }

  ghost predicate OneStep(g: Grammar, a: Automaton, r: nat, states: seq<nat>, n: nat) {
    n + 1 < |states| && r < |g.rrhs| && 0 <= g.rrhs[r] + n < |g.ritem| && Trans(a, states[n], g.ritem[g.rrhs[r] + n], states[n + 1])
  }

  // One symbol further along the rule.
  lemma AlongStep(g: Grammar, a: Automaton, p: int, r: nat, states: seq<nat>, t: nat)
    requires Valid(g) && StatesAlong(g, a, p, r, states) && ItemOf(g, g.rrhs[r] + |states| - 1, r)
    requires g.rrhs[r] + |states| - 1 < |g.ritem| && Trans(a, states[|states| - 1], g.ritem[g.rrhs[r] + |states| - 1], t)
    ensures StatesAlong(g, a, p, r, states + [t])
  {
    hide Valid, Trans;
    var n := |states|;
    var states' := states + [t];
    assert ReachedAfter(g, a, p, r, n - 1, states[n - 1]);
    assert g.rrhs[r] + n - 1 == (g.rrhs[r] + n) - 1;
    assert ReachedAfter(g, a, p, r, n, t);
    forall k | 0 <= k && k + 1 < |states'|
      ensures OneStep(g, a, r, states', k)
    {
      assert k + 1 < |states| ==> OneStep(g, a, r, states, k);
    }
  }

  // The walk over the right-hand side of rule r, from state p.
  method WalkRule(g: Grammar, a: Automaton, p: nat, r: nat) returns (states: seq<nat>)
    requires Valid(g) && Canonical(g, a) && 3 <= r < |g.rlhs| && exists q :: Trans(a, p, g.rlhs[r], q)
    ensures StatesAlong(g, a, p, r, states) && |states| == RuleLength(g, r) + 1 > 0
    ensures states[|states| - 1] < |a.shifts| && r in a.reds[states[|states| - 1]]
  {
    hide Valid, Canonical, Trans, HasItem;
    ghost var q :| Trans(a, p, g.rlhs[r], q);
    RuleStarts(g, a, p, r, q);
    StateOfTrans(g, a, p, g.rlhs[r], q);
    ItemStep(g, g.rrhs[r], r);
    var stateno := p;
    states := [stateno];
    var rp := g.rrhs[r];
    while g.ritem[rp] >= 0
      invariant g.rrhs[r] <= rp && ItemOf(g, rp, r) && 1 <= rp < |g.ritem| && HasItem(g, a, stateno, rp) && stateno < |a.shifts|
      invariant |states| == rp - g.rrhs[r] + 1 && StatesAlong(g, a, p, r, states) && states[|states| - 1] == stateno
      decreases |g.ritem| - rp
    {
      ItemStep(g, rp, r);
      SymbolPositive(g, rp, r);
      ghost var t := Advanced(g, a, stateno, rp);
      var next := FindShift(g, a, stateno, g.ritem[rp]);
      TransUnique(g, a, stateno, g.ritem[rp], next, t);
      AlongStep(g, a, p, r, states, next);
      stateno := next;
      states := states + [stateno];
      ItemStep(g, rp + 1, r);
      rp := rp + 1;
    }
    ItemStep(g, rp, r);
    RuleInReds(g, a, stateno, r, rp);
  }

  lemma SymbolPositive(g: Grammar, i: int, r: int)
    requires Valid(g) && 3 <= r && ItemOf(g, i, r) && 0 <= i < |g.ritem| && g.ritem[i] >= 0
    ensures g.ritem[i] > 0
  {
    if 3 < r { RuleStartsIncrease(g, 3, r); }
  }

  lemma RuleInReds(g: Grammar, a: Automaton, s: nat, r: nat, i: int)
    requires Valid(g) && Canonical(g, a) && s < |a.shifts| && HasItem(g, a, s, i) && 1 <= i < |g.ritem| && g.ritem[i] + r == 0 && r > 0
    ensures s < |a.reds| && r in a.reds[s]
  {
    assert RedsExact(g, a.kernels[s], a.reds[s]);
    assert Completes(g, a.kernels[s], r);
  }

  // Goto n includes goto i by rule r, at or behind item pos.
  ghost predicate IncludesFrom(g: Grammar, a: Automaton, m: GotoMap, i: nat, r: nat, pos: int, n: nat) {
    exists pos' :: pos <= pos' && IncludesAt(g, a, m, n, i, r, pos')
  }

  // The variable at item pos, with only nullable symbols behind it, gives one more edge: goto n.
  lemma OneMoreInclude(g: Grammar, a: Automaton, m: GotoMap, i: nat, r: nat, pos: int, s: int, n: nat)
    requires Valid(g) && Canonical(g, a) && ValidGotos(g, a, m) && IncludesAt(g, a, m, n, i, r, pos)
    ensures forall n': nat :: IncludesFrom(g, a, m, i, r, pos, n') <==> IncludesFrom(g, a, m, i, r, pos + 1, n') || n' == n
  {
    hide Valid, Canonical, ValidGotos, PathOver, RestNullable;
    forall n': nat
      ensures IncludesFrom(g, a, m, i, r, pos, n') <==> IncludesFrom(g, a, m, i, r, pos + 1, n') || n' == n
    {
      if IncludesAt(g, a, m, n', i, r, pos) {
        PathUnique(g, a, m.from[i], g.rrhs[r], pos, m.from[n], m.from[n']);
        GotoIsOf(g, a, m, n);
        GotoIsOf(g, a, m, n');
        GotoUnique(g, a, m, n, n', m.from[n], SymbolOf(a, m, n));
      }
    }
  }

  // Nothing in front of a symbol that is not nullable, or of the whole rule, gives an edge.
  lemma NoMoreIncludes(g: Grammar, a: Automaton, m: GotoMap, i: nat, r: nat, pos: int)
    requires Valid(g) && 3 <= r < |g.rlhs| && (pos <= g.rrhs[r] || (ItemOf(g, pos, r) && !RestNullable(g, pos)))
    ensures forall n: nat :: IncludesFrom(g, a, m, i, r, g.rrhs[r], n) ==> IncludesFrom(g, a, m, i, r, pos, n)
  {
    forall n: nat | IncludesFrom(g, a, m, i, r, g.rrhs[r], n)
      ensures IncludesFrom(g, a, m, i, r, pos, n)
    {
      var pos' :| g.rrhs[r] <= pos' && IncludesAt(g, a, m, n, i, r, pos');
      if pos' < pos {
        RestBehind(g, r, pos' + 1, pos);
      }
    }
  }

  lemma {:induction false} RestBehind(g: Grammar, r: nat, i: int, j: int)
    requires Valid(g) && RestNullable(g, i) && ItemOf(g, i, r) && ItemOf(g, j, r) && i <= j
    ensures RestNullable(g, j)
    decreases j - i
  {
    assert ValidRule(g, r);
    if i < j {
      RestBehind(g, r, i + 1, j);
    }
  }

  /** The loop of build_relations over one rule from its end: the gotos that goto i is included in. */
  method RuleEdges(g: Grammar, a: Automaton, m: GotoMap, nullable: seq<bool>, i: nat, r: nat, states: seq<nat>, edge0: seq<nat>)
    returns (edge: seq<nat>)
    requires Valid(g) && Canonical(g, a) && ValidGotos(g, a, m) && NullableTable(g, nullable)
    requires i < |m.from| && 3 <= r < |g.rlhs| && g.rlhs[r] == SymbolOf(a, m, i)
    requires StatesAlong(g, a, m.from[i], r, states) && |states| == RuleLength(g, r) + 1
    ensures forall n: nat :: n in edge <==> n in edge0 || exists pos :: IncludesAt(g, a, m, n, i, r, pos)
  {
    hide Valid, Canonical, ValidGotos, NullableTable, StatesAlong, RestNullable, PathOver, IncludesFrom, IncludesAt;
    edge := edge0;
    RuleFacts(g, r);
    var rp, length := g.rrhs[r + 1] - 1, |states| - 1;
    EdgesStart(g, a, m, i, r, rp);
    var done := false;
    while !done
      invariant length == rp - g.rrhs[r] && 0 <= length < |states| && 1 <= g.rrhs[r] <= rp < g.rrhs[r + 1] <= |g.ritem|
      invariant !done ==> RestNullable(g, rp)
      invariant forall n: nat :: n in edge <==> n in edge0 || IncludesFrom(g, a, m, i, r, rp, n)
      invariant done ==> forall n: nat :: IncludesFrom(g, a, m, i, r, g.rrhs[r], n) ==> IncludesFrom(g, a, m, i, r, rp, n)
      decreases !done, rp
    {
      done := true;
      var symbol := g.ritem[rp - 1];
      if g.IsVar(symbol) {
        VarInRule(g, r, rp - 1);
        length := length - 1;
        EdgeFacts(g, a, m, i, r, states, length);
        var n := MapGoto(g, a, m, states[length], symbol);
        IncludesHere(g, a, m, i, r, states, length, n);
        OneMoreInclude(g, a, m, i, r, rp - 1, states[length], n);
        edge := edge + [n];
        NullableStep(g, nullable, rp - 1);
        if nullable[symbol] && length > 0 {
          done := false;
        } else {
          NoMoreIncludes(g, a, m, i, r, rp - 1);
        }
        rp := rp - 1;
      } else {
        TokenEnds(g, a, m, i, r, rp);
      }
    }
    AllIncludes(g, a, m, i, r, rp);
  }

  lemma RuleFacts(g: Grammar, r: nat)
    requires Valid(g) && 3 <= r < |g.rlhs|
    ensures r + 1 < |g.rrhs| && 1 <= g.rrhs[r] < g.rrhs[r + 1] <= |g.ritem|
  {
    assert ValidRule(g, r);
  }

  lemma EdgesStart(g: Grammar, a: Automaton, m: GotoMap, i: nat, r: nat, last: int)
    requires Valid(g) && 3 <= r < |g.rlhs| && r + 1 < |g.rrhs| && last == g.rrhs[r + 1] - 1
    ensures RestNullable(g, last) && forall n: nat :: !IncludesFrom(g, a, m, i, r, last, n)
  {
    assert ValidRule(g, r);
  }

  lemma VarInRule(g: Grammar, r: nat, i: int)
    requires Valid(g) && 3 <= r < |g.rlhs| && g.rrhs[r] - 1 <= i < g.rrhs[r + 1] - 1 && 0 <= i < |g.ritem| && g.IsVar(g.ritem[i])
    ensures g.rrhs[r] <= i && g.ntokens <= g.ritem[i] < g.nsyms
  {
    RuleStartsIncrease(g, 2, r);
    assert ValidRule(g, r - 1);
    SymbolInRange(g, i);
  }

  lemma EdgeFacts(g: Grammar, a: Automaton, m: GotoMap, i: nat, r: nat, states: seq<nat>, n: nat)
    requires i < |m.from| && StatesAlong(g, a, m.from[i], r, states) && n + 1 < |states|
    ensures 0 <= g.rrhs[r] + n < |g.ritem| && Trans(a, states[n], g.ritem[g.rrhs[r] + n], states[n + 1])
  {
    assert OneStep(g, a, r, states, n);
  }

  lemma IncludesHere(g: Grammar, a: Automaton, m: GotoMap, i: nat, r: nat, states: seq<nat>, k: nat, n: nat)
    requires Valid(g) && Canonical(g, a) && i < |m.from| && 3 <= r < |g.rlhs| && g.rlhs[r] == SymbolOf(a, m, i)
    requires StatesAlong(g, a, m.from[i], r, states) && k + 1 < |states| && g.rrhs[r] + k < g.rrhs[r + 1] - 1
    requires 0 <= g.rrhs[r] + k < |g.ritem| && g.IsVar(g.ritem[g.rrhs[r] + k]) && RestNullable(g, g.rrhs[r] + k + 1)
    requires n < |m.to| && IsGotoNo(g, a, m, n, states[k], g.ritem[g.rrhs[r] + k], m.to[n])
    ensures IncludesAt(g, a, m, n, i, r, g.rrhs[r] + k)
  {
    IsItsGoto(g, a, m, n, states[k], g.ritem[g.rrhs[r] + k]);
    assert ReachedAfter(g, a, m.from[i], r, k, states[k]);
  }

  lemma NullableStep(g: Grammar, nullable: seq<bool>, i: int)
    requires NullableTable(g, nullable) && 0 <= i < |g.ritem| && 0 <= g.ritem[i] < g.nsyms && RestNullable(g, i + 1)
    ensures |nullable| == g.nsyms && (nullable[g.ritem[i]] <==> RestNullable(g, i))
  {
  }

  lemma TokenEnds(g: Grammar, a: Automaton, m: GotoMap, i: nat, r: nat, pos: int)
    requires Valid(g) && 3 <= r < |g.rlhs| && g.rrhs[r] <= pos < g.rrhs[r + 1] && 1 <= pos <= |g.ritem| && !g.IsVar(g.ritem[pos - 1])
    ensures forall n: nat :: IncludesFrom(g, a, m, i, r, g.rrhs[r], n) ==> IncludesFrom(g, a, m, i, r, pos, n)
  {
    hide Nullable;
    if g.rrhs[r] < pos {
      assert ValidRule(g, r);
      if Nullable(g, g.ritem[pos - 1]) {
        Nullables.TokensAreNotNullable(g, g.ritem[pos - 1]);
      }
      NoMoreIncludes(g, a, m, i, r, pos - 1);
      forall n: nat | IncludesFrom(g, a, m, i, r, pos - 1, n)
        ensures IncludesFrom(g, a, m, i, r, pos, n)
      {
      }
    }
  }

  lemma AllIncludes(g: Grammar, a: Automaton, m: GotoMap, i: nat, r: nat, pos: int)
    requires r < |g.rrhs| && g.rrhs[r] <= pos
    requires forall n: nat :: IncludesFrom(g, a, m, i, r, g.rrhs[r], n) ==> IncludesFrom(g, a, m, i, r, pos, n)
    ensures forall n: nat :: IncludesFrom(g, a, m, i, r, pos, n) <==> exists pos :: IncludesAt(g, a, m, n, i, r, pos)
  {
    forall n: nat, pos' | IncludesAt(g, a, m, n, i, r, pos')
      ensures IncludesFrom(g, a, m, i, r, pos, n)
    {
      assert IncludesFrom(g, a, m, i, r, g.rrhs[r], n);
    }
  }

  /** lookaheads[s] is the first look-ahead row of state s; row lookaheads[s] + j is for its j-th reduction,
      by rule LAruleno of that row. */
  ghost predicate LaRows(a: Automaton, lookaheads: seq<nat>, laruleno: seq<nat>) {
    && |lookaheads| == |a.reds| + 1 && lookaheads[0] == 0 && |laruleno| == lookaheads[|a.reds|]
    && forall s :: 0 <= s < |a.reds| ==> RowsOf(a, lookaheads, laruleno, s)
  }

  ghost predicate RowsOf(a: Automaton, lookaheads: seq<nat>, laruleno: seq<nat>, s: nat) {
    && s + 1 < |lookaheads| && s < |a.reds| && lookaheads[s + 1] == lookaheads[s] + |a.reds[s]| <= |laruleno|
    && laruleno[lookaheads[s]..lookaheads[s + 1]] == a.reds[s]
  }

  lemma RowRule(a: Automaton, lookaheads: seq<nat>, laruleno: seq<nat>, s: nat, j: nat)
    requires LaRows(a, lookaheads, laruleno) && s < |a.reds| && j < |a.reds[s]|
    ensures lookaheads[s] + j < lookaheads[s + 1] <= |laruleno| && laruleno[lookaheads[s] + j] == a.reds[s][j]
  {
    assert RowsOf(a, lookaheads, laruleno, s);
    assert laruleno[lookaheads[s]..lookaheads[s + 1]][j] == a.reds[s][j];
  }

  lemma {:induction false} LaRowsMonotone(a: Automaton, lookaheads: seq<nat>, laruleno: seq<nat>, s: nat, t: nat)
    requires LaRows(a, lookaheads, laruleno) && s <= t <= |a.reds|
    ensures lookaheads[s] <= lookaheads[t]
  {
    if s < t {
      assert RowsOf(a, lookaheads, laruleno, t - 1);
      LaRowsMonotone(a, lookaheads, laruleno, s, t - 1);
    }
  }

  // A row belongs to one reduction of one state.
  lemma LaRowUnique(a: Automaton, lookaheads: seq<nat>, laruleno: seq<nat>, s: nat, j: nat, t: nat, k: nat)
    requires LaRows(a, lookaheads, laruleno) && s < |a.reds| && t < |a.reds| && j < |a.reds[s]| && k < |a.reds[t]|
    requires lookaheads[s] + j == lookaheads[t] + k
    ensures s == t && j == k
  {
    assert RowsOf(a, lookaheads, laruleno, s) && RowsOf(a, lookaheads, laruleno, t);
    if s < t {
      LaRowsMonotone(a, lookaheads, laruleno, s + 1, t);
    } else if t < s {
      LaRowsMonotone(a, lookaheads, laruleno, t + 1, s);
    }
  }

  method InitializeLA(a: Automaton) returns (lookaheads: seq<nat>, laruleno: seq<nat>)
    ensures LaRows(a, lookaheads, laruleno)
  {
    lookaheads, laruleno := [], [];
    var i := 0;
    while i < |a.reds|
      invariant 0 <= i <= |a.reds| && |lookaheads| == i && (lookaheads + [|laruleno|])[0] == 0
      invariant forall s :: 0 <= s < i ==> RowsOf(a, lookaheads + [|laruleno|], laruleno, s)
    {
      ghost var before, rules := lookaheads + [|laruleno|], laruleno;
      lookaheads := lookaheads + [|laruleno|];
      laruleno := laruleno + a.reds[i];
      forall s | 0 <= s < i + 1
        ensures RowsOf(a, lookaheads + [|laruleno|], laruleno, s)
      {
        if s < i {
          assert RowsOf(a, before, rules, s);
          assert laruleno[before[s]..before[s + 1]] == rules[before[s]..before[s + 1]];
        }
      }
      i := i + 1;
    }
    lookaheads := lookaheads + [|laruleno|];
  }

  /** lookback of each row: the gotos, paired with the rule among `done`, that the reduction looks back to. */
  ghost predicate LookbackFor(g: Grammar, a: Automaton, m: GotoMap, lookaheads: seq<nat>, laruleno: seq<nat>,
                              done: iset<(nat, nat)>, lookback: seq<seq<nat>>)
    requires LaRows(a, lookaheads, laruleno)
  {
    && |lookback| == |laruleno|
    && forall s: nat, j: nat :: s < |a.reds| && j < |a.reds[s]| ==> RowLooksBack(g, a, m, s, a.reds[s][j], lookaheads[s] + j, done, lookback)
  }

  ghost predicate RowLooksBack(g: Grammar, a: Automaton, m: GotoMap, s: nat, r: nat, row: nat, done: iset<(nat, nat)>, lookback: seq<seq<nat>>) {
    row < |lookback| && forall n: nat :: n in lookback[row] <==> (n, r) in done && LooksBack(g, a, m, s, r, n)
  }

  // add_lookback_edge: the search for the row, and the new edge at its head.
  method AddLookbackEdge(g: Grammar, a: Automaton, m: GotoMap, lookaheads: seq<nat>, laruleno: seq<nat>,
                         ghost done: iset<(nat, nat)>, lookback0: seq<seq<nat>>, stateno: nat, ruleno: nat, gotono: nat)
    returns (lookback: seq<seq<nat>>)
    requires Valid(g) && Canonical(g, a) && LaRows(a, lookaheads, laruleno) && LookbackFor(g, a, m, lookaheads, laruleno, done, lookback0)
    requires stateno < |a.reds| && ruleno in a.reds[stateno] && LooksBack(g, a, m, stateno, ruleno, gotono)
    ensures LookbackFor(g, a, m, lookaheads, laruleno, done + iset{(gotono, ruleno)}, lookback)
  {
    hide Valid, Canonical, LooksBack;
    ghost var j :| 0 <= j < |a.reds[stateno]| && a.reds[stateno][j] == ruleno;
    var i, k := lookaheads[stateno], lookaheads[stateno + 1];
    RowRule(a, lookaheads, laruleno, stateno, j);
    while laruleno[i] != ruleno
      invariant lookaheads[stateno] <= i <= lookaheads[stateno] + j
      decreases k - i
    {
      i := i + 1;
    }
    RowRule(a, lookaheads, laruleno, stateno, i - lookaheads[stateno]);
    RedsOnce(g, a, stateno, i - lookaheads[stateno], j);
    lookback := lookback0[i := [gotono] + lookback0[i]];
    forall s: nat, n: nat | s < |a.reds| && n < |a.reds[s]|
      ensures RowLooksBack(g, a, m, s, a.reds[s][n], lookaheads[s] + n, done + iset{(gotono, ruleno)}, lookback)
    {
      LookbackStep(g, a, m, lookaheads, laruleno, done, lookback0, stateno, ruleno, gotono, j, s, n);
    }
  }

  lemma RedsOnce(g: Grammar, a: Automaton, s: nat, i: nat, j: nat)
    requires Valid(g) && Canonical(g, a) && s < |a.reds| && i < |a.reds[s]| && j < |a.reds[s]| && a.reds[s][i] == a.reds[s][j]
    ensures i == j
  {
    assert RedsExact(g, a.kernels[s], a.reds[s]);
  }

  lemma LookbackStep(g: Grammar, a: Automaton, m: GotoMap, lookaheads: seq<nat>, laruleno: seq<nat>, done: iset<(nat, nat)>,
                     lookback: seq<seq<nat>>, q: nat, r: nat, i: nat, j: nat, s: nat, n: nat)
    requires Valid(g) && Canonical(g, a) && LaRows(a, lookaheads, laruleno) && LookbackFor(g, a, m, lookaheads, laruleno, done, lookback)
    requires q < |a.reds| && j < |a.reds[q]| && a.reds[q][j] == r && LooksBack(g, a, m, q, r, i) && s < |a.reds| && n < |a.reds[s]|
    ensures lookaheads[q] + j < |lookback|
    ensures RowLooksBack(g, a, m, s, a.reds[s][n], lookaheads[s] + n, done + iset{(i, r)},
                         lookback[lookaheads[q] + j := [i] + lookback[lookaheads[q] + j]])
  {
    hide Valid, Canonical, PathOver;
    assert RowLooksBack(g, a, m, q, r, lookaheads[q] + j, done, lookback);
    assert RowLooksBack(g, a, m, s, a.reds[s][n], lookaheads[s] + n, done, lookback);
    if lookaheads[s] + n == lookaheads[q] + j {
      LaRowUnique(a, lookaheads, laruleno, s, n, q, j);
    } else if LooksBack(g, a, m, s, a.reds[s][n], i) && a.reds[s][n] == r {
      PathUnique(g, a, m.from[i], g.rrhs[r], g.rrhs[r + 1] - 1, q, s);
      RedsOnce(g, a, s, n, j);
    }
  }

  ghost predicate IncludesBy(g: Grammar, a: Automaton, m: GotoMap, i: nat, rules: seq<nat>, n: nat) {
    exists r, pos :: r in rules && IncludesAt(g, a, m, n, i, r, pos)
  }

  ghost function Pairs(i: nat, rules: seq<nat>): iset<(nat, nat)> {
    iset p: (nat, nat) | p.0 == i && p.1 in rules
  }

  lemma GotoRules(g: Grammar, a: Automaton, m: GotoMap, derives: seq<seq<nat>>, i: nat)
    requires Valid(g) && Canonical(g, a) && ValidGotos(g, a, m) && DerivesTable(g, derives) && i < |m.from|
    ensures g.ntokens <= SymbolOf(a, m, i) && SymbolOf(a, m, i) - g.ntokens < |derives|
    ensures RulesFor(g, a, m, i, derives[SymbolOf(a, m, i) - g.ntokens])
  {
    GotoIsOf(g, a, m, i);
    DerivesRules(g, derives, SymbolOf(a, m, i) - g.ntokens);
  }

  lemma LooksBackTo(g: Grammar, a: Automaton, m: GotoMap, i: nat, r: nat, states: seq<nat>)
    requires Valid(g) && i < |m.from| && 3 <= r < |g.rlhs| && g.rlhs[r] == SymbolOf(a, m, i)
    requires StatesAlong(g, a, m.from[i], r, states) && |states| == RuleLength(g, r) + 1
    ensures LooksBack(g, a, m, states[|states| - 1], r, i)
  {
    assert ReachedAfter(g, a, m.from[i], r, |states| - 1, states[|states| - 1]);
  }

  // One turn of the loop of build_relations, for goto i.
  method GotoEdges(g: Grammar, a: Automaton, m: GotoMap, nullable: seq<bool>, derives: seq<seq<nat>>,
                   lookaheads: seq<nat>, laruleno: seq<nat>, i: nat, ghost done: iset<(nat, nat)>, lookback0: seq<seq<nat>>)
    returns (edge: seq<nat>, lookback: seq<seq<nat>>)
    requires Valid(g) && Canonical(g, a) && ValidGotos(g, a, m) && NullableTable(g, nullable) && DerivesTable(g, derives) && i < |m.from|
    requires LaRows(a, lookaheads, laruleno) && LookbackFor(g, a, m, lookaheads, laruleno, done, lookback0)
    ensures forall n: nat :: n in edge <==> Includes(g, a, m, n, i)
    ensures exists rules :: LookbackFor(g, a, m, lookaheads, laruleno, done + Pairs(i, rules), lookback) && RulesFor(g, a, m, i, rules)
  {
    hide Valid, Canonical, ValidGotos, NullableTable, DerivesTable, LaRows, LookbackFor, StatesAlong, IncludesAt, LooksBack;
    GotoRules(g, a, m, derives, i);
    GotoIsOf(g, a, m, i);
    var rules := derives[a.acc[m.to[i]] - g.ntokens];
    assert rules == derives[SymbolOf(a, m, i) - g.ntokens];
    edge, lookback := [], lookback0;
    var k := 0;
    assert done + Pairs(i, rules[..0]) == done;
    while k < |rules|
      invariant 0 <= k <= |rules|
      invariant forall n: nat :: n in edge <==> IncludesBy(g, a, m, i, rules[..k], n)
      invariant LookbackFor(g, a, m, lookaheads, laruleno, done + Pairs(i, rules[..k]), lookback)
    {
      var r: nat := rules[k];
      assert r in rules;
      var states := WalkRule(g, a, m.from[i], r);
      LooksBackTo(g, a, m, i, r, states);
      SameLength(g, a);
      lookback := AddLookbackEdge(g, a, m, lookaheads, laruleno, done + Pairs(i, rules[..k]), lookback, states[|states| - 1], r, i);
      edge := RuleEdges(g, a, m, nullable, i, r, states, edge);
      assert rules[..k + 1] == rules[..k] + [r];
      assert done + Pairs(i, rules[..k]) + iset{(i, r)} == done + Pairs(i, rules[..k + 1]);
      k := k + 1;
    }
    assert rules[..k] == rules;
    IncludesByAll(g, a, m, i, rules);
  }

  ghost predicate RulesFor(g: Grammar, a: Automaton, m: GotoMap, i: nat, rules: seq<nat>) {
    forall r: nat {:trigger r in rules} :: r in rules <==> 3 <= r < |g.rlhs| && g.rlhs[r] == SymbolOf(a, m, i)
  }

  lemma SameLength(g: Grammar, a: Automaton)
    requires Valid(g) && Canonical(g, a)
    ensures |a.reds| == |a.shifts| == |a.kernels|
  {
  }

  lemma IncludesByAll(g: Grammar, a: Automaton, m: GotoMap, i: nat, rules: seq<nat>)
    requires RulesFor(g, a, m, i, rules)
    ensures forall n: nat :: IncludesBy(g, a, m, i, rules, n) <==> Includes(g, a, m, n, i)
  {
    forall n: nat | Includes(g, a, m, n, i)
      ensures IncludesBy(g, a, m, i, rules, n)
    {
      var r: nat, pos: int :| IncludesAt(g, a, m, n, i, r, pos);
      assert r in rules;
    }
  }

  // The pairs of a goto below n and a rule of its variable.
  ghost function AllPairs(g: Grammar, a: Automaton, m: GotoMap, n: nat): iset<(nat, nat)> {
    iset p: (nat, nat) | p.0 < n && 3 <= p.1 < |g.rlhs| && g.rlhs[p.1] == SymbolOf(a, m, p.0)
  }

  /** The main loop of build_relations. */
  method BuildEdges(g: Grammar, a: Automaton, m: GotoMap, nullable: seq<bool>, derives: seq<seq<nat>>, lookaheads: seq<nat>, laruleno: seq<nat>)
    returns (edges: seq<seq<nat>>, lookback: seq<seq<nat>>)
    requires Valid(g) && Canonical(g, a) && ValidGotos(g, a, m) && NullableTable(g, nullable) && DerivesTable(g, derives)
    requires LaRows(a, lookaheads, laruleno)
    ensures |edges| == |m.from| && forall i: nat, n: nat :: i < |edges| ==> (n in edges[i] <==> Includes(g, a, m, n, i))
    ensures LookbackFor(g, a, m, lookaheads, laruleno, AllPairs(g, a, m, |m.from|), lookback)
  {
    hide Valid, Canonical, ValidGotos, NullableTable, DerivesTable, LaRows, LookbackFor, Includes;
    edges, lookback := [], seq(|laruleno|, _ => []);
    LookbackStart(g, a, m, lookaheads, laruleno, lookback);
    var i := 0;
    while i < |m.from|
      invariant 0 <= i <= |m.from| && |edges| == i
      invariant forall j: nat, n: nat :: j < i ==> (n in edges[j] <==> Includes(g, a, m, n, j))
      invariant LookbackFor(g, a, m, lookaheads, laruleno, AllPairs(g, a, m, i), lookback)
    {
      var edge;
      edge, lookback := GotoEdges(g, a, m, nullable, derives, lookaheads, laruleno, i, AllPairs(g, a, m, i), lookback);
      ghost var rules :| LookbackFor(g, a, m, lookaheads, laruleno, AllPairs(g, a, m, i) + Pairs(i, rules), lookback) && RulesFor(g, a, m, i, rules);
      assert AllPairs(g, a, m, i) + Pairs(i, rules) == AllPairs(g, a, m, i + 1);
      edges := edges + [edge];
      i := i + 1;
    }
  }

  lemma LookbackStart(g: Grammar, a: Automaton, m: GotoMap, lookaheads: seq<nat>, laruleno: seq<nat>, lookback: seq<seq<nat>>)
    requires LaRows(a, lookaheads, laruleno) && lookback == seq(|laruleno|, _ => [])
    ensures LookbackFor(g, a, m, lookaheads, laruleno, AllPairs(g, a, m, 0), lookback)
  {
    forall s: nat, j: nat | s < |a.reds| && j < |a.reds[s]|
      ensures RowLooksBack(g, a, m, s, a.reds[s][j], lookaheads[s] + j, AllPairs(g, a, m, 0), lookback)
    {
      RowRule(a, lookaheads, laruleno, s, j);
    }
  }

  // newR holds the edges of R that start below n, reversed.
  ghost predicate Reversed(R: seq<seq<nat>>, n: nat, newR: seq<seq<nat>>) {
    |newR| == |R| && forall i: nat, j: nat {:trigger i in newR[j]} :: j < |R| ==> (i in newR[j] <==> i < n && i < |R| && j in R[i])
  }

  /** transpose: the edges of R, reversed. */
  method Transpose(R: seq<seq<nat>>) returns (newR: seq<seq<nat>>)
    requires ValidEdges(R)
    ensures Reversed(R, |R|, newR)
  {
    newR := seq(|R|, _ => []);
    var i := 0;
    while i < |R|
      invariant 0 <= i <= |R| && Reversed(R, i, newR)
    {
      ghost var before := newR;
      var k := 0;
      while k < |R[i]|
        invariant 0 <= k <= |R[i]| && |newR| == |R|
        invariant forall n: nat, j: nat {:trigger n in newR[j]} :: j < |R| ==> (n in newR[j] <==> n in before[j] || (n == i && j in R[i][..k]))
      {
        var j := R[i][k];
        newR := newR[j := newR[j] + [i]];
        assert R[i][..k + 1] == R[i][..k] + [j];
        k := k + 1;
      }
      assert R[i][..k] == R[i];
      i := i + 1;
    }
  }

  lemma ReversedIncludes(g: Grammar, a: Automaton, m: GotoMap, edges: seq<seq<nat>>, newR: seq<seq<nat>>)
    requires |edges| == |m.from| && Reversed(edges, |edges|, newR)
    requires forall i: nat, n: nat :: i < |edges| ==> (n in edges[i] <==> Includes(g, a, m, n, i))
    ensures EdgeLists(newR, IncludesGraph(g, a, m))
  {
    forall j | 0 <= j < |newR|
      ensures Elems(newR[j]) == IncludesGraph(g, a, m)[j]
    {
      forall i: nat
        ensures i in newR[j] <==> i in IncludesGraph(g, a, m)[j]
      {
      }
    }
  }

  lemma EdgesInside(g: Grammar, a: Automaton, m: GotoMap, edges: seq<seq<nat>>)
    requires |edges| == |m.from|
    requires forall i: nat, n: nat :: i < |edges| ==> (n in edges[i] <==> Includes(g, a, m, n, i))
    ensures ValidEdges(edges)
  {
    forall i, k | 0 <= i < |edges| && 0 <= k < |edges[i]|
      ensures edges[i][k] < |edges|
    {
      assert edges[i][k] in edges[i];
      assert Includes(g, a, m, edges[i][k], i);
    }
  }

  /** build_relations: the includes relation as edge lists, and the lookback lists. */
  method BuildRelations(g: Grammar, a: Automaton, m: GotoMap, nullable: seq<bool>, derives: seq<seq<nat>>, lookaheads: seq<nat>, laruleno: seq<nat>)
    returns (includes: seq<seq<nat>>, lookback: seq<seq<nat>>)
    requires Valid(g) && Canonical(g, a) && ValidGotos(g, a, m) && NullableTable(g, nullable) && DerivesTable(g, derives)
    requires LaRows(a, lookaheads, laruleno)
    ensures EdgeLists(includes, IncludesGraph(g, a, m))
    ensures LookbackFor(g, a, m, lookaheads, laruleno, AllPairs(g, a, m, |m.from|), lookback)
  {
    hide Valid, Canonical, ValidGotos, NullableTable, DerivesTable, LookbackFor, Includes;
    var edges;
    edges, lookback := BuildEdges(g, a, m, nullable, derives, lookaheads, laruleno);
    EdgesInside(g, a, m, edges);
    includes := Transpose(edges);
    ReversedIncludes(g, a, m, edges, includes);
  }

  // One row of LA: the union of the rows of F that its lookback lists.
  method OrLookback(F: BitMatrix, LA: BitMatrix, row: nat, gotos: seq<nat>)
    requires F.Valid() && LA.Valid() && F != LA && F.words != LA.words && F.rowsize == LA.rowsize && row < LA.nrows && LA.rows[row] == {}
    requires forall i :: i in gotos ==> i < F.nrows
    modifies LA, LA.words
    ensures LA.Valid() && F.Valid() && LA.rows == old(LA.rows)[row := LA.rows[row]]
    ensures forall t: nat :: t in LA.rows[row] <==> exists i: nat :: i in gotos && i < |F.rows| && t in F.rows[i]
  {
    var k := 0;
    while k < |gotos|
      invariant 0 <= k <= |gotos| && LA.Valid() && F.Valid() && LA.rows == old(LA.rows)[row := LA.rows[row]]
      invariant forall t: nat :: t in LA.rows[row] <==> exists i: nat :: i in gotos[..k] && i < |F.rows| && t in F.rows[i]
    {
      assert gotos[k] in gotos && gotos[..k + 1] == gotos[..k] + [gotos[k]];
      LA.OrRowFrom(row, F, gotos[k]);
      k := k + 1;
    }
    assert gotos[..k] == gotos;
  }

  /** compute_lookaheads: each row of LA is the union of the Follow sets that its lookback lists. */
  method ComputeLookaheads(F: BitMatrix, lookback: seq<seq<nat>>) returns (LA: BitMatrix)
    requires F.Valid() && forall r, i :: 0 <= r < |lookback| && i in lookback[r] ==> i < F.nrows
    ensures fresh(LA) && fresh(LA.words) && LA.Valid() && LA.nrows == |lookback| && LA.rowsize == F.rowsize
    ensures forall r: nat, t: nat :: r < |lookback| ==> (t in LA.rows[r] <==> exists i: nat :: i in lookback[r] && i < |F.rows| && t in F.rows[i])
  {
    LA := new BitMatrix(|lookback|, F.rowsize);
    var i := 0;
    while i < |lookback|
      invariant 0 <= i <= |lookback| && LA.Valid() && F.Valid() && fresh(LA) && fresh(LA.words) && F != LA && F.words != LA.words
      invariant forall r: nat, t: nat :: r < i ==> (t in LA.rows[r] <==> exists i: nat :: i in lookback[r] && i < |F.rows| && t in F.rows[i])
      invariant forall r :: i <= r < |lookback| ==> LA.rows[r] == {}
    {
      OrLookback(F, LA, i, lookback[i]);
      i := i + 1;
    }
  }

  /** What lalr leaves behind for mkpar: the rows of LA, addressed by lookaheads and named by LAruleno. */
  ghost predicate LaTable(g: Grammar, a: Automaton, m: GotoMap, follow: seq<set<nat>>, lookaheads: seq<nat>, laruleno: seq<nat>, rows: seq<set<nat>>) {
    && |follow| == |m.from| && LaRows(a, lookaheads, laruleno) && |rows| == |laruleno|
    && forall s: nat, j: nat :: s < |a.reds| && j < |a.reds[s]| ==> LaRowExact(g, a, m, follow, s, a.reds[s][j], lookaheads[s] + j, rows)
  }

  ghost predicate LaRowExact(g: Grammar, a: Automaton, m: GotoMap, follow: seq<set<nat>>, s: nat, r: nat, row: nat, rows: seq<set<nat>>) {
    row < |rows| && forall k: nat {:trigger k in rows[row]} :: k in rows[row] <==> InLa(g, a, m, follow, s, r, k)
  }

  /** The rows of LA are the look-ahead sets of the LALR(1) method, in terms of sentential forms. */
  ghost predicate RowsAnticipate(g: Grammar, a: Automaton, lookaheads: seq<nat>, rows: seq<set<nat>>)
    requires Valid(g)
  {
    |lookaheads| > |a.reds| &&
    forall s: nat, j: nat :: s < |a.reds| && j < |a.reds[s]| ==> RowAnticipates(g, a, s, a.reds[s][j], lookaheads[s] + j, rows)
  }

  ghost predicate RowAnticipates(g: Grammar, a: Automaton, s: nat, r: nat, row: nat, rows: seq<set<nat>>)
    requires Valid(g)
  {
    row < |rows| && forall k: nat {:trigger k in rows[row]} :: k in rows[row] <==> Anticipates(g, a, s, r, k)
  }

  lemma TableAnticipates(g: Grammar, a: Automaton, m: GotoMap, read: seq<set<nat>>, follow: seq<set<nat>>, lookaheads: seq<nat>, laruleno: seq<nat>, rows: seq<set<nat>>)
    requires Valid(g) && Canonical(g, a) && ValidGotos(g, a, m) && ReadAndFollow(g, a, m, read, follow)
    requires LaTable(g, a, m, follow, lookaheads, laruleno, rows)
    ensures RowsAnticipate(g, a, lookaheads, rows)
  {
    hide Valid, Canonical, ValidGotos, ReadAndFollow, InLa, Anticipates;
    forall s: nat, j: nat | s < |a.reds| && j < |a.reds[s]|
      ensures RowAnticipates(g, a, s, a.reds[s][j], lookaheads[s] + j, rows)
    {
      assert LaRowExact(g, a, m, follow, s, a.reds[s][j], lookaheads[s] + j, rows);
      forall k: nat
        ensures InLa(g, a, m, follow, s, a.reds[s][j], k) <==> Anticipates(g, a, s, a.reds[s][j], k)
      {
        LaExact(g, a, m, read, follow, s, a.reds[s][j], k);
      }
    }
  }

  lemma LookbackInside(g: Grammar, a: Automaton, m: GotoMap, lookaheads: seq<nat>, laruleno: seq<nat>, lookback: seq<seq<nat>>, row: nat, i: nat)
    requires LaRows(a, lookaheads, laruleno) && LookbackFor(g, a, m, lookaheads, laruleno, AllPairs(g, a, m, |m.from|), lookback)
    requires row < |lookback| && i in lookback[row]
    ensures i < |m.from|
  {
    var s := StateOfRow(a, lookaheads, laruleno, row, |a.reds|);
    assert RowsOf(a, lookaheads, laruleno, s);
    assert RowLooksBack(g, a, m, s, a.reds[s][row - lookaheads[s]], lookaheads[s] + (row - lookaheads[s]), AllPairs(g, a, m, |m.from|), lookback);
  }

  lemma {:induction false} StateOfRow(a: Automaton, lookaheads: seq<nat>, laruleno: seq<nat>, row: nat, n: nat) returns (s: nat)
    requires LaRows(a, lookaheads, laruleno) && n <= |a.reds| && row < lookaheads[n]
    ensures s < n && lookaheads[s] <= row < lookaheads[s + 1]
  {
    if lookaheads[n - 1] <= row {
      s := n - 1;
    } else {
      s := StateOfRow(a, lookaheads, laruleno, row, n - 1);
    }
  }

  lemma LaTableExact(g: Grammar, a: Automaton, m: GotoMap, follow: seq<set<nat>>, lookaheads: seq<nat>, laruleno: seq<nat>,
                     lookback: seq<seq<nat>>, rows: seq<set<nat>>)
    requires |follow| == |m.from| && LaRows(a, lookaheads, laruleno) && |rows| == |lookback|
    requires LookbackFor(g, a, m, lookaheads, laruleno, AllPairs(g, a, m, |m.from|), lookback)
    requires forall r: nat, t: nat :: r < |lookback| ==> (t in rows[r] <==> exists i: nat :: i in lookback[r] && i < |follow| && t in follow[i])
    ensures LaTable(g, a, m, follow, lookaheads, laruleno, rows)
  {
    forall s: nat, j: nat | s < |a.reds| && j < |a.reds[s]|
      ensures LaRowExact(g, a, m, follow, s, a.reds[s][j], lookaheads[s] + j, rows)
    {
      var r, row := a.reds[s][j], lookaheads[s] + j;
      assert RowLooksBack(g, a, m, s, r, row, AllPairs(g, a, m, |m.from|), lookback);
      forall k: nat
        ensures k in rows[row] <==> InLa(g, a, m, follow, s, r, k)
      {
        if InLa(g, a, m, follow, s, r, k) {
          var i: nat :| i < |follow| && LooksBack(g, a, m, s, r, i) && k in follow[i];
          assert i in lookback[row];
        }
        if k in rows[row] {
          var i: nat :| i in lookback[row] && i < |follow| && k in follow[i];
          assert LooksBack(g, a, m, s, r, i);
        }
      }
    }
  }

  /** lalr: as long as ngotos + 2 fits a short, the look-ahead sets of the automaton are those of the
      DeRemer-Pennello relations, and so those of the LALR(1) method. */
  method ComputeLalr(g: Grammar, a: Automaton, nullable: seq<bool>, derives: seq<seq<nat>>)
    returns (m: Option<GotoMap>, lookaheads: seq<nat>, laruleno: seq<nat>, LA: BitMatrix, ghost read: seq<set<nat>>, ghost follow: seq<set<nat>>)
    requires Valid(g) && Canonical(g, a) && NullableTable(g, nullable) && DerivesTable(g, derives)
    ensures m.None? <==> Sum(Counts(g, a)) > Lr0.MAXSHORT
    ensures m.Some? ==> ValidGotos(g, a, m.value) && m.value.Ngotos() <= Lr0.MAXSHORT
    ensures m.Some? && m.value.Ngotos() + 2 <= Lr0.MAXSHORT ==>
              && ReadAndFollow(g, a, m.value, read, follow) && LA.Valid() && g.ntokens <= 32 * LA.rowsize
              && LA.nrows == |laruleno| && LaTable(g, a, m.value, follow, lookaheads, laruleno, LA.rows)
              && RowsAnticipate(g, a, lookaheads, LA.rows)
    ensures fresh(LA) && fresh(LA.words)
  {
    hide Valid, Canonical, ValidGotos, NullableTable, DerivesTable, LaRows, LookbackFor, Counts;
    lookaheads, laruleno := InitializeLA(a);
    m := SetGotoMap(g, a);
    read, follow := [], [];
    if m.None? || m.value.Ngotos() + 2 > Lr0.MAXSHORT {
      LA := new BitMatrix(0, 0);
      return;
    }
    var F := InitializeF(g, a, m.value, nullable);
    read := F.rows;
    var includes, lookback := BuildRelations(g, a, m.value, nullable, derives, lookaheads, laruleno);
    EdgeListsAre(includes, IncludesGraph(g, a, m.value));
    Digraph.Digraph(F, includes);
    follow := F.rows;
    forall r, i | 0 <= r < |lookback| && i in lookback[r]
      ensures i < |m.value.from|
    {
      LookbackInside(g, a, m.value, lookaheads, laruleno, lookback, r, i);
    }
    LA := ComputeLookaheads(F, lookback);
    LaTableExact(g, a, m.value, follow, lookaheads, laruleno, lookback, LA.rows);
    LookbackCount(g, a, m.value, lookaheads, laruleno, lookback);
    TableAnticipates(g, a, m.value, read, follow, lookaheads, laruleno, LA.rows);
  }

  lemma LookbackCount(g: Grammar, a: Automaton, m: GotoMap, lookaheads: seq<nat>, laruleno: seq<nat>, lookback: seq<seq<nat>>)
    requires LaRows(a, lookaheads, laruleno) && LookbackFor(g, a, m, lookaheads, laruleno, AllPairs(g, a, m, |m.from|), lookback)
    ensures |lookback| == |laruleno|
  {
  }
}
