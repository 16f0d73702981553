/** The parser's action lists and the resolution of their conflicts (byacc-1.9/mkpar.c). */
module Mkpar {
  import opened Wrappers
  import opened Grammar
  import opened Closures
  import opened Automata
  import opened BitRows
  import opened Seqs
  import opened Gotos
  import opened Lookaheads
  import opened Completeness
  import opened Lalr

  const LEFT := 1
  const RIGHT := 2
  const NONASSOC := 3

  datatype Code = Shift | Reduce

  /** An entry of an action list: shift to state `number`, or reduce by rule `number`, on token `symbol`. */
  datatype Action = Action(symbol: int, number: int, prec: int, code: Code, assoc: int, suppressed: int)

  /** symbol_prec, symbol_assoc, rprec and rassoc. */
  datatype Precedences = Precedences(symbolPrec: seq<int>, symbolAssoc: seq<int>, rulePrec: seq<int>, ruleAssoc: seq<int>)

  ghost predicate PrecedencesFit(g: Grammar, p: Precedences) {
    |p.symbolPrec| == |p.symbolAssoc| == g.nsyms && |p.rulePrec| == |p.ruleAssoc| == |g.rlhs|
  }

  function ShiftOn(p: Precedences, k: int, s: int): Action
    requires 0 <= k < |p.symbolPrec| == |p.symbolAssoc|
  {
    Action(k, s, p.symbolPrec[k], Shift, p.symbolAssoc[k], 0)
  }

  function ReduceOn(p: Precedences, k: int, r: int): Action
    requires 0 <= r < |p.rulePrec| == |p.ruleAssoc|
  {
    Action(k, r, p.rulePrec[r], Reduce, p.ruleAssoc[r], 0)
  }

  // The order of an action list: by symbol, shifts before reductions, reductions by rule.
  ghost predicate Precedes(x: Action, y: Action) {
    x.symbol < y.symbol ||
    (x.symbol == y.symbol && y.code == Reduce && (x.code == Shift || x.number < y.number))
  }

  ghost predicate Ordered(acts: seq<Action>) {
    forall i, j :: 0 <= i < j < |acts| ==> Precedes(acts[i], acts[j])
  }

  // The entry is a shift of state s.
  ghost predicate IsShift(g: Grammar, a: Automaton, p: Precedences, s: int, x: Action)
    requires PrecedencesFit(g, p)
  {
    0 <= x.symbol < g.ntokens && x.symbol < g.nsyms && Trans(a, s, x.symbol, x.number) && x == ShiftOn(p, x.symbol, x.number)
  }

  // get_shifts
  method GetShifts(g: Grammar, a: Automaton, p: Precedences, s: nat) returns (acts: seq<Action>)
    requires Valid(g) && Canonical(g, a) && PrecedencesFit(g, p) && s < |a.shifts|
    ensures Ordered(acts) && forall x :: x in acts <==> IsShift(g, a, p, s, x)
  {
    hide Valid, Canonical, Trans;
    acts := [];
    var i := |a.shifts[s]|;
    StateShifts(g, a, s);
    while i > 0
      invariant 0 <= i <= |a.shifts[s]| && Ordered(acts)
      invariant forall x :: x in acts <==> IsShift(g, a, p, s, x) && x.number in a.shifts[s][i..]
      invariant forall x :: x in acts ==> i < |a.shifts[s]| && a.shifts[s][i] < |a.acc| && a.acc[a.shifts[s][i]] <= x.symbol
    {
      i := i - 1;
      var k := a.shifts[s][i];
      ShiftTrans(g, a, s, i);
      var symbol := a.acc[k];
      assert a.shifts[s][i..] == [k] + a.shifts[s][i + 1..];
      if g.IsToken(symbol) {
        assert IsShift(g, a, p, s, ShiftOn(p, symbol, k));
        acts := [ShiftOn(p, symbol, k)] + acts;
      }
    }
    assert a.shifts[s][i..] == a.shifts[s];
  }

  /** add_reduce: one more reduction, in its place in the order. */
  method AddReduce(g: Grammar, p: Precedences, acts0: seq<Action>, ruleno: nat, symbol: int) returns (acts: seq<Action>)
    requires PrecedencesFit(g, p) && ruleno < |g.rlhs| && Ordered(acts0)
    requires forall x :: x in acts0 && x.code == Reduce && x.symbol == symbol ==> x.number != ruleno
    ensures Ordered(acts) && forall x :: x in acts <==> x in acts0 || x == ReduceOn(p, symbol, ruleno)
  {
    var next := 0;
    while next < |acts0| && acts0[next].symbol < symbol
      invariant 0 <= next <= |acts0| && forall i :: 0 <= i < next ==> Precedes(acts0[i], ReduceOn(p, symbol, ruleno))
    {
      next := next + 1;
    }
    while next < |acts0| && acts0[next].symbol == symbol && acts0[next].code == Shift
      invariant 0 <= next <= |acts0| && forall i :: 0 <= i < next ==> Precedes(acts0[i], ReduceOn(p, symbol, ruleno))
      invariant next < |acts0| ==> symbol <= acts0[next].symbol
    {
      next := next + 1;
    }
    while next < |acts0| && acts0[next].symbol == symbol && acts0[next].code == Reduce && acts0[next].number < ruleno
      invariant 0 <= next <= |acts0| && forall i :: 0 <= i < next ==> Precedes(acts0[i], ReduceOn(p, symbol, ruleno))
      invariant next < |acts0| ==> symbol <= acts0[next].symbol && (acts0[next].symbol == symbol ==> acts0[next].code == Reduce)
    {
      next := next + 1;
    }
    var temp := ReduceOn(p, symbol, ruleno);
    acts := acts0[..next] + [temp] + acts0[next..];
    assert forall i :: 0 <= i < |acts0| ==> acts0[i] in acts0;
    InsertedOrdered(acts0, next, temp);
  }

  lemma InsertedOrdered(acts: seq<Action>, n: nat, x: Action)
    requires Ordered(acts) && n <= |acts| && (forall i :: 0 <= i < n ==> Precedes(acts[i], x))
    requires n < |acts| ==> Precedes(x, acts[n])
    ensures Ordered(acts[..n] + [x] + acts[n..])
    ensures forall y :: y in acts[..n] + [x] + acts[n..] <==> y in acts || y == x
  {
    hide Precedes;
    var q := acts[..n] + [x] + acts[n..];
    assert acts == acts[..n] + acts[n..];
    assert forall i :: 0 <= i < |q| ==> q[i] == if i < n then acts[i] else if i == n then x else acts[i - 1];
    forall j | n <= j < |acts|
      ensures Precedes(x, acts[j])
    {
      if n < j {
        PrecedesTrans(x, acts[n], acts[j]);
      }
    }
    forall i, j | 0 <= i < j < |q|
      ensures Precedes(q[i], q[j])
    {
    }
  }

  lemma PrecedesTrans(x: Action, y: Action, z: Action)
    requires Precedes(x, y) && Precedes(y, z)
    ensures Precedes(x, z)
  {
  }

  // The entry is a reduction of state s that the look-ahead sets la allow.
  ghost predicate IsReduction(g: Grammar, a: Automaton, p: Precedences, la: Looks, s: nat, x: Action)
    requires PrecedencesFit(g, p)
  {
    && s < |a.reds| && 0 <= x.number < |g.rlhs| && x.number in a.reds[s] && 0 <= x.symbol < g.ntokens
    && (s, x.number, x.symbol) in la && x == ReduceOn(p, x.symbol, x.number)
  }

  /** The action list of state s: all its shifts, and its reductions on the tokens that la gives. */
  ghost predicate ActionsOf(g: Grammar, a: Automaton, p: Precedences, la: Looks, s: nat, acts: seq<Action>)
    requires PrecedencesFit(g, p)
  {
    Ordered(acts) && forall x :: x in acts <==> IsShift(g, a, p, s, x) || IsReduction(g, a, p, la, s, x)
  }

  // The rows of LA hold la.
  ghost predicate RowsHold(g: Grammar, a: Automaton, la: Looks, lookaheads: seq<nat>, laruleno: seq<nat>, rows: seq<set<nat>>) {
    && LaRows(a, lookaheads, laruleno) && |rows| == |laruleno|
    && forall s: nat, j: nat :: s < |a.reds| && j < |a.reds[s]| ==> RowHolds(la, s, a.reds[s][j], lookaheads[s] + j, rows)
  }

  ghost predicate RowHolds(la: Looks, s: nat, r: nat, row: nat, rows: seq<set<nat>>) {
    row < |rows| && forall k: nat {:trigger k in rows[row]} :: k in rows[row] <==> (s, r, k) in la
  }

  lemma TableRowsHold(g: Grammar, a: Automaton, m: GotoMap, follow: seq<set<nat>>, lookaheads: seq<nat>, laruleno: seq<nat>, rows: seq<set<nat>>)
    requires LaTable(g, a, m, follow, lookaheads, laruleno, rows)
    ensures RowsHold(g, a, LaLooking(g, a, m, follow), lookaheads, laruleno, rows)
  {
    hide InLa;
    forall s: nat, j: nat | s < |a.reds| && j < |a.reds[s]|
      ensures RowHolds(LaLooking(g, a, m, follow), s, a.reds[s][j], lookaheads[s] + j, rows)
    {
      assert LaRowExact(g, a, m, follow, s, a.reds[s][j], lookaheads[s] + j, rows);
    }
  }

  // What add_reductions has entered after the first n rules of state s and, for the next rule, the tokens from k on.
  ghost predicate Entered(g: Grammar, a: Automaton, p: Precedences, la: Looks, s: nat, n: nat, k: int, x: Action)
    requires PrecedencesFit(g, p)
  {
    IsReduction(g, a, p, la, s, x) &&
    (x.number in a.reds[s][..if n <= |a.reds[s]| then n else 0] || (n < |a.reds[s]| && x.number == a.reds[s][n] && k <= x.symbol))
  }

  ghost predicate ListWith(g: Grammar, a: Automaton, p: Precedences, la: Looks, s: nat, n: nat, k: int, acts: seq<Action>)
    requires PrecedencesFit(g, p)
  {
    Ordered(acts) && forall x :: x in acts <==> IsShift(g, a, p, s, x) || Entered(g, a, p, la, s, n, k, x)
  }

  lemma RuleNew(g: Grammar, a: Automaton, s: nat, n: nat)
    requires Valid(g) && Canonical(g, a) && s < |a.reds| && n < |a.reds[s]|
    ensures a.reds[s][n] !in a.reds[s][..n] && 3 <= a.reds[s][n] < |g.rlhs|
    ensures Completes(g, a.kernels[s], a.reds[s][n])
  {
    hide InClosure, ItemList, Generated, AllDistinct, ShiftsExact;
    assert RedsExact(g, a.kernels[s], a.reds[s]);
    var r: int := a.reds[s][n];
    assert a.reds[s][n] in a.reds[s];
    var i :| InClosure(g, a.kernels[s], i) && 1 <= i < |g.ritem| && g.ritem[i] == -r;
    var q := RuleOfItem(g, i, |g.rlhs|);
    ItemStep(g, i, q);
    if r == 2 {
      NeverCompletesAccept(g, a, s);
    }
  }

  // add_reductions
  method AddReductions(g: Grammar, a: Automaton, p: Precedences, ghost la: Looks, LA: BitMatrix, lookaheads: seq<nat>, laruleno: seq<nat>,
                       s: nat, acts0: seq<Action>)
    returns (acts: seq<Action>)
    requires Valid(g) && Canonical(g, a) && PrecedencesFit(g, p) && s < |a.reds|
    requires LA.Valid() && g.ntokens <= 32 * LA.rowsize && LA.nrows == |laruleno| && RowsHold(g, a, la, lookaheads, laruleno, LA.rows)
    requires Ordered(acts0) && forall x :: x in acts0 <==> IsShift(g, a, p, s, x)
    ensures ActionsOf(g, a, p, la, s, acts)
  {
    hide Valid, Canonical, Trans, IsShift, Ordered;
    acts := acts0;
    assert RowsOf(a, lookaheads, laruleno, s);
    var i := lookaheads[s];
    while i < lookaheads[s + 1]
      invariant lookaheads[s] <= i <= lookaheads[s + 1] == lookaheads[s] + |a.reds[s]|
      invariant ListWith(g, a, p, la, s, i - lookaheads[s], g.ntokens, acts)
    {
      acts := AddRow(g, a, p, la, LA, lookaheads, laruleno, s, i - lookaheads[s], acts);
      i := i + 1;
    }
    assert a.reds[s][..|a.reds[s]|] == a.reds[s];
  }

  // The inner loop, from the last token down: a reduction for every token whose bit is set.
  method AddRow(g: Grammar, a: Automaton, p: Precedences, ghost la: Looks, LA: BitMatrix, lookaheads: seq<nat>, laruleno: seq<nat>,
                s: nat, n: nat, acts0: seq<Action>)
    returns (acts: seq<Action>)
    requires Valid(g) && Canonical(g, a) && PrecedencesFit(g, p) && s < |a.reds| && n < |a.reds[s]|
    requires LA.Valid() && g.ntokens <= 32 * LA.rowsize && LA.nrows == |laruleno| && RowsHold(g, a, la, lookaheads, laruleno, LA.rows)
    requires ListWith(g, a, p, la, s, n, g.ntokens, acts0)
    ensures ListWith(g, a, p, la, s, n + 1, g.ntokens, acts)
  {
    hide Valid, Canonical, Trans, IsShift, Ordered, RowsHold, InClosure, Completes;
    RowFacts(g, a, la, lookaheads, laruleno, s, n, LA.rows);
    var row := lookaheads[s] + n;
    var ruleno := laruleno[row];
    RuleNew(g, a, s, n);
    acts := acts0;
    var j := g.ntokens;
    while j > 0
      invariant 0 <= j <= g.ntokens && ListWith(g, a, p, la, s, n, j, acts)
    {
      j := j - 1;
      var hit := LA.Bit(row, j);
      if hit {
        assert IsReduction(g, a, p, la, s, ReduceOn(p, j, ruleno));
        ShiftsAreShifts(g, a, p, s);
        acts := AddReduce(g, p, acts, ruleno, j);
      }
    }
    assert a.reds[s][..n + 1] == a.reds[s][..n] + [ruleno];
  }

  lemma ShiftsAreShifts(g: Grammar, a: Automaton, p: Precedences, s: nat)
    requires PrecedencesFit(g, p)
    ensures forall x :: IsShift(g, a, p, s, x) ==> x.code == Shift
  {
  }

  lemma RowFacts(g: Grammar, a: Automaton, la: Looks, lookaheads: seq<nat>, laruleno: seq<nat>, s: nat, n: nat, rows: seq<set<nat>>)
    requires RowsHold(g, a, la, lookaheads, laruleno, rows) && s < |a.reds| && n < |a.reds[s]|
    ensures s < |lookaheads| && lookaheads[s] + n < |laruleno| == |rows| && laruleno[lookaheads[s] + n] == a.reds[s][n]
    ensures RowHolds(la, s, a.reds[s][n], lookaheads[s] + n, rows)
  {
    RowRule(a, lookaheads, laruleno, s, n);
  }

  // Where the entries for the symbol of entry i begin.
  function GroupStart(acts: seq<Action>, i: nat): (f: nat)
    requires i < |acts|
    ensures f <= i && acts[f].symbol == acts[i].symbol
  {
    if i == 0 || acts[i - 1].symbol != acts[i].symbol then i else GroupStart(acts, i - 1)
  }

  // By their precedences, the reduction y is preferred to the shift x.
  predicate Beats(x: Action, y: Action) {
    x.prec > 0 && y.prec > 0 && (x.prec < y.prec || (x.prec == y.prec && x.assoc == LEFT))
  }

  // By their precedences, neither is allowed.
  predicate Excludes(x: Action, y: Action) {
    x.prec > 0 && y.prec > 0 && x.prec == y.prec && x.assoc != LEFT && x.assoc != RIGHT
  }

  /** The entries, among the first n, that conflict resolution keeps. Without a shift on the symbol, the
      reduction by the first rule. With one: the first reduction that beats it; or, when none does, the shift,
      unless some reduction excludes it. Without precedences this is "shift before reduce, first rule before
      later ones", as in "Conflicts" of the yacc utility in POSIX.1. */
  ghost predicate Kept(acts: seq<Action>, n: nat, i: nat)
    requires i < n <= |acts|
  {
    var f := GroupStart(acts, i);
    if acts[f].code == Reduce then i == f
    else if i == f then Unopposed(acts, n, f)
    else Beats(acts[f], acts[i]) && Unbeaten(acts, f, i)
  }

  // No entry of f's group, below n, beats or excludes it.
  ghost predicate Unopposed(acts: seq<Action>, n: nat, f: nat)
    requires f < n <= |acts|
  {
    forall j :: f < j < n && acts[j].symbol == acts[f].symbol ==> !Beats(acts[f], acts[j]) && !Excludes(acts[f], acts[j])
  }

  ghost predicate Unbeaten(acts: seq<Action>, f: nat, i: nat)
    requires f < |acts| && i <= |acts|
  {
    forall j :: f < j < i ==> !Beats(acts[f], acts[j])
  }

  // acts, with only the suppressed marks changed.
  ghost predicate Marked(acts: seq<Action>, marks: seq<Action>) {
    |marks| == |acts| && forall i :: 0 <= i < |acts| ==> marks[i].(suppressed := acts[i].suppressed) == acts[i]
  }

  /** Conflicts resolved: unsuppressed are exactly the entries to be kept. */
  ghost predicate Resolved(acts: seq<Action>, marks: seq<Action>) {
    Marked(acts, marks) && forall i :: 0 <= i < |acts| ==> (marks[i].suppressed == 0 <==> Kept(acts, |acts|, i))
  }

  // pref, during the scan of the first n entries: the entry that stands for the symbol of the last one.
  ghost predicate IsPref(acts: seq<Action>, n: nat, pref: nat)
    requires 0 < n <= |acts|
  {
    var f := GroupStart(acts, n - 1);
    f <= pref < n &&
    if acts[f].code == Reduce then pref == f
    else if pref == f then Unbeaten(acts, f, n)
    else Beats(acts[f], acts[pref]) && Unbeaten(acts, f, pref)
  }

  // All entries between the start of a group and i are of the group.
  lemma {:induction false} GroupIsRun(acts: seq<Action>, i: nat, j: nat)
    requires i < |acts| && GroupStart(acts, i) <= j <= i
    ensures acts[j].symbol == acts[i].symbol && GroupStart(acts, j) == GroupStart(acts, i)
  {
    if j < i {
      GroupIsRun(acts, i - 1, j);
    }
  }

  // Groups do not recur in an ordered list.
  lemma {:induction false} GroupOnce(acts: seq<Action>, i: nat, j: nat)
    requires Ordered(acts) && i <= j < |acts| && acts[i].symbol == acts[j].symbol
    ensures GroupStart(acts, i) == GroupStart(acts, j)
    decreases j
  {
    if i < j {
      assert i == j - 1 || Precedes(acts[i], acts[j - 1]);
      assert Precedes(acts[j - 1], acts[j]);
      GroupOnce(acts, i, j - 1);
    }
  }

  // The first entry of a new group leaves the others as they were.
  lemma KeptNewGroup(acts: seq<Action>, n: nat)
    requires Ordered(acts) && n < |acts| && (n == 0 || acts[n - 1].symbol != acts[n].symbol)
    ensures forall i :: 0 <= i < n ==> Kept(acts, n + 1, i) == Kept(acts, n, i)
    ensures Kept(acts, n + 1, n) && IsPref(acts, n + 1, n)
  {
    forall i | 0 <= i < n
      ensures Kept(acts, n + 1, i) == Kept(acts, n, i)
    {
      if acts[i].symbol == acts[n].symbol {
        GroupOnce(acts, i, n);
      }
    }
  }

  // The scan meets entry n of the group that pref stands for.
  lemma KeptSameGroup(acts: seq<Action>, n: nat, pref: nat)
    requires Ordered(acts) && 0 < n < |acts| && acts[n - 1].symbol == acts[n].symbol && IsPref(acts, n, pref)
    ensures pref < n && acts[pref].symbol == acts[n].symbol && acts[n].code == Reduce
    ensures forall i :: 0 <= i < n && i != pref ==> Kept(acts, n + 1, i) == Kept(acts, n, i)
    ensures var drop := acts[pref].code == Shift && (Beats(acts[pref], acts[n]) || Excludes(acts[pref], acts[n]));
            Kept(acts, n + 1, pref) == (Kept(acts, n, pref) && !drop)
    ensures var take := acts[pref].code == Shift && Beats(acts[pref], acts[n]);
            Kept(acts, n + 1, n) == take && IsPref(acts, n + 1, if take then n else pref)
  {
    var f := GroupStart(acts, n);
    assert Precedes(acts[n - 1], acts[n]);
    GroupIsRun(acts, n, n - 1);
    GroupIsRun(acts, n, pref);
    if f < pref {
      assert Precedes(acts[pref - 1], acts[pref]);
      GroupIsRun(acts, n, pref - 1);
    }
    forall i | 0 <= i < n && i != pref
      ensures Kept(acts, n + 1, i) == Kept(acts, n, i)
    {
      if acts[i].symbol == acts[n].symbol {
        GroupOnce(acts, i, n);
      }
    }
  }

  function Ones(marks: seq<Action>): nat {
    if marks == [] then 0 else Ones(marks[..|marks| - 1]) + if marks[|marks| - 1].suppressed == 1 then 1 else 0
  }

  // The state of remove_conflicts after n entries.
  ghost predicate Scanned(acts: seq<Action>, n: nat, marks: seq<Action>, symbol: int, pref: nat) {
    && n <= |acts| && Marked(acts, marks)
    && (forall i :: n <= i < |acts| ==> marks[i].suppressed == 0)
    && (forall i :: 0 <= i < n ==> (marks[i].suppressed == 0 <==> Kept(acts, n, i)))
    && (n > 0 ==> symbol == acts[n - 1].symbol && IsPref(acts, n, pref))
    && (n == 0 ==> symbol == -1)
  }

  // Entry n of the list is marked with `mark`, and the entry that stood for its symbol too if `drop`.
  function MarkAt(marks: seq<Action>, n: nat, mark: int, pref: nat, drop: bool): seq<Action>
    requires n < |marks| && pref < |marks|
  {
    var marks' := if drop then marks[pref := marks[pref].(suppressed := 2)] else marks;
    marks'[n := marks'[n].(suppressed := mark)]
  }

  lemma ScanNewGroup(acts: seq<Action>, n: nat, marks: seq<Action>, symbol: int, pref: nat)
    requires Ordered(acts) && n < |acts| && Scanned(acts, n, marks, symbol, pref) && acts[n].symbol != symbol
    ensures Scanned(acts, n + 1, marks, acts[n].symbol, n)
  {
    hide Kept, IsPref, Ordered;
    KeptNewGroup(acts, n);
  }

  lemma ScanSameGroup(acts: seq<Action>, n: nat, marks: seq<Action>, symbol: int, pref: nat, mark: int)
    requires Ordered(acts) && 0 < n < |acts| && Scanned(acts, n, marks, symbol, pref) && acts[n].symbol == symbol
    requires pref < n
    requires mark == 0 <==> acts[pref].code == Shift && Beats(acts[pref], acts[n])
    ensures acts[pref].symbol == symbol && acts[n].code == Reduce
    ensures var take := acts[pref].code == Shift && Beats(acts[pref], acts[n]);
            var drop := acts[pref].code == Shift && (Beats(acts[pref], acts[n]) || Excludes(acts[pref], acts[n]));
            Scanned(acts, n + 1, MarkAt(marks, n, mark, pref, drop), symbol, if take then n else pref)
  {
    hide Kept, IsPref, Ordered, Beats, Excludes;
    KeptSameGroup(acts, n, pref);
  }

  function One(x: Action): nat {
    if x.suppressed == 1 then 1 else 0
  }

  lemma {:induction false} OnesSet(marks: seq<Action>, i: nat, x: Action)
    requires i < |marks|
    ensures Ones(marks[i := x]) + One(marks[i]) == Ones(marks) + One(x)
  {
    if i < |marks| - 1 {
      OnesSet(marks[..|marks| - 1], i, x);
      assert marks[i := x][..|marks| - 1] == marks[..|marks| - 1][i := x];
    } else {
      assert marks[i := x][..|marks| - 1] == marks[..|marks| - 1];
    }
  }

  lemma OnesMarked(marks: seq<Action>, n: nat, mark: int, pref: nat, drop: bool)
    requires pref < n < |marks| && marks[n].suppressed == 0 && marks[pref].suppressed != 1
    ensures Ones(MarkAt(marks, n, mark, pref, drop)) == Ones(marks) + if mark == 1 then 1 else 0
  {
    hide Ones;
    OnesSet(marks, pref, marks[pref].(suppressed := 2));
    var marks' := if drop then marks[pref := marks[pref].(suppressed := 2)] else marks;
    OnesSet(marks', n, marks'[n].(suppressed := mark));
  }

  lemma {:induction false} OnesNone(marks: seq<Action>)
    requires forall i :: 0 <= i < |marks| ==> marks[i].suppressed == 0
    ensures Ones(marks) == 0
  {
    if marks != [] {
      OnesNone(marks[..|marks| - 1]);
    }
  }

  // The shift of entry i's group still stands for its symbol when entry i is met.
  ghost predicate ShiftStands(acts: seq<Action>, i: nat)
    requires i < |acts|
  {
    acts[GroupStart(acts, i)].code == Shift && Unbeaten(acts, GroupStart(acts, i), i)
  }

  /** Entry i is in a shift/reduce conflict: $end is accepted, or the shift stands and one of the two has no
      precedence. */
  ghost predicate ShiftReduce(acts: seq<Action>, isFinal: bool, i: nat) {
    i < |acts| && GroupStart(acts, i) < i &&
    ((isFinal && acts[i].symbol == 0) || (ShiftStands(acts, i) && (acts[GroupStart(acts, i)].prec <= 0 || acts[i].prec <= 0)))
  }

  /** Entry i is in a reduce/reduce conflict: another reduction stands for its symbol. */
  ghost predicate ReduceReduce(acts: seq<Action>, isFinal: bool, i: nat) {
    i < |acts| && GroupStart(acts, i) < i && !(isFinal && acts[i].symbol == 0) && !ShiftStands(acts, i)
  }

  // How many of the first n entries are in a conflict of either kind.
  ghost function ShiftReduces(acts: seq<Action>, isFinal: bool, n: nat): nat {
    if n == 0 then 0 else ShiftReduces(acts, isFinal, n - 1) + if ShiftReduce(acts, isFinal, n - 1) then 1 else 0
  }

  ghost function ReduceReduces(acts: seq<Action>, isFinal: bool, n: nat): nat {
    if n == 0 then 0 else ReduceReduces(acts, isFinal, n - 1) + if ReduceReduce(acts, isFinal, n - 1) then 1 else 0
  }

  lemma {:induction false} NoConflictAt(acts: seq<Action>, isFinal: bool, n: nat)
    requires n < |acts| && (n == 0 || acts[n - 1].symbol != acts[n].symbol)
    ensures !ShiftReduce(acts, isFinal, n) && !ReduceReduce(acts, isFinal, n)
  {
  }

  // What the scan asks about pref decides which conflict entry n is in, if any.
  lemma {:induction false} ConflictAt(acts: seq<Action>, isFinal: bool, n: nat, pref: nat)
    requires Ordered(acts) && 0 < n < |acts| && acts[n - 1].symbol == acts[n].symbol && IsPref(acts, n, pref)
    ensures pref < n
    ensures ShiftReduce(acts, isFinal, n) <==>
            (isFinal && acts[n].symbol == 0) || (acts[pref].code == Shift && (acts[pref].prec <= 0 || acts[n].prec <= 0))
    ensures ReduceReduce(acts, isFinal, n) <==> !(isFinal && acts[n].symbol == 0) && acts[pref].code == Reduce
  {
    var f := GroupStart(acts, n);
    GroupIsRun(acts, n, n - 1);
    GroupIsRun(acts, n, pref);
    if f < pref {
      assert Precedes(acts[pref - 1], acts[pref]);
      GroupIsRun(acts, n, pref - 1);
    }
  }

  /** One state of remove_conflicts: the marks, and the numbers of shift/reduce and reduce/reduce conflicts,
      which together count the entries marked 1. */
  method RemoveConflicts(acts: seq<Action>, isFinal: bool) returns (marks: seq<Action>, srCount: nat, rrCount: nat)
    requires Ordered(acts) && forall i :: 0 <= i < |acts| ==> acts[i].suppressed == 0 && acts[i].symbol >= 0
    requires forall i :: 0 <= i < |acts| && acts[i].code == Shift ==> acts[i].symbol > 0
    ensures Resolved(acts, marks)
    ensures srCount == ShiftReduces(acts, isFinal, |acts|) && rrCount == ReduceReduces(acts, isFinal, |acts|)
    ensures srCount + rrCount == Ones(marks)
    ensures (forall i :: 0 <= i < |acts| ==> acts[i].prec <= 0) ==> forall i :: 0 <= i < |marks| ==> marks[i].suppressed in {0, 1}
  {
    hide Kept, IsPref, Ordered, Beats, Excludes, Ones, ShiftReduce, ReduceReduce;
    marks, srCount, rrCount := acts, 0, 0;
    OnesNone(acts);
    var symbol, pref, n := -1, 0, 0;
    while n < |acts|
      invariant 0 <= n <= |acts| && Scanned(acts, n, marks, symbol, pref)
      invariant n > 0 ==> pref < n && marks[pref].suppressed != 1 && acts[pref].symbol == symbol
      invariant srCount == ShiftReduces(acts, isFinal, n) && rrCount == ReduceReduces(acts, isFinal, n)
      invariant srCount + rrCount == Ones(marks)
      invariant (forall i :: 0 <= i < |acts| ==> acts[i].prec <= 0) ==> forall i :: 0 <= i < |marks| ==> marks[i].suppressed in {0, 1}
    {
      var p := acts[n];
      if p.symbol != symbol {
        ScanNewGroup(acts, n, marks, symbol, pref);
        NoConflictAt(acts, isFinal, n);
        pref, symbol := n, p.symbol;
      } else {
        var mark, drop, take := 1, false, false;
        ConflictAt(acts, isFinal, n, pref);
        if isFinal && symbol == 0 {
          srCount := srCount + 1;
        } else if acts[pref].code == Shift {
          if acts[pref].prec > 0 && p.prec > 0 {
            mark, drop, take := ByPrecedence(acts[pref], p);
          } else {
            srCount := srCount + 1;
          }
        } else {
          rrCount := rrCount + 1;
        }
        Verdict(acts[pref], p);
        ScanSameGroup(acts, n, marks, symbol, pref, mark);
        OnesMarked(marks, n, mark, pref, drop);
        marks := MarkAt(marks, n, mark, pref, drop);
        pref := if take then n else pref;
      }
      n := n + 1;
    }
  }

  lemma Verdict(x: Action, y: Action)
    ensures x.prec <= 0 || y.prec <= 0 ==> !Beats(x, y) && !Excludes(x, y)
  {
  }

  // A shift x and a reduction y that both have a precedence: the mark of y, whether x is dropped, and
  // whether y takes its place.
  method ByPrecedence(x: Action, y: Action) returns (mark: int, drop: bool, take: bool)
    requires x.prec > 0 && y.prec > 0
    ensures take == Beats(x, y) && drop == (Beats(x, y) || Excludes(x, y)) && mark == if take then 0 else 2
  {
    if x.prec < y.prec {
      mark, drop, take := 0, true, true;
    } else if x.prec > y.prec {
      mark, drop, take := 2, false, false;
    } else if x.assoc == LEFT {
      mark, drop, take := 0, true, true;
    } else if x.assoc == RIGHT {
      mark, drop, take := 2, false, false;
    } else {
      mark, drop, take := 2, true, false;
    }
  }

  /** At most one entry for a symbol is kept. */
  lemma KeptOnce(acts: seq<Action>, i: nat, j: nat)
    requires Ordered(acts) && i < j < |acts| && acts[i].symbol == acts[j].symbol
    ensures !(Kept(acts, |acts|, i) && Kept(acts, |acts|, j))
  {
    GroupOnce(acts, i, j);
    var f := GroupStart(acts, j);
    if f < i {
      GroupIsRun(acts, j, i);
    }
  }

  // The entries for the symbol of entry i are just i and j.
  ghost predicate IsPair(acts: seq<Action>, i: nat, j: nat) {
    && i < j < |acts| && acts[i].symbol == acts[j].symbol
    && forall n :: 0 <= n < |acts| && acts[n].symbol == acts[i].symbol ==> n == i || n == j
  }

  lemma PairGroup(acts: seq<Action>, i: nat, j: nat)
    requires Ordered(acts) && IsPair(acts, i, j)
    ensures GroupStart(acts, i) == GroupStart(acts, j) == i
  {
    GroupOnce(acts, i, j);
    if i > 0 {
      assert acts[i - 1].symbol != acts[i].symbol;
    }
  }

  /** What precedence and associativity do to a shift and a reduction on the same token: the one of higher
      precedence stays; of equal ones, the reduction if the token associates to the left, the shift if it
      associates to the right, and neither if it does not associate. Without precedences, the shift stays, and
      only then this counts as a shift/reduce conflict. */
  lemma PairResolved(acts: seq<Action>, marks: seq<Action>, i: nat, j: nat)
    requires Ordered(acts) && Resolved(acts, marks) && IsPair(acts, i, j) && acts[i].code == Shift && acts[j].code == Reduce
    ensures |marks| == |acts|
    ensures var shift, reduce := acts[i], acts[j];
            var shiftStays, reduceStays := marks[i].suppressed == 0, marks[j].suppressed == 0;
            if shift.prec > 0 && reduce.prec > 0 then
              if shift.prec != reduce.prec then shiftStays == (shift.prec > reduce.prec) && reduceStays == (shift.prec < reduce.prec)
              else reduceStays == (shift.assoc == LEFT) && shiftStays == (shift.assoc == RIGHT)
            else shiftStays && !reduceStays
    ensures forall isFinal :: acts[i].symbol > 0 ==>
              (ShiftReduce(acts, isFinal, j) <==> acts[i].prec <= 0 || acts[j].prec <= 0) && !ReduceReduce(acts, isFinal, j)
  {
    PairGroup(acts, i, j);
  }

  // Entry f is the first for its symbol, and i is one for it.
  ghost predicate IsFirst(acts: seq<Action>, f: nat, i: nat) {
    f <= i < |acts| && acts[f].symbol == acts[i].symbol && forall n :: 0 <= n < f ==> acts[n].symbol != acts[f].symbol
  }

  lemma FirstStarts(acts: seq<Action>, f: nat, i: nat)
    requires Ordered(acts) && IsFirst(acts, f, i)
    ensures GroupStart(acts, i) == GroupStart(acts, f) == f
  {
    GroupOnce(acts, f, i);
    assert f > 0 ==> acts[f - 1].symbol != acts[f].symbol;
  }

  /** Any number of entries for a token: without a shift, the first reduction stays and no other. With one, that is
      the first, and a reduction stays exactly if it is the first to have a higher precedence, or the same for a
      token that associates to the left. */
  lemma ReductionStays(acts: seq<Action>, marks: seq<Action>, f: nat, i: nat)
    requires Ordered(acts) && Resolved(acts, marks) && IsFirst(acts, f, i)
    ensures |marks| == |acts|
    ensures acts[f].code == Reduce ==> (marks[i].suppressed == 0 <==> i == f)
    ensures var shift := acts[f];
            shift.code == Shift && f < i ==>
              (marks[i].suppressed == 0 <==>
                 && (0 < shift.prec < acts[i].prec || (0 < shift.prec == acts[i].prec && shift.assoc == LEFT))
                 && forall j :: f < j < i ==> !(0 < shift.prec < acts[j].prec || (0 < shift.prec == acts[j].prec && shift.assoc == LEFT)))
  {
    hide Ordered, GroupStart;
    FirstStarts(acts, f, i);
    assert Kept(acts, |acts|, i) <==> marks[i].suppressed == 0;
  }

  /** The shift stays exactly if every reduction on the token has a lower precedence, or the same for a token that
      associates to the right, or one of the two has none. */
  lemma ShiftStays(acts: seq<Action>, marks: seq<Action>, f: nat)
    requires Ordered(acts) && Resolved(acts, marks) && IsFirst(acts, f, f) && acts[f].code == Shift
    ensures |marks| == |acts|
    ensures var shift := acts[f];
            marks[f].suppressed == 0 <==>
              forall j :: f < j < |acts| && acts[j].symbol == shift.symbol ==>
                shift.prec <= 0 || acts[j].prec <= 0 || shift.prec > acts[j].prec || (shift.prec == acts[j].prec && shift.assoc == RIGHT)
  {
    hide Ordered, GroupStart;
    FirstStarts(acts, f, f);
    assert Kept(acts, |acts|, f) <==> marks[f].suppressed == 0;
  }

  /** Of two reductions on the same token, that by the earlier rule stays. This counts as a reduce/reduce conflict,
      unless the other choice is to accept. */
  lemma ReductionsResolved(acts: seq<Action>, marks: seq<Action>, i: nat, j: nat)
    requires Ordered(acts) && Resolved(acts, marks) && IsPair(acts, i, j) && acts[i].code == Reduce
    ensures |marks| == |acts| && acts[i].number < acts[j].number && marks[i].suppressed == 0 && marks[j].suppressed != 0
    ensures forall isFinal :: (ReduceReduce(acts, isFinal, j) <==> !(isFinal && acts[i].symbol == 0))
                           && (ShiftReduce(acts, isFinal, j) <==> isFinal && acts[i].symbol == 0)
  {
    PairGroup(acts, i, j);
    assert Precedes(acts[i], acts[j]);
  }

  ghost predicate SoleRule(marks: seq<Action>, r: int) {
    && (forall i :: 0 <= i < |marks| && marks[i].suppressed == 0 ==> marks[i].code == Reduce && marks[i].number == r)
    && exists i :: 0 <= i < |marks| && marks[i].suppressed == 0 && marks[i].symbol != 1
  }

  // With %nonassoc '<' and the rules 3, E : E '<' E, and 4, E : n, the list of the state after E < E; $end is
  // token 0 and '<' is token 2, with a shift to state `number`.
  function AfterLess(number: int): seq<Action> {
    [Action(0, 3, 1, Reduce, NONASSOC, 0), Action(2, number, 1, Shift, NONASSOC, 0), Action(2, 3, 1, Reduce, NONASSOC, 0)]
  }

  /** A token that does not associate does not always stop the parser: here both entries for '<' go, but then the
      state is left with one rule to reduce by, and does so by default on any token. So E < E < E is not refused. */
  lemma NonassocByDefault(number: int, marks: seq<Action>)
    requires Resolved(AfterLess(number), marks)
    ensures |marks| == 3 && marks[1].suppressed != 0 && marks[2].suppressed != 0 && SoleRule(marks, 3)
  {
    var acts := AfterLess(number);
    assert Ordered(acts) && IsPair(acts, 1, 2);
    PairResolved(acts, marks, 1, 2);
    assert GroupStart(acts, 0) == 0 && Kept(acts, 3, 0);
    assert marks[0].suppressed == 0 && marks[0].(suppressed := 0) == acts[0];
  }

  /** sole_reduction: the rule by which alone a state reduces, on some token other than "error"; or 0. */
  method SoleReduction(marks: seq<Action>) returns (rule: int)
    requires forall i :: 0 <= i < |marks| ==> marks[i].code == Reduce ==> marks[i].number > 0
    ensures rule != 0 ==> rule > 0 && SoleRule(marks, rule)
    ensures rule == 0 ==> forall r :: !SoleRule(marks, r)
  {
    var count, ruleno := 0, 0;
    var n := 0;
    while n < |marks|
      invariant 0 <= n <= |marks| && ruleno >= 0 && count >= 0
      invariant forall i :: 0 <= i < n && marks[i].suppressed == 0 ==> marks[i].code == Reduce && marks[i].number == ruleno > 0
      invariant count > 0 <==> exists i :: 0 <= i < n && marks[i].suppressed == 0 && marks[i].symbol != 1
      invariant ruleno > 0 ==> exists i :: 0 <= i < n && marks[i].suppressed == 0
    {
      var p := marks[n];
      if p.code == Shift && p.suppressed == 0 {
        return 0;
      } else if p.code == Reduce && p.suppressed == 0 {
        if ruleno > 0 && p.number != ruleno {
          return 0;
        }
        if p.symbol != 1 {
          count := count + 1;
        }
        ruleno := p.number;
      }
      n := n + 1;
    }
    rule := if count == 0 then 0 else ruleno;
  }

  // find_final_state
  method FindFinalState(g: Grammar, a: Automaton) returns (finalState: int)
    requires Valid(g) && Canonical(g, a)
    ensures Trans(a, 0, g.Goal(), finalState)
  {
    hide Valid, Canonical, Trans;
    StartShifts(g, a);
    ghost var t :| Trans(a, 0, g.Goal(), t);
    StateShifts(g, a, 0);
    var goal := g.ritem[1];
    finalState := 0;
    var i := |a.shifts[0]| - 1;
    while i >= 0
      invariant -1 <= i < |a.shifts[0]| && t in a.shifts[0][..i + 1]
    {
      finalState := a.shifts[0][i];
      ShiftFacts(g, a, 0, i);
      if a.acc[finalState] == goal {
        assert a.shifts[0][i] in a.shifts[0];
        return;
      }
      assert a.shifts[0][..i + 1] == a.shifts[0][..i] + [finalState];
      i := i - 1;
    }
  }

  lemma StartShifts(g: Grammar, a: Automaton)
    requires Valid(g) && Canonical(g, a)
    ensures |a.shifts| > 0 && |g.ritem| > 1 && g.ritem[1] == g.Goal() && exists t :: Trans(a, 0, g.Goal(), t)
  {
    assert HasItem(g, a, 0, 1);
    var t := Advanced(g, a, 0, 1);
  }

  /** What mkpar.c leaves behind: the action list of every state with its marks (parser), the default
      reductions, the final state and the numbers of conflicts. */
  datatype Parser = Parser(marks: seq<seq<Action>>, defred: seq<int>, final: int, srTotal: nat, rrTotal: nat)

  ghost predicate ParserFor(g: Grammar, a: Automaton, p: Precedences, la: Looks, lists: seq<seq<Action>>, parser: Parser)
    requires PrecedencesFit(g, p)
  {
    && |lists| == |parser.marks| == |parser.defred| == |a.kernels|
    && (forall s: nat :: s < |a.kernels| ==> StateFor(g, a, p, la, s, lists[s], parser.marks[s], parser.defred[s]))
    && Trans(a, 0, g.Goal(), parser.final)
  }

  // The list of state s, its resolution, and its default reduction.
  ghost predicate StateFor(g: Grammar, a: Automaton, p: Precedences, la: Looks, s: nat, acts: seq<Action>, marks: seq<Action>, defred: int)
    requires PrecedencesFit(g, p)
  {
    && ActionsOf(g, a, p, la, s, acts) && Resolved(acts, marks)
    && (defred != 0 ==> defred > 0 && SoleRule(marks, defred))
    && (defred == 0 ==> forall r :: !SoleRule(marks, r))
  }

  // The conflicts in the first n lists.
  ghost function AllShiftReduces(lists: seq<seq<Action>>, final: int, n: nat): nat
    requires n <= |lists|
  {
    if n == 0 then 0 else AllShiftReduces(lists, final, n - 1) + ShiftReduces(lists[n - 1], n - 1 == final, |lists[n - 1]|)
  }

  ghost function AllReduceReduces(lists: seq<seq<Action>>, final: int, n: nat): nat
    requires n <= |lists|
  {
    if n == 0 then 0 else AllReduceReduces(lists, final, n - 1) + ReduceReduces(lists[n - 1], n - 1 == final, |lists[n - 1]|)
  }

  function OnesOf(marks: seq<seq<Action>>): nat {
    if marks == [] then 0 else OnesOf(marks[..|marks| - 1]) + Ones(marks[|marks| - 1])
  }

  ghost predicate NoPrecedences(p: Precedences) {
    (forall k :: 0 <= k < |p.symbolPrec| ==> p.symbolPrec[k] == 0) && forall r :: 0 <= r < |p.rulePrec| ==> p.rulePrec[r] == 0
  }

  lemma ListFacts(g: Grammar, a: Automaton, p: Precedences, la: Looks, s: nat, acts: seq<Action>)
    requires Valid(g) && Canonical(g, a) && PrecedencesFit(g, p) && s < |a.kernels| && ActionsOf(g, a, p, la, s, acts)
    ensures forall i :: 0 <= i < |acts| ==> acts[i].suppressed == 0 && 0 <= acts[i].symbol < g.ntokens
    ensures forall i :: 0 <= i < |acts| && acts[i].code == Shift ==> acts[i].symbol > 0 && Trans(a, s, acts[i].symbol, acts[i].number)
    ensures forall i :: 0 <= i < |acts| && acts[i].code == Reduce ==> 3 <= acts[i].number && Completes(g, a.kernels[s], acts[i].number)
    ensures NoPrecedences(p) ==> forall i :: 0 <= i < |acts| ==> acts[i].prec == 0
  {
    hide Valid, Canonical, Trans, Completes, Ordered;
    assert forall i :: 0 <= i < |acts| ==> acts[i] in acts;
    forall i | 0 <= i < |acts| && acts[i].code == Shift
      ensures acts[i].symbol > 0 && Trans(a, s, acts[i].symbol, acts[i].number)
    {
      TransFacts(g, a, s, acts[i].symbol, acts[i].number);
    }
    forall i | 0 <= i < |acts| && acts[i].code == Reduce
      ensures 3 <= acts[i].number && Completes(g, a.kernels[s], acts[i].number)
    {
      var n :| 0 <= n < |a.reds[s]| && a.reds[s][n] == acts[i].number;
      RuleNew(g, a, s, n);
    }
  }

  // parse_actions
  method ParseActions(g: Grammar, a: Automaton, p: Precedences, ghost la: Looks, LA: BitMatrix, lookaheads: seq<nat>, laruleno: seq<nat>, s: nat)
    returns (acts: seq<Action>)
    requires Valid(g) && Canonical(g, a) && PrecedencesFit(g, p) && s < |a.kernels|
    requires LA.Valid() && g.ntokens <= 32 * LA.rowsize && LA.nrows == |laruleno| && RowsHold(g, a, la, lookaheads, laruleno, LA.rows)
    ensures ActionsOf(g, a, p, la, s, acts)
  {
    Sizes(g, a);
    acts := GetShifts(g, a, p, s);
    acts := AddReductions(g, a, p, la, LA, lookaheads, laruleno, s, acts);
  }

  lemma Sizes(g: Grammar, a: Automaton)
    requires Valid(g) && Canonical(g, a)
    ensures |a.acc| == |a.shifts| == |a.reds| == |a.kernels| > 0
  {
  }

  // defreds
  method DefReds(g: Grammar, a: Automaton, p: Precedences, ghost la: Looks, ghost lists: seq<seq<Action>>, marks: seq<seq<Action>>)
    returns (defred: seq<int>)
    requires Valid(g) && Canonical(g, a) && PrecedencesFit(g, p) && |lists| == |marks| == |a.kernels|
    requires forall s :: 0 <= s < |lists| ==> ActionsOf(g, a, p, la, s, lists[s]) && Resolved(lists[s], marks[s])
    ensures |defred| == |lists| && forall s: nat :: s < |defred| ==> StateFor(g, a, p, la, s, lists[s], marks[s], defred[s])
  {
    hide Valid, Canonical, Trans, ActionsOf, Resolved, SoleRule;
    Sizes(g, a);
    defred := [];
    while |defred| < a.Nstates()
      invariant |defred| <= |a.kernels|
      invariant forall s: nat :: s < |defred| ==> StateFor(g, a, p, la, s, lists[s], marks[s], defred[s])
    {
      ghost var i := |defred|;
      ListFacts(g, a, p, la, i, lists[i]);
      MarkedFacts(lists[i], marks[i]);
      var rule := SoleReduction(marks[|defred|]);
      defred := defred + [rule];
    }
  }

  /** make_parser. Every entry marked 1 has been counted as a conflict. */
  method MakeParser(g: Grammar, a: Automaton, p: Precedences, ghost la: Looks, LA: BitMatrix, lookaheads: seq<nat>, laruleno: seq<nat>)
    returns (parser: Parser, ghost lists: seq<seq<Action>>)
    requires Valid(g) && Canonical(g, a) && PrecedencesFit(g, p)
    requires LA.Valid() && g.ntokens <= 32 * LA.rowsize && LA.nrows == |laruleno| && RowsHold(g, a, la, lookaheads, laruleno, LA.rows)
    ensures ParserFor(g, a, p, la, lists, parser)
    ensures parser.srTotal == AllShiftReduces(lists, parser.final, |lists|) && parser.rrTotal == AllReduceReduces(lists, parser.final, |lists|)
    ensures parser.srTotal + parser.rrTotal == OnesOf(parser.marks)
    ensures NoPrecedences(p) ==> forall s :: 0 <= s < |parser.marks| ==> ZeroOrOne(parser.marks[s])
  {
    hide Valid, Canonical, Trans, RowsHold, ActionsOf, Resolved, SoleRule, Ones, NoPrecedences, ShiftReduces, ReduceReduces;
    Sizes(g, a);
    var parsed: seq<seq<Action>> := [];
    while |parsed| < a.Nstates()
      invariant |parsed| <= |a.kernels| && forall s :: 0 <= s < |parsed| ==> ActionsOf(g, a, p, la, s, parsed[s])
    {
      var acts := ParseActions(g, a, p, la, LA, lookaheads, laruleno, |parsed|);
      parsed := parsed + [acts];
    }
    lists := parsed;
    var finalState := FindFinalState(g, a);
    var marks, srTotal, rrTotal := [], 0, 0;
    while |marks| < a.Nstates()
      invariant |marks| <= |a.kernels| && srTotal + rrTotal == OnesOf(marks)
      invariant srTotal == AllShiftReduces(lists, finalState, |marks|) && rrTotal == AllReduceReduces(lists, finalState, |marks|)
      invariant forall s :: 0 <= s < |marks| ==> Resolved(parsed[s], marks[s])
      invariant NoPrecedences(p) ==> forall s :: 0 <= s < |marks| ==> ZeroOrOne(marks[s])
    {
      var i := |marks|;
      ListFacts(g, a, p, la, i, parsed[i]);
      ListOrdered(g, a, p, la, i, parsed[i]);
      var resolved, srCount, rrCount := RemoveConflicts(parsed[i], i == finalState);
      assert (marks + [resolved])[..i] == marks;
      marks, srTotal, rrTotal := marks + [resolved], srTotal + srCount, rrTotal + rrCount;
    }
    var defred := DefReds(g, a, p, la, parsed, marks);
    parser := Parser(marks, defred, finalState, srTotal, rrTotal);
  }

  ghost predicate ZeroOrOne(marks: seq<Action>) {
    forall i :: 0 <= i < |marks| ==> marks[i].suppressed in {0, 1}
  }

  lemma ListOrdered(g: Grammar, a: Automaton, p: Precedences, la: Looks, s: nat, acts: seq<Action>)
    requires PrecedencesFit(g, p) && ActionsOf(g, a, p, la, s, acts)
    ensures Ordered(acts)
  {
  }

  // Marking changes nothing else.
  lemma MarkedFacts(acts: seq<Action>, marks: seq<Action>)
    requires Resolved(acts, marks)
    ensures |marks| == |acts|
    ensures forall i :: 0 <= i < |acts| ==> marks[i].symbol == acts[i].symbol && marks[i].number == acts[i].number && marks[i].code == acts[i].code
  {
    forall i | 0 <= i < |acts|
      ensures marks[i].symbol == acts[i].symbol && marks[i].number == acts[i].number && marks[i].code == acts[i].code
    {
      var x := marks[i].(suppressed := acts[i].suppressed);
      assert x == acts[i];
    }
  }

  /** A grammar without precedences and without reported conflicts has no suppressed entries. */
  lemma {:induction false} NoConflicts(marks: seq<seq<Action>>)
    requires OnesOf(marks) == 0 && forall s :: 0 <= s < |marks| ==> ZeroOrOne(marks[s])
    ensures forall s :: 0 <= s < |marks| ==> NoneSuppressed(marks[s])
  {
    if marks != [] {
      NoConflicts(marks[..|marks| - 1]);
      NoOnes(marks[|marks| - 1]);
    }
  }

  ghost predicate NoneSuppressed(marks: seq<Action>) {
    forall i :: 0 <= i < |marks| ==> marks[i].suppressed == 0
  }

  lemma {:induction false} NoOnes(marks: seq<Action>)
    requires Ones(marks) == 0 && ZeroOrOne(marks)
    ensures NoneSuppressed(marks)
  {
    if marks != [] {
      NoOnes(marks[..|marks| - 1]);
    }
  }
}
