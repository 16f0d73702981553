/** The whole generator, from a packed grammar to the tables (byacc-1.9/main.c), and what its parsers accept. */
module Generator {
  import opened Wrappers
  import opened Grammar
  import opened Closures
  import opened Automata
  import opened Seqs
  import opened BitRows
  import opened Nullables
  import opened Lr0
  import opened Gotos
  import opened Lookaheads
  import opened Lalr
  import opened Driver
  import opened Soundness
  import opened Completeness
  import opened Mkpar
  import opened Packing
  import opened Output

  /** What the stages of the generator have produced. */
  datatype Product = Product(g: Grammar, a: Automaton, value: seq<int>, m: GotoMap, p: Precedences, la: Looks,
                     lists: seq<seq<Action>>, parser: Parser, v: Vectors, t: Tables)

  ghost predicate Printed(u: Product) {
    && Valid(u.g) && Canonical(u.g, u.a) && ValidGotos(u.g, u.a, u.m) && ValidCodes(u.g, u.value)
    && PrecedencesFit(u.g, u.p) && ParserFor(u.g, u.a, u.p, u.la, u.lists, u.parser)
    && TokenVectors(u.g, u.value, u.parser, |u.a.kernels|, |u.a.kernels|, u.v)
    && TablesFor(u.g, u.a, u.parser, u.v, u.t.dgoto, u.t)
    && GotoVectors(u.g, u.a, u.m, |u.a.kernels|, u.g.Nvars() - 1, u.t.dgoto, u.v)
  }

  // What the tables say about state s.
  ghost predicate StateTables(u: Product, s: nat) {
    && s < |u.a.kernels| == |u.parser.marks| == |u.parser.defred| == |u.t.defred| == |u.t.sindex| == |u.t.rindex| == |u.lists|
    && |u.v.froms| == |u.v.tos| >= 2 * |u.a.kernels|
    && StateVectors(u.value, u.parser, |u.a.kernels|, s, u.v)
    && Finds(u.t, u.t.sindex[s], u.v, s) && Finds(u.t, u.t.rindex[s], u.v, |u.a.kernels| + s)
    && u.t.defred[s] == if u.parser.defred[s] != 0 then u.parser.defred[s] - 2 else 0
  }

  lemma PrintedState(u: Product, s: nat)
    requires Printed(u) && s < |u.a.kernels|
    ensures StateTables(u, s) && PrecedencesFit(u.g, u.p)
    ensures StateFor(u.g, u.a, u.p, u.la, s, u.lists[s], u.parser.marks[s], u.parser.defred[s])
  {
    hide Canonical, Valid, ValidGotos, StateVectors, StateFor, Finds, ValidCodes, GotoVectors;
  }

  lemma DistinctCodes(u: Product)
    requires ValidCodes(u.g, u.value)
    ensures forall j, k :: 0 <= j < u.g.ntokens && 0 <= k < u.g.ntokens && u.value[j] == u.value[k] ==> j == k
  {
    forall j, k | 0 <= j < u.g.ntokens && 0 <= k < u.g.ntokens
      ensures u.value[j] == u.value[k] ==> j == k
    {
      assert j < k ==> u.value[j] != u.value[k];
    }
  }

  // The two lookups of state s.
  lemma StateLookups(u: Product, s: nat, c: int)
    requires StateTables(u, s) && c >= 0
    ensures |u.v.froms[s]| == |u.v.tos[s]| && Lookup(u.t, u.t.sindex[s], c) == Find(u.v.froms[s], u.v.tos[s], c)
    ensures var i := |u.a.kernels| + s;
            i < |u.v.froms| && |u.v.froms[i]| == |u.v.tos[i]| && Lookup(u.t, u.t.rindex[s], c) == Find(u.v.froms[i], u.v.tos[i], c)
    ensures HoldsKept(u.value, u.parser.marks[s], Shift, 0, 0, u.v.froms[s], u.v.tos[s])
    ensures HoldsKept(u.value, u.parser.marks[s], Reduce, u.parser.defred[s], 2, u.v.froms[|u.a.kernels| + s], u.v.tos[|u.a.kernels| + s])
  {
    assert LookupIs(u.t, u.t.sindex[s], u.v, s, c) && LookupIs(u.t, u.t.rindex[s], u.v, |u.a.kernels| + s, c);
  }

  // Some kept entry of the list is for token k.
  ghost predicate HasAction(marks: seq<Action>, k: int) {
    exists i :: 0 <= i < |marks| && marks[i].suppressed == 0 && marks[i].symbol == k
  }

  /** Each kept shift of a state is the driver's choice for its token. */
  lemma ShiftChosen(u: Product, s: nat, i: nat)
    requires Printed(u) && s < |u.a.kernels| == |u.parser.marks| && IsKept(u.parser.marks[s], i, Shift)
    ensures 0 <= u.parser.marks[s][i].symbol < |u.value|
    ensures Shifts(u.t, s, u.value[u.parser.marks[s][i].symbol], u.parser.marks[s][i].number)
  {
    hide Printed, Valid, Canonical, Trans, Completes, Find, Lookup, StateVectors, Finds, ActionsOf, Resolved;
    PrintedState(u, s);
    PrintedBase(u);
    var marks := u.parser.marks[s];
    KeptApart(u.g, u.a, u.p, u.la, s, u.lists[s], marks, u.parser.defred[s]);
    StateLookups(u, s, u.value[marks[i].symbol]);
  }

  /** Each kept reduction of a state is the driver's choice for its token. */
  lemma ReduceChosen(u: Product, s: nat, i: nat)
    requires Printed(u) && s < |u.a.kernels| == |u.parser.marks| && IsKept(u.parser.marks[s], i, Reduce)
    ensures 0 <= u.parser.marks[s][i].symbol < |u.value|
    ensures ReducesOn(u.t, s, u.value[u.parser.marks[s][i].symbol], u.parser.marks[s][i].number - 2)
  {
    hide Printed, Valid, Canonical, Trans, Completes, Find, Lookup, StateVectors, Finds, ActionsOf, Resolved;
    PrintedState(u, s);
    PrintedBase(u);
    var marks := u.parser.marks[s];
    KeptApart(u.g, u.a, u.p, u.la, s, u.lists[s], marks, u.parser.defred[s]);
    var c := u.value[marks[i].symbol];
    StateLookups(u, s, c);
    DistinctCodes(u);
  }

  lemma PrintedBase(u: Product)
    requires Printed(u)
    ensures Valid(u.g) && Canonical(u.g, u.a) && ValidCodes(u.g, u.value) && |u.a.shifts| == |u.a.kernels| > 0
  {
  }

  /** Without a kept entry for the token, and without a default reduction, the driver reports a syntax error. */
  lemma NothingChosen(u: Product, s: nat, k: nat)
    requires Printed(u) && s < |u.a.kernels| == |u.parser.marks| && k < u.g.ntokens && !HasAction(u.parser.marks[s], k)
    ensures |u.value| == u.g.ntokens && |u.t.sindex| == |u.t.rindex| == |u.a.kernels|
    ensures Lookup(u.t, u.t.sindex[s], u.value[k]) == None && Lookup(u.t, u.t.rindex[s], u.value[k]) == None
  {
    hide Printed, Valid, Canonical, Trans, Completes, Find, Lookup, StateVectors, Finds, ActionsOf, Resolved;
    PrintedState(u, s);
    PrintedBase(u);
    var marks := u.parser.marks[s];
    KeptApart(u.g, u.a, u.p, u.la, s, u.lists[s], marks, u.parser.defred[s]);
    var c := u.value[k];
    StateLookups(u, s, c);
    DistinctCodes(u);
  }

  // The driver stands in state s, and the next token is k.
  ghost predicate StandsAt(u: Product, c: Config, s: nat, k: nat) {
    c.stack != [] && c.stack[|c.stack| - 1] == s && k < u.g.ntokens == |u.value| && Read(c).yychar == u.value[k]
  }

  /** In a turn of the driver, a kept shift goes to its state, unless the stack is full. */
  lemma ShiftTurn(u: Product, s: nat, i: nat, limit: nat, c: Config)
    requires Printed(u) && s < |u.a.kernels| == |u.parser.marks| && IsKept(u.parser.marks[s], i, Shift)
    requires u.parser.marks[s][i].symbol >= 0 && StandsAt(u, c, s, u.parser.marks[s][i].symbol)
    ensures Step(u.t, limit, c) ==
            if |c.stack| >= limit then Overflow else Running(Config(c.stack + [u.parser.marks[s][i].number], -1, Read(c).input))
  {
    hide Printed, Lookup, Driver.Reduce;
    ShiftChosen(u, s, i);
    TableSizes(u, s);
  }

  /** A kept reduction is made. */
  lemma ReduceTurn(u: Product, s: nat, i: nat, limit: nat, c: Config)
    requires Printed(u) && s < |u.a.kernels| == |u.parser.marks| && IsKept(u.parser.marks[s], i, Reduce)
    requires u.parser.marks[s][i].symbol >= 0 && StandsAt(u, c, s, u.parser.marks[s][i].symbol)
    ensures Reducing(u, limit, c, s, u.parser.marks[s][i].number)
  {
    hide Printed, Lookup, Driver.Reduce;
    ReduceChosen(u, s, i);
    TableSizes(u, s);
  }

  // The turn reduces by rule r; the next token is read before unless the state has a default reduction.
  ghost predicate Reducing(u: Product, limit: nat, c: Config, s: nat, r: int) {
    s < |u.t.defred| && Step(u.t, limit, c) == Driver.Reduce(u.t, limit, if u.t.defred[s] != 0 then c else Read(c), r - 2)
  }

  /** Without a kept entry for the next token, the driver reports a syntax error, if and only if the kept entries
      of the state are not all reductions by one rule; otherwise it reduces by that rule. */
  lemma IdleTurn(u: Product, s: nat, k: nat, limit: nat, c: Config)
    requires Printed(u) && s < |u.a.kernels| == |u.parser.marks| && StandsAt(u, c, s, k) && !HasAction(u.parser.marks[s], k)
    ensures (forall r :: !SoleRule(u.parser.marks[s], r)) <==> Step(u.t, limit, c) == SyntaxError
    ensures forall r :: SoleRule(u.parser.marks[s], r) ==> Reducing(u, limit, c, s, r)
  {
    hide Printed, Lookup, Driver.Reduce, SoleRule;
    NothingChosen(u, s, k);
    TableSizes(u, s);
    forall r | SoleRule(u.parser.marks[s], r)
      ensures Reducing(u, limit, c, s, r) && Step(u.t, limit, c) != SyntaxError
    {
      SoleRuleOnce(u.parser.marks[s], r, u.parser.defred[s]);
      ReduceNoError(u.t, limit, c, r - 2);
    }
  }

  lemma ReduceNoError(t: Tables, limit: nat, c: Config, n: int)
    ensures Driver.Reduce(t, limit, c, n) != SyntaxError
  {
  }

  lemma SoleRuleOnce(marks: seq<Action>, r: int, q: int)
    requires SoleRule(marks, r)
    ensures SoleRule(marks, q) ==> r == q
  {
  }

  lemma TableSizes(u: Product, s: nat)
    requires Printed(u) && s < |u.a.kernels|
    ensures |u.t.defred| == |u.t.sindex| == |u.t.rindex| == |u.a.kernels| == |u.parser.marks| == |u.parser.defred|
    ensures u.t.defred[s] == if u.parser.defred[s] != 0 then u.parser.defred[s] - 2 else 0
    ensures u.parser.defred[s] != 0 ==> u.parser.defred[s] >= 3 && SoleRule(u.parser.marks[s], u.parser.defred[s])
    ensures u.parser.defred[s] == 0 ==> forall r :: !SoleRule(u.parser.marks[s], r)
  {
    hide Printed, Valid, Canonical, Trans, Completes, StateVectors, Finds, ActionsOf, Resolved;
    PrintedState(u, s);
    PrintedBase(u);
    PrintedTables(u);
    if u.parser.defred[s] != 0 {
      var marks := u.parser.marks[s];
      KeptApart(u.g, u.a, u.p, u.la, s, u.lists[s], marks, u.parser.defred[s]);
      var i :| 0 <= i < |marks| && marks[i].suppressed == 0 && marks[i].symbol != 1;
      assert IsKept(marks, i, Reduce);
    }
  }

  // In state s, before token k, both the shift to s' and the reduction by r are possible, and nothing else.
  ghost predicate Disputed(u: Product, s: nat, k: nat, s': int, r: int)
    requires Valid(u.g)
  {
    && s < |u.a.kernels| && 0 < k < u.g.ntokens && Trans(u.a, s, k, s') && Completes(u.g, u.a.kernels[s], r) && (s, r, k) in u.la
    && forall q :: Completes(u.g, u.a.kernels[s], q) && (s, q, k) in u.la ==> q == r
  }

  lemma EntryOnce(acts: seq<Action>, i: nat, j: nat)
    requires Ordered(acts) && i < |acts| && j < |acts| && acts[i] == acts[j]
    ensures i == j
  {
  }

  lemma DisputedPair(u: Product, s: nat, k: nat, s': int, r: int) returns (i: nat, j: nat)
    requires Printed(u) && Disputed(u, s, k, s', r) && |u.lists| == |u.a.kernels|
    ensures IsPair(u.lists[s], i, j) && PrecedencesFit(u.g, u.p) && k < u.g.nsyms && 0 <= r < |u.g.rlhs|
    ensures u.lists[s][i] == ShiftOn(u.p, k, s') && u.lists[s][j] == ReduceOn(u.p, k, r)
  {
    hide Printed, Valid, Canonical, Trans, Completes, StateVectors, Finds, Kept;
    PrintedState(u, s);
    PrintedBase(u);
    PrintedSyms(u);
    ListedRule(u.g, u.a, s, r);
    var acts := u.lists[s];
    ListFacts(u.g, u.a, u.p, u.la, s, acts);
    assert IsShift(u.g, u.a, u.p, s, ShiftOn(u.p, k, s')) && IsReduction(u.g, u.a, u.p, u.la, s, ReduceOn(u.p, k, r));
    i :| 0 <= i < |acts| && acts[i] == ShiftOn(u.p, k, s');
    j :| 0 <= j < |acts| && acts[j] == ReduceOn(u.p, k, r);
    forall n | 0 <= n < |acts| && acts[n].symbol == k
      ensures n == i || n == j
    {
      assert acts[n] in acts;
      if acts[n].code == Reduce {
        assert IsReduction(u.g, u.a, u.p, u.la, s, acts[n]);
        EntryOnce(acts, n, j);
      } else {
        assert IsShift(u.g, u.a, u.p, s, acts[n]);
        TransUnique(u.g, u.a, s, k, acts[n].number, s');
        EntryOnce(acts, n, i);
      }
    }
    assert i != j && Precedes(acts[if i < j then i else j], acts[if i < j then j else i]);
  }

  /** Precedence and associativity, in a turn of the generated parser. When a shift and a reduction are possible,
      the token's precedence is compared with the rule's. The higher one wins. Of equal ones, the reduction wins if
      the token associates to the left, and the shift if it associates to the right; if it does not associate,
      this is a syntax error, unless all that is left to the state is to reduce by one rule, which is then done
      by default. Without precedences, the shift is made. */
  lemma PrecedenceDecides(u: Product, s: nat, k: nat, s': int, r: int, limit: nat, c: Config)
    requires Printed(u) && Disputed(u, s, k, s', r) && StandsAt(u, c, s, k) && s < |u.parser.marks|
    ensures k < |u.p.symbolPrec| == |u.p.symbolAssoc| && 0 <= r < |u.p.rulePrec|
    ensures var mine, other := u.p.symbolPrec[k], u.p.rulePrec[r];
            var shifts := Step(u.t, limit, c) == if |c.stack| >= limit then Overflow else Running(Config(c.stack + [s'], -1, Read(c).input));
            var error := Step(u.t, limit, c) == SyntaxError;
            if mine > 0 && other > 0 then
              if mine > other || (mine == other && u.p.symbolAssoc[k] == RIGHT) then shifts
              else if mine < other || u.p.symbolAssoc[k] == LEFT then Reducing(u, limit, c, s, r)
              else (error <==> forall q :: !SoleRule(u.parser.marks[s], q))
                   && forall q :: SoleRule(u.parser.marks[s], q) ==> Reducing(u, limit, c, s, q)
            else shifts
  {
    hide Printed, Valid, Canonical, Trans, Completes, StateVectors, Finds, Kept, ActionsOf, Step, Reducing, SoleRule;
    PrintedState(u, s);
    PrintedBase(u);
    var i, j := DisputedPair(u, s, k, s', r);
    var acts, marks := u.lists[s], u.parser.marks[s];
    ListOrdered(u.g, u.a, u.p, u.la, s, acts);
    PairResolved(acts, marks, i, j);
    MarkedFacts(acts, marks);
    if marks[i].suppressed == 0 {
      ShiftTurn(u, s, i, limit, c);
    } else if marks[j].suppressed == 0 {
      ReduceTurn(u, s, j, limit, c);
    } else {
      IdleTurn(u, s, k, limit, c);
    }
  }

  /** By their precedences, the reduction by r goes before the shift of k. */
  predicate ReduceFirst(p: Precedences, k: nat, r: nat)
    requires k < |p.symbolPrec| == |p.symbolAssoc| && r < |p.rulePrec|
  {
    && p.symbolPrec[k] > 0 && p.rulePrec[r] > 0
    && (p.symbolPrec[k] < p.rulePrec[r] || (p.symbolPrec[k] == p.rulePrec[r] && p.symbolAssoc[k] == LEFT))
  }

  /** The shift of k goes before the reduction by r. */
  predicate ShiftFirst(p: Precedences, k: nat, r: nat)
    requires k < |p.symbolPrec| == |p.symbolAssoc| && r < |p.rulePrec|
  {
    || p.symbolPrec[k] <= 0 || p.rulePrec[r] <= 0
    || p.symbolPrec[k] > p.rulePrec[r] || (p.symbolPrec[k] == p.rulePrec[r] && p.symbolAssoc[k] == RIGHT)
  }

  // What the tables say in that case.
  lemma FirstChosen(u: Product, s: nat, k: nat, s': int, r: nat)
    requires Printed(u) && Disputed(u, s, k, s', r) && s < |u.parser.marks|
    ensures k < |u.p.symbolPrec| == |u.p.symbolAssoc| && r < |u.p.rulePrec| && k < |u.value|
    ensures ReduceFirst(u.p, k, r) ==> ReducesOn(u.t, s, u.value[k], r - 2)
    ensures ShiftFirst(u.p, k, r) ==> Shifts(u.t, s, u.value[k], s')
  {
    hide Printed, Valid, Canonical, Trans, Completes, StateVectors, Finds, Kept, ActionsOf, Shifts, ReducesOn, SoleRule;
    PrintedState(u, s);
    PrintedBase(u);
    PrintedTables(u);
    var i, j := DisputedPair(u, s, k, s', r);
    var acts, marks := u.lists[s], u.parser.marks[s];
    ListOrdered(u.g, u.a, u.p, u.la, s, acts);
    PairResolved(acts, marks, i, j);
    MarkedFacts(acts, marks);
    if marks[i].suppressed == 0 {
      ShiftChosen(u, s, i);
    }
    if marks[j].suppressed == 0 {
      ReduceChosen(u, s, j);
    }
  }

  // A default reduction is one that the state may make.
  lemma DefaultReduces(u: Product, s: nat)
    requires Printed(u) && s < |u.a.kernels| == |u.t.defred| && u.t.defred[s] != 0
    ensures Reduces(u.g, u.a, s, u.t.defred[s])
  {
    hide Printed, Valid, Canonical, Trans, Completes, StateVectors, Finds, ActionsOf, Resolved;
    PrintedState(u, s);
    PrintedBase(u);
    var marks := u.parser.marks[s];
    KeptApart(u.g, u.a, u.p, u.la, s, u.lists[s], marks, u.parser.defred[s]);
    var i :| 0 <= i < |marks| && marks[i].suppressed == 0 && marks[i].symbol != 1;
    assert IsKept(marks, i, Reduce);
  }

  lemma LookupsFaithful(u: Product, s: nat, c: nat)
    requires Printed(u) && s < |u.a.kernels| == |u.t.sindex| == |u.t.rindex| && |u.value| == u.g.ntokens
    ensures ShiftFaithful(u.g, u.a, u.value, u.t, s, c) && ReduceFaithful(u.g, u.a, u.t, s, c)
  {
    hide Printed, Valid, Canonical, Trans, Completes, Find, Lookup, StateVectors, Finds, ActionsOf, Resolved;
    PrintedState(u, s);
    PrintedBase(u);
    var marks := u.parser.marks[s];
    KeptApart(u.g, u.a, u.p, u.la, s, u.lists[s], marks, u.parser.defred[s]);
    StateLookups(u, s, c);
  }

  lemma GotoChosen(u: Product, s: int, x: int, s': int)
    requires Printed(u) && Trans(u.a, s, x, s') && x >= u.g.ntokens
    ensures GotoFaithful(u.g, u.t, s, x, s')
  {
    hide Valid, Canonical, ValidGotos, ValidCodes, ParserFor, TokenVectors, StateVectors, Find, Lookup;
    PrintedBase(u);
    StateOfTrans(u.g, u.a, s, x, s');
    VarInRange(u.g, u.a, s, x, s');
    NotAccept(u.g, u.a, s, x, s');
    var n := x - u.g.Goal();
    assert Finds(u.t, u.t.gindex[n], u.v, 2 * |u.a.kernels| + n);
    assert LookupIs(u.t, u.t.gindex[n], u.v, 2 * |u.a.kernels| + n, s);
    assert ColumnFor(u.a, u.g.Goal() + n, u.t.dgoto[n], u.v.froms[2 * |u.a.kernels| + n], u.v.tos[2 * |u.a.kernels| + n]);
  }

  // There is no transition on $accept.
  lemma NotAccept(g: Grammar, a: Automaton, s: int, x: int, s': int)
    requires Valid(g) && Canonical(g, a) && Trans(a, s, x, s')
    ensures x != g.ntokens
  {
    TransFacts(g, a, s, x, s');
    var k := a.kernels[s'];
    var i := k[0];
    assert i in k;
    assert g.ritem[i - 1] == x;
  }

  /** The tables name only what the automaton allows. */
  lemma TablesFaithful(u: Product)
    requires Printed(u)
    ensures Faithful(u.g, u.a, u.value, u.t)
  {
    hide Printed, Valid, Canonical, Trans, Reduces, ShiftFaithful, ReduceFaithful, GotoFaithful;
    PrintedBase(u);
    PrintedTables(u);
    forall s | 0 <= s < |u.a.kernels| && u.t.defred[s] != 0
      ensures Reduces(u.g, u.a, s, u.t.defred[s])
    {
      DefaultReduces(u, s);
    }
    forall s, c | 0 <= s < |u.a.kernels| && 0 <= c
      ensures ShiftFaithful(u.g, u.a, u.value, u.t, s, c) && ReduceFaithful(u.g, u.a, u.t, s, c)
    {
      LookupsFaithful(u, s, c);
    }
    forall s, x, s' | Trans(u.a, s, x, s') && x >= u.g.ntokens
      ensures GotoFaithful(u.g, u.t, s, x, s')
    {
      GotoChosen(u, s, x, s');
    }
  }

  lemma PrintedTables(u: Product)
    requires Printed(u)
    ensures |u.value| == u.g.ntokens && Trans(u.a, 0, u.g.Goal(), u.t.final) && |u.t.table| == |u.t.check| == u.t.tablesize + 1
    ensures |u.t.defred| == |u.t.sindex| == |u.t.rindex| == |u.a.kernels| == |u.parser.marks|
    ensures |u.t.lhs| == |u.t.len| == |u.g.rlhs| - 2 && |u.t.gindex| == |u.t.dgoto| == u.g.Nvars() - 1 && |u.g.rrhs| == |u.g.rlhs| + 1
    ensures forall n :: 1 <= n < |u.t.lhs| ==> u.t.lhs[n] == u.g.rlhs[n + 2] - u.g.Goal() && u.t.len[n] == RuleLength(u.g, n + 2)
  {
    hide Valid, Canonical, ValidGotos, GotoVectors, TokenVectors, Trans;
  }

  // No entry of any list is suppressed.
  ghost predicate Unambiguous(u: Product) {
    forall s :: 0 <= s < |u.parser.marks| ==> NoneSuppressed(u.parser.marks[s])
  }

  /** Without suppressed entries, the driver makes every transition and every reduction that la allows. */
  lemma TablesDecide(u: Product)
    requires Printed(u) && Unambiguous(u)
    ensures Decides(u.g, u.a, u.value, u.la, u.t)
  {
    hide Printed, Valid, Canonical, Trans, Completes, Shifts, ReducesOn;
    PrintedBase(u);
    PrintedTables(u);
    forall s, k, s' | Trans(u.a, s, k, s') && 0 < k < u.g.ntokens
      ensures Shifts(u.t, s, u.value[k], s')
    {
      StateOfTrans(u.g, u.a, s, k, s');
      var i := ShiftEntry(u, s, k, s');
      ShiftChosen(u, s, i);
    }
    forall s, r, k | 0 <= s < |u.a.kernels| && Completes(u.g, u.a.kernels[s], r) && 0 <= k < u.g.ntokens && (s, r, k) in u.la
      ensures ReducesOn(u.t, s, u.value[k], r - 2)
    {
      var i := ReduceEntry(u, s, r, k);
      ReduceChosen(u, s, i);
    }
  }

  lemma ShiftEntry(u: Product, s: nat, k: nat, s': nat) returns (i: nat)
    requires Printed(u) && Unambiguous(u) && s < |u.a.kernels| == |u.parser.marks| && Trans(u.a, s, k, s') && k < u.g.ntokens
    ensures IsKept(u.parser.marks[s], i, Shift) && u.parser.marks[s][i].symbol == k && u.parser.marks[s][i].number == s'
  {
    hide Printed, Valid, Canonical, Trans, Completes, StateVectors, Finds, Kept, Ordered;
    PrintedState(u, s);
    PrintedSyms(u);
    var acts := u.lists[s];
    assert IsShift(u.g, u.a, u.p, s, ShiftOn(u.p, k, s'));
    i :| 0 <= i < |acts| && acts[i] == ShiftOn(u.p, k, s');
    MarkedFacts(acts, u.parser.marks[s]);
    assert NoneSuppressed(u.parser.marks[s]);
  }

  lemma ReduceEntry(u: Product, s: nat, r: int, k: nat) returns (i: nat)
    requires Printed(u) && Unambiguous(u) && s < |u.a.kernels| == |u.parser.marks| && k < u.g.ntokens
    requires Valid(u.g) && Completes(u.g, u.a.kernels[s], r) && (s, r, k) in u.la
    ensures IsKept(u.parser.marks[s], i, Reduce) && u.parser.marks[s][i].symbol == k && u.parser.marks[s][i].number == r
  {
    hide Printed, Valid, Canonical, Trans, Completes, StateVectors, Finds, Kept, Ordered;
    PrintedState(u, s);
    PrintedBase(u);
    ListedRule(u.g, u.a, s, r);
    var acts := u.lists[s];
    assert IsReduction(u.g, u.a, u.p, u.la, s, ReduceOn(u.p, k, r));
    i :| 0 <= i < |acts| && acts[i] == ReduceOn(u.p, k, r);
    MarkedFacts(acts, u.parser.marks[s]);
    assert NoneSuppressed(u.parser.marks[s]);
  }

  lemma PrintedSyms(u: Product)
    requires Printed(u)
    ensures u.g.ntokens < u.g.nsyms
  {
    hide Canonical, ValidGotos;
  }

  lemma ListedRule(g: Grammar, a: Automaton, s: nat, r: int)
    requires Valid(g) && Canonical(g, a) && s < |a.kernels| && Completes(g, a.kernels[s], r)
    ensures s < |a.reds| && 0 <= r < |g.rlhs| && r in a.reds[s]
  {
    assert RedsExact(g, a.kernels[s], a.reds[s]);
    var n :| 0 <= n < |a.reds[s]| && a.reds[s][n] == r;
    RuleNew(g, a, s, n);
  }

  // la is what lalr.c computes: some read and follow sets are the least ones, and la looks back from them.
  ghost predicate LooksFor(u: Product, read: seq<set<nat>>, follow: seq<set<nat>>) {
    Valid(u.g) && ReadAndFollow(u.g, u.a, u.m, read, follow) && |follow| == |u.m.from| && u.la == LaLooking(u.g, u.a, u.m, follow)
  }

  /** Every run is safe: the parser never leaves its tables or its stack, overflows only when the stack is full,
      and accepts only what the goal derives. */
  ghost predicate SoundFor(g: Grammar, value: seq<int>, t: Tables)
    requires |value| == g.ntokens
  {
    forall limit: nat, input: seq<int>, n: nat :: SafeRun(g, value, t, limit, input, n)
  }

  ghost predicate SafeRun(g: Grammar, value: seq<int>, t: Tables, limit: nat, input: seq<int>, n: nat)
    requires |value| == g.ntokens
  {
    match Run(t, limit, Start(input), n)
    case Running(c) => 2 <= limit ==> |c.stack| <= limit
    case Accepted => DerivesCodes(g, value, g.Goal(), Sentence(input))
    case SyntaxError => true
    case Overflow => WasFull(t, limit, Start(input), n)
    case Crash => false
  }

  /** Given stack enough, the parser accepts just what the goal derives; and on no stack does it report a syntax
      error for that. */
  ghost predicate ExactFor(g: Grammar, value: seq<int>, t: Tables)
    requires |value| == g.ntokens
  {
    forall input: seq<int> ::
      && (AcceptsSome(t, input) <==> DerivesCodes(g, value, g.Goal(), Sentence(input)))
      && (DerivesCodes(g, value, g.Goal(), Sentence(input)) ==> !ErrsSome(t, input))
  }

  ghost predicate ErrsSome(t: Tables, input: seq<int>) {
    exists limit: nat, n: nat :: Run(t, limit, Start(input), n) == SyntaxError
  }

  /** So a run that ends, and has never filled its stack, ends with the right verdict. */
  lemma EndsRight(g: Grammar, value: seq<int>, t: Tables, limit: nat, input: seq<int>, n: nat)
    requires |value| == g.ntokens && SoundFor(g, value, t) && ExactFor(g, value, t)
    requires !Run(t, limit, Start(input), n).Running? && !WasFull(t, limit, Start(input), n)
    ensures Run(t, limit, Start(input), n) == if DerivesCodes(g, value, g.Goal(), Sentence(input)) then Accepted else SyntaxError
  {
    hide Run, DerivesCodes, WasFull, AcceptsSome;
    assert SafeRun(g, value, t, limit, input, n);
  }

  ghost predicate AcceptsSome(t: Tables, input: seq<int>) {
    exists limit: nat :: Accepts(t, limit, input)
  }

  /** End to end, whatever the conflicts: a generated parser is sound. */
  lemma GeneratedSound(u: Product)
    requires Printed(u)
    ensures |u.value| == u.g.ntokens && SoundFor(u.g, u.value, u.t)
  {
    hide Printed, Valid, Canonical, Faithful, Run, DerivesCodes, WasFull;
    PrintedBase(u);
    TablesFaithful(u);
    forall limit: nat, input: seq<int>, n: nat
      ensures SafeRun(u.g, u.value, u.t, limit, input, n)
    {
      ParserSound(u.g, u.a, u.value, u.t, limit, input, n);
    }
  }

  /** End to end, without suppressed actions: a generated parser accepts exactly the language of the goal, and
      reports a syntax error for none of it. */
  lemma GeneratedExact(u: Product, read: seq<set<nat>>, follow: seq<set<nat>>)
    requires Printed(u) && LooksFor(u, read, follow) && Unambiguous(u)
    ensures |u.value| == u.g.ntokens && ExactFor(u.g, u.value, u.t)
  {
    hide Valid, Canonical, ValidGotos, Faithful, Decides, ReadClosed, FollowClosed, LaClosed, Run, DerivesCodes, Unambiguous,
         ParserFor, TokenVectors, TablesFor, GotoVectors, Accepts;
    TablesFaithful(u);
    TablesDecide(u);
    ReadLooksClosed(u.g, u.a, u.m, read);
    FollowLooksClosed(u.g, u.a, u.m, read, follow);
    LaLooksClosed(u.g, u.a, u.m, follow);
    var setup := Setup(u.g, u.a, u.value, u.t, Looking(u.g, u.a, u.m, read), Looking(u.g, u.a, u.m, follow), u.la);
    forall input: seq<int>
      ensures AcceptsSome(u.t, input) <==> DerivesCodes(u.g, u.value, u.g.Goal(), Sentence(input))
      ensures DerivesCodes(u.g, u.value, u.g.Goal(), Sentence(input)) ==> !ErrsSome(u.t, input)
    {
      ParserCorrect(setup, input);
      if DerivesCodes(u.g, u.value, u.g.Goal(), Sentence(input)) {
        forall limit: nat, n: nat
          ensures Run(u.t, limit, Start(input), n) != SyntaxError
        {
          ErrorsAreRight(setup, limit, input, n);
        }
      }
    }
  }

  // What a run of the generator ends with: the tables and the conflicts it has counted, or a fatal error. With
  // GotosWrap the source goes on, but ngotos + 2 does not fit the shorts that digraph puts it in.
  datatype Result = Done(t: Tables, srTotal: nat, rrTotal: nat) | TooManyStates | TooManyGotos | GotosWrap | TableTooLarge

  // lr0, lalr and make_parser have done their work on u.g: u.la are the look-aheads of the DeRemer-Pennello
  // relations, and the totals are those of the conflicts in the lists.
  ghost predicate Analyzed(u: Product) {
    && Valid(u.g) && Canonical(u.g, u.a) && ValidGotos(u.g, u.a, u.m) && ValidCodes(u.g, u.value) && PrecedencesFit(u.g, u.p)
    && ParserFor(u.g, u.a, u.p, u.la, u.lists, u.parser) && (exists read, follow :: LooksFor(u, read, follow))
    && u.parser.srTotal == AllShiftReduces(u.lists, u.parser.final, |u.lists|)
    && u.parser.rrTotal == AllReduceReduces(u.lists, u.parser.final, |u.lists|)
  }

  // The vectors of u are those of its lists and gotos, but they cannot be packed.
  ghost predicate NoTable(u: Product) {
    && u.g.Nvars() >= 1 && TokenVectors(u.g, u.value, u.parser, |u.a.kernels|, |u.a.kernels|, u.v)
    && GotoVectors(u.g, u.a, u.m, |u.a.kernels|, u.g.Nvars() - 1, u.t.dgoto, u.v)
    && ValidVectors(u.v) && exists order :: IsOrder(u.v, order) && Stuck(u.v, order)
  }

  /** The run of the generator that u tells of ends with o, and for this reason. */
  ghost predicate EndsWith(u: Product, o: Result) {
    Valid(u.g) &&
    match o
    case Done(t, srTotal, rrTotal) =>
      && Analyzed(u) && Printed(u) && t == u.t && srTotal == u.parser.srTotal && rrTotal == u.parser.rrTotal
      && (NoPrecedences(u.p) && srTotal + rrTotal == 0 ==> Unambiguous(u))
    case TooManyStates => TooMany(u.g)
    case TooManyGotos => exists a :: Canonical(u.g, a) && Sum(Counts(u.g, a)) > MAXSHORT
    case GotosWrap => exists a, m :: Canonical(u.g, a) && ValidGotos(u.g, a, m) && MAXSHORT - 2 < m.Ngotos() <= MAXSHORT
    case TableTooLarge => Analyzed(u) && NoTable(u)
  }

  /** lr0, lalr, make_parser and output. Every run of the parser is safe; and if the grammar has no precedences
      and no conflict was counted, it accepts exactly the language of the grammar's goal, and reports a syntax
      error for none of it. */
  method Generate(g: Grammar, value: seq<int>, p: Precedences) returns (o: Result, ghost u: Product)
    requires Valid(g) && ValidCodes(g, value) && PrecedencesFit(g, p)
    ensures o.Done? ==> SoundFor(g, value, o.t)
    ensures o.Done? && NoPrecedences(p) && o.srTotal + o.rrTotal == 0 ==> ExactFor(g, value, o.t)
    ensures u.g == g && u.value == value && u.p == p && EndsWith(u, o)
  {
    hide Valid, Canonical, ValidGotos, ValidCodes, PrecedencesFit, ParserFor, TokenVectors, TablesFor, GotoVectors, DerivesTable,
         NullableTable, TooMany, ReadAndFollow, LaTable, RowsHold, ValidVectors, IsOrder, Stuck, OnesOf, NoPrecedences, SoundFor, ExactFor, Counts, Sum,
         AllShiftReduces, AllReduceReduces;
    var derives := SetDerives(g);
    var nullable := SetNullable(g);
    assert NullableTable(g, nullable) by {
      NullableIs(g, nullable);
    }
    var a := GenerateStates(g, derives);
    u := Product(g, Automaton([], [], [], []), value, GotoMap([], [], []), p, iset{}, [], Parser([], [], 0, 0, 0), Vectors(0, [], [], [], []),
                 Tables([], [], [], [], [], [], [], [], [], 0, 0));
    if a.None? {
      return TooManyStates, u;
    }
    var m, lookaheads, laruleno, LA;
    ghost var read, follow;
    m, lookaheads, laruleno, LA, read, follow := ComputeLalr(g, a.value, nullable, derives);
    if m.None? {
      return TooManyGotos, u;
    }
    if m.value.Ngotos() + 2 > MAXSHORT {
      return GotosWrap, u;
    }
    ghost var la := LaLooking(g, a.value, m.value, follow);
    TableRowsHold(g, a.value, m.value, follow, lookaheads, laruleno, LA.rows);
    FollowCount(g, a.value, m.value, follow, lookaheads, laruleno, LA.rows);
    var parser;
    ghost var lists;
    parser, lists := MakeParser(g, a.value, p, la, LA, lookaheads, laruleno);
    var t;
    ghost var v, order, dgoto;
    t, v, order, dgoto := OutputTables(g, a.value, value, m.value, parser, p, la, lists);
    u := Product(g, a.value, value, m.value, p, la, lists, parser, v, u.t.(dgoto := dgoto));
    assert LooksFor(u, read, follow);
    VarCount(g);
    if t.None? {
      return TableTooLarge, u;
    }
    u := u.(t := t.value);
    SameDgoto(g, a.value, parser, v, dgoto, t.value);
    assert LooksFor(u, read, follow);
    o := Done(t.value, parser.srTotal, parser.rrTotal);
    GeneratedSound(u);
    if NoPrecedences(p) && parser.srTotal + parser.rrTotal == 0 {
      NoConflicts(parser.marks);
      assert Unambiguous(u);
      GeneratedExact(u, read, follow);
    }
  }

  lemma VarCount(g: Grammar)
    requires Valid(g)
    ensures g.Nvars() >= 1
  {
  }

  lemma SameDgoto(g: Grammar, a: Automaton, parser: Parser, v: Vectors, dgoto: seq<int>, t: Tables)
    requires TablesFor(g, a, parser, v, dgoto, t)
    ensures t.dgoto == dgoto
  {
  }

  lemma NullableIs(g: Grammar, nullable: seq<bool>)
    requires |nullable| == g.nsyms && forall x :: 0 <= x < g.nsyms ==> (nullable[x] <==> Nullable(g, x))
    ensures NullableTable(g, nullable)
  {
  }

  lemma FollowCount(g: Grammar, a: Automaton, m: GotoMap, follow: seq<set<nat>>, lookaheads: seq<nat>, laruleno: seq<nat>, rows: seq<set<nat>>)
    requires LaTable(g, a, m, follow, lookaheads, laruleno, rows)
    ensures |follow| == |m.from|
  {
  }
}
