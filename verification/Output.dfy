/** From action lists and gotos to the tables of the generated parser (byacc-1.9/output.c). */
module Output {
  import opened Wrappers
  import opened Grammar
  import opened Closures
  import opened Automata
  import opened Seqs
  import opened Gotos
  import opened Driver
  import opened Soundness
  import opened Completeness
  import opened Lr0
  import opened Mkpar
  import opened Packing

  /** The codes of the tokens (symbol_value) fit a short and are pairwise distinct; $end has code 0. */
  ghost predicate ValidCodes(g: Grammar, value: seq<int>) {
    && |value| == g.ntokens > 0 && value[0] == 0 && Distinct(value)
    && (forall k :: 0 < k < |value| ==> value[k] > 0) && forall k :: 0 <= k < |value| ==> value[k] <= MAXSHORT
  }

  // Entry i is kept, and is of this kind.
  predicate IsKept(marks: seq<Action>, i: int, code: Code) {
    0 <= i < |marks| && marks[i].suppressed == 0 && marks[i].code == code
  }

  // A list that can be printed: its kept entries are for different tokens.
  ghost predicate Printable(g: Grammar, marks: seq<Action>) {
    && (forall i :: 0 <= i < |marks| ==> 0 <= marks[i].symbol < g.ntokens && marks[i].number > 0)
    && forall i, j :: 0 <= i < j < |marks| && marks[i].suppressed == 0 && marks[j].suppressed == 0 ==> marks[i].symbol != marks[j].symbol
  }

  // How many entries of a row are in use.
  function NonZeros(row: seq<int>): nat {
    if row == [] then 0 else NonZeros(row[..|row| - 1]) + if row[|row| - 1] != 0 then 1 else 0
  }

  lemma {:induction false} NonZerosSet(row: seq<int>, k: nat, x: int)
    requires k < |row| && row[k] == 0 && x != 0
    ensures NonZeros(row[k := x]) == NonZeros(row) + 1
  {
    if k < |row| - 1 {
      NonZerosSet(row[..|row| - 1], k, x);
      assert row[k := x][..|row| - 1] == row[..|row| - 1][k := x];
    } else {
      assert row[k := x][..|row| - 1] == row[..|row| - 1];
    }
  }

  lemma {:induction false} NoNonZeros(row: seq<int>)
    requires forall k :: 0 <= k < |row| ==> row[k] == 0
    ensures NonZeros(row) == 0
  {
    if row != [] {
      NoNonZeros(row[..|row| - 1]);
    }
  }

  // The row has exactly the kept entries of this kind, except those for `skip`, among the first n.
  ghost predicate RowHasKept(marks: seq<Action>, n: nat, code: Code, skip: int, row: seq<int>) {
    && (forall i :: 0 <= i < n && IsKept(marks, i, code) && marks[i].number != skip && 0 <= marks[i].symbol < |row|
          ==> row[marks[i].symbol] == marks[i].number)
    && (forall k :: 0 <= k < |row| && row[k] != 0 ==>
          exists i :: 0 <= i < n && IsKept(marks, i, code) && marks[i].number != skip && marks[i].symbol == k)
  }

  lemma RowSkip(g: Grammar, marks: seq<Action>, n: nat, code: Code, skip: int, row: seq<int>)
    requires RowHasKept(marks, n, code, skip, row) && n < |marks|
    requires !IsKept(marks, n, code) || marks[n].number == skip
    ensures RowHasKept(marks, n + 1, code, skip, row)
  {
  }

  lemma RowAdd(g: Grammar, marks: seq<Action>, n: nat, code: Code, skip: int, row: seq<int>)
    requires RowHasKept(marks, n, code, skip, row) && n < |marks| && Printable(g, marks) && |row| == g.ntokens
    requires IsKept(marks, n, code) && marks[n].number != skip
    ensures row[marks[n].symbol] == 0
    ensures RowHasKept(marks, n + 1, code, skip, row[marks[n].symbol := marks[n].number])
    ensures NonZeros(row[marks[n].symbol := marks[n].number]) == NonZeros(row) + 1
  {
    hide NonZeros;
    var x := marks[n];
    assert row[x.symbol] == 0;
    NonZerosSet(row, x.symbol, x.number);
    var row' := row[x.symbol := x.number];
    forall k | 0 <= k < |row'| && row'[k] != 0
      ensures exists i :: 0 <= i < n + 1 && IsKept(marks, i, code) && marks[i].number != skip && marks[i].symbol == k
    {
      if k == x.symbol {
        assert IsKept(marks, n, code);
      } else {
        assert row[k] != 0;
      }
    }
  }

  /** The loop of token_actions that spreads a list over the two halves of actionrow. */
  method FillActionRow(g: Grammar, marks: seq<Action>, defred: int, actionrow: array<int>) returns (shiftcount: nat, reducecount: nat)
    requires Printable(g, marks) && actionrow.Length == 2 * g.ntokens
    modifies actionrow
    ensures RowHasKept(marks, |marks|, Shift, 0, actionrow[..g.ntokens]) && shiftcount == NonZeros(actionrow[..g.ntokens])
    ensures RowHasKept(marks, |marks|, Reduce, defred, actionrow[g.ntokens..]) && reducecount == NonZeros(actionrow[g.ntokens..])
  {
    hide RowHasKept, NonZeros;
    var j := 0;
    while j < 2 * g.ntokens
      invariant 0 <= j <= 2 * g.ntokens && forall k :: 0 <= k < j ==> actionrow[k] == 0
    {
      actionrow[j] := 0;
      j := j + 1;
    }
    EmptyRow(marks, Shift, 0, actionrow[..g.ntokens]);
    EmptyRow(marks, Reduce, defred, actionrow[g.ntokens..]);
    shiftcount, reducecount := 0, 0;
    var n := 0;
    while n < |marks|
      invariant 0 <= n <= |marks|
      invariant RowHasKept(marks, n, Shift, 0, actionrow[..g.ntokens]) && shiftcount == NonZeros(actionrow[..g.ntokens])
      invariant RowHasKept(marks, n, Reduce, defred, actionrow[g.ntokens..]) && reducecount == NonZeros(actionrow[g.ntokens..])
    {
      var p := marks[n];
      ghost var shifts, reduces := actionrow[..g.ntokens], actionrow[g.ntokens..];
      if p.suppressed == 0 {
        if p.code == Shift {
          shiftcount := shiftcount + 1;
          actionrow[p.symbol] := p.number;
          assert actionrow[..g.ntokens] == shifts[p.symbol := p.number] && actionrow[g.ntokens..] == reduces;
          RowAdd(g, marks, n, Shift, 0, shifts);
          RowSkip(g, marks, n, Reduce, defred, reduces);
        } else if p.code == Reduce && p.number != defred {
          reducecount := reducecount + 1;
          actionrow[p.symbol + g.ntokens] := p.number;
          assert actionrow[..g.ntokens] == shifts && actionrow[g.ntokens..] == reduces[p.symbol := p.number];
          RowSkip(g, marks, n, Shift, 0, shifts);
          RowAdd(g, marks, n, Reduce, defred, reduces);
        } else {
          RowSkip(g, marks, n, Shift, 0, shifts);
          RowSkip(g, marks, n, Reduce, defred, reduces);
        }
      } else {
        RowSkip(g, marks, n, Shift, 0, shifts);
        RowSkip(g, marks, n, Reduce, defred, reduces);
      }
      n := n + 1;
    }
  }

  lemma EmptyRow(marks: seq<Action>, code: Code, skip: int, row: seq<int>)
    requires forall k :: 0 <= k < |row| ==> row[k] == 0
    ensures RowHasKept(marks, 0, code, skip, row) && NonZeros(row) == 0
  {
    NoNonZeros(row);
  }

  /** The vector has, at the code of each token that the row uses, the row's entry less `less`. */
  ghost predicate Gathered(value: seq<int>, row: seq<int>, less: int, from: seq<int>, to: seq<int>) {
    && |row| <= |value| && |from| == |to| == NonZeros(row) && Distinct(from)
    && (forall k :: 0 <= k < |row| ==> GatheredAt(value[k], row[k], less, from, to))
    && (forall m :: 0 <= m < |from| ==> CodeOfUsed(value, row, from[m]))
  }

  ghost predicate GatheredAt(c: int, x: int, less: int, from: seq<int>, to: seq<int>)
    requires |from| == |to|
  {
    Find(from, to, c) == if x != 0 then Some(x - less) else None
  }

  ghost predicate CodeOfUsed(value: seq<int>, row: seq<int>, c: int) {
    exists k :: 0 <= k < |row| && k < |value| && value[k] == c && row[k] != 0
  }

  // One half of actionrow as a vector: its columns, its entries and its width.
  method Gather(g: Grammar, value: seq<int>, row: seq<int>, less: int) returns (from: seq<int>, to: seq<int>, width: int)
    requires ValidCodes(g, value) && |row| == g.ntokens
    ensures Gathered(value, row, less, from, to) && width == Span(from)
  {
    hide Gathered, Span;
    var min, max := MAXSHORT, 0;
    from, to := [], [];
    GatherNothing(value, less);
    var j := 0;
    while j < g.ntokens
      invariant 0 <= j <= g.ntokens && Gathered(value, row[..j], less, from, to)
      invariant if from == [] then min == MAXSHORT && max == 0 else min == Least(from) && max == Greatest(from)
    {
      assert row[..j + 1][..j] == row[..j];
      GatherNext(value, row[..j + 1], less, from, to);
      if row[j] != 0 {
        if min > value[j] {
          min := value[j];
        }
        if max < value[j] {
          max := value[j];
        }
        assert (from + [value[j]])[..|from|] == from;
        from, to := from + [value[j]], to + [row[j] - less];
      }
      j := j + 1;
    }
    assert row[..j] == row;
    width := if from == [] then 0 else max - min + 1;
    SpanIs(from);
  }

  lemma SpanIs(q: seq<int>)
    ensures Span(q) == if q == [] then 0 else Greatest(q) - Least(q) + 1
  {
  }

  lemma GatherNothing(value: seq<int>, less: int)
    ensures Gathered(value, [], less, [], [])
  {
  }

  lemma GatherNext(value: seq<int>, row: seq<int>, less: int, from: seq<int>, to: seq<int>)
    requires 0 < |row| <= |value| && Distinct(value) && Gathered(value, row[..|row| - 1], less, from, to)
    ensures row[|row| - 1] == 0 ==> Gathered(value, row, less, from, to)
    ensures row[|row| - 1] != 0 ==> Gathered(value, row, less, from + [value[|row| - 1]], to + [row[|row| - 1] - less])
  {
    hide Find;
    var n := |row| - 1;
    var x, c := row[n], value[n];
    forall m | 0 <= m < |from|
      ensures from[m] != c && CodeOfUsed(value, row, from[m])
    {
      var k :| 0 <= k < n && value[k] == from[m] && row[..n][k] != 0;
      assert row[k] != 0;
    }
    FindExact(from, to, c);
    if x == 0 {
      assert Gathered(value, row, less, from, to) by {
        forall k | 0 <= k < |row|
          ensures GatheredAt(value[k], row[k], less, from, to)
        {
          if k < n { assert GatheredAt(value[k], row[..n][k], less, from, to); }
        }
      }
    } else {
      var from', to' := from + [c], to + [x - less];
      forall k | 0 <= k < |row|
        ensures GatheredAt(value[k], row[k], less, from', to')
      {
        FindLast(from, to, c, x - less, value[k]);
        if k < n { assert GatheredAt(value[k], row[..n][k], less, from, to); }
      }
      assert CodeOfUsed(value, row, c);
    }
  }

  lemma FindLast(from: seq<int>, to: seq<int>, c: int, x: int, d: int)
    requires |from| == |to|
    ensures Find(from + [c], to + [x], d) == if c == d then Some(x) else Find(from, to, d)
  {
    assert (from + [c])[..|from|] == from && (to + [x])[..|to|] == to;
  }

  /** The vector's entries are the kept entries of this kind, except those for `skip`: each token's code leads
      to the entry's number, less `less`. */
  ghost predicate HoldsKept(value: seq<int>, marks: seq<Action>, code: Code, skip: int, less: int, from: seq<int>, to: seq<int>) {
    && |from| == |to|
    && (forall i :: IsKept(marks, i, code) && marks[i].number != skip && 0 <= marks[i].symbol < |value|
          ==> Find(from, to, value[marks[i].symbol]) == Some(marks[i].number - less))
    && (forall c :: Find(from, to, c).Some? ==> KeptFor(value, marks, code, skip, less, c, Find(from, to, c).value))
  }

  ghost predicate KeptFor(value: seq<int>, marks: seq<Action>, code: Code, skip: int, less: int, c: int, x: int) {
    exists i :: IsKept(marks, i, code) && marks[i].number != skip && 0 <= marks[i].symbol < |value|
                && value[marks[i].symbol] == c && marks[i].number - less == x
  }

  lemma GatheredKept(g: Grammar, value: seq<int>, marks: seq<Action>, code: Code, skip: int, less: int, row: seq<int>, from: seq<int>, to: seq<int>)
    requires ValidCodes(g, value) && Printable(g, marks) && |row| == g.ntokens
    requires RowHasKept(marks, |marks|, code, skip, row) && Gathered(value, row, less, from, to)
    ensures HoldsKept(value, marks, code, skip, less, from, to)
    ensures forall m :: 0 <= m < |from| ==> from[m] >= 0
  {
    hide Find;
    forall i | IsKept(marks, i, code) && marks[i].number != skip
      ensures Find(from, to, value[marks[i].symbol]) == Some(marks[i].number - less)
    {
      var k := marks[i].symbol;
      assert GatheredAt(value[k], row[k], less, from, to);
    }
    FindExacts(from, to);
    forall c | Find(from, to, c).Some?
      ensures KeptFor(value, marks, code, skip, less, c, Find(from, to, c).value)
    {
      var m :| 0 <= m < |from| && from[m] == c;
      assert CodeOfUsed(value, row, from[m]);
      var k :| 0 <= k < |row| && value[k] == c && row[k] != 0;
      assert GatheredAt(value[k], row[k], less, from, to);
      var i :| 0 <= i < |marks| && IsKept(marks, i, code) && marks[i].number != skip && marks[i].symbol == k;
      assert row[marks[i].symbol] == marks[i].number;
    }
    forall m | 0 <= m < |from|
      ensures from[m] >= 0
    {
      assert CodeOfUsed(value, row, from[m]);
    }
  }

  lemma FindExacts(from: seq<int>, to: seq<int>)
    requires |from| == |to| && Distinct(from)
    ensures forall c :: Find(from, to, c).Some? ==> c in from
  {
    forall c | Find(from, to, c).Some?
      ensures c in from
    {
      FindExact(from, to, c);
    }
  }

  // Vector i gets these entries.
  function WithVector(v: Vectors, i: nat, from: seq<int>, to: seq<int>, tally: nat, width: int): Vectors
    requires i < |v.froms| == |v.tos| == |v.tally| == |v.width|
  {
    Vectors(v.nrows, v.froms[i := from], v.tos[i := to], v.tally[i := tally], v.width[i := width])
  }

  lemma WithVectorValid(v: Vectors, i: nat, from: seq<int>, to: seq<int>, tally: nat, width: int)
    requires ValidVectors(v) && i < |v.froms| && |from| == |to| == tally && Distinct(from) && width == Span(from)
    requires forall m :: 0 <= m < |from| ==> from[m] >= 0
    ensures ValidVectors(WithVector(v, i, from, to, tally, width))
  {
    hide Span, Distinct;
    var v' := WithVector(v, i, from, to, tally, width);
    forall j: nat | j < |v'.froms|
      ensures ValidVector(v', j)
    {
      assert ValidVector(v, j);
    }
  }

  /** What token_actions makes of the first n states: for state s, vector s holds its shifts, and vector
      nstates + s its reductions other than the default one, numbered as in the tables. */
  ghost predicate TokenVectors(g: Grammar, value: seq<int>, parser: Parser, nstates: nat, n: nat, v: Vectors) {
    && n <= nstates == |parser.marks| == |parser.defred| && 2 * nstates <= |v.froms| == |v.tos|
    && forall s: nat :: s < n ==> StateVectors(value, parser, nstates, s, v)
  }

  ghost predicate StateVectors(value: seq<int>, parser: Parser, nstates: nat, s: nat, v: Vectors) {
    && s < nstates <= |parser.marks| && nstates <= |parser.defred| && nstates + s < |v.froms| == |v.tos|
    && HoldsKept(value, parser.marks[s], Shift, 0, 0, v.froms[s], v.tos[s])
    && HoldsKept(value, parser.marks[s], Reduce, parser.defred[s], 2, v.froms[nstates + s], v.tos[nstates + s])
  }

  /** token_actions */
  method TokenActions(g: Grammar, value: seq<int>, parser: Parser, v0: Vectors) returns (v: Vectors)
    requires ValidCodes(g, value) && |parser.marks| == |parser.defred|
    requires forall s :: 0 <= s < |parser.marks| ==> Printable(g, parser.marks[s])
    requires ValidVectors(v0) && 2 * |parser.marks| <= |v0.froms|
    ensures ValidVectors(v) && |v.froms| == |v0.froms| && v.nrows == v0.nrows
    ensures TokenVectors(g, value, parser, |parser.marks|, |parser.marks|, v)
  {
    hide HoldsKept, RowHasKept, Gathered, ValidCodes, Printable, Find, NonZeros, Span;
    v := v0;
    var nstates := |parser.marks|;
    var actionrow := new int[2 * g.ntokens];
    var i := 0;
    while i < nstates
      invariant 0 <= i <= nstates && ValidVectors(v) && |v.froms| == |v0.froms| && v.nrows == v0.nrows
      invariant TokenVectors(g, value, parser, nstates, i, v)
    {
      ghost var was := v;
      var marks := parser.marks[i];
      var shiftcount, reducecount := FillActionRow(g, marks, parser.defred[i], actionrow);
      var from, to, width := Gather(g, value, actionrow[..g.ntokens], 0);
      GatheredKept(g, value, marks, Shift, 0, 0, actionrow[..g.ntokens], from, to);
      GatheredShape(value, actionrow[..g.ntokens], 0, from, to);
      WithVectorValid(v, i, from, to, shiftcount, width);
      v := WithVector(v, i, from, to, shiftcount, width);
      var from', to', width' := Gather(g, value, actionrow[g.ntokens..], 2);
      GatheredKept(g, value, marks, Reduce, parser.defred[i], 2, actionrow[g.ntokens..], from', to');
      GatheredShape(value, actionrow[g.ntokens..], 2, from', to');
      WithVectorValid(v, nstates + i, from', to', reducecount, width');
      v := WithVector(v, nstates + i, from', to', reducecount, width');
      forall s: nat | s < i + 1
        ensures StateVectors(value, parser, nstates, s, v)
      {
        if s < i { assert StateVectors(value, parser, nstates, s, was); }
      }
      i := i + 1;
    }
  }

  lemma GatheredShape(value: seq<int>, row: seq<int>, less: int, from: seq<int>, to: seq<int>)
    requires Gathered(value, row, less, from, to)
    ensures |from| == |to| == NonZeros(row) && Distinct(from)
  {
  }

  /** d is the most frequent entry of q, and the least such; 0 if there is none. */
  ghost predicate MostFrequent(q: seq<nat>, d: nat) {
    && (q == [] ==> d == 0)
    && forall t: nat {:trigger multiset(q)[t]} :: multiset(q)[t] <= multiset(q)[d] && (t < d ==> multiset(q)[t] < multiset(q)[d])
  }

  lemma CountNext(q: seq<nat>, n: nat)
    requires n < |q|
    ensures multiset(q[..n + 1]) == multiset(q[..n])[q[n] := multiset(q[..n])[q[n]] + 1]
  {
    assert q[..n + 1] == q[..n] + [q[n]];
  }

  /** default_goto: the state that most of the gotos m.to[lo..hi] lead to. */
  method DefaultGoto(to: seq<nat>, nstates: nat, stateCount: array<nat>) returns (defaultState: nat)
    requires stateCount.Length == nstates && forall i :: 0 <= i < |to| ==> to[i] < nstates
    modifies stateCount
    ensures MostFrequent(to, defaultState)
  {
    if to == [] {
      return 0;
    }
    for i := 0 to nstates
      invariant forall t :: 0 <= t < i ==> stateCount[t] == 0
    {
      stateCount[i] := 0;
    }
    for i := 0 to |to|
      invariant forall t :: 0 <= t < nstates ==> stateCount[t] == multiset(to[..i])[t]
    {
      CountNext(to, i);
      stateCount[to[i]] := stateCount[to[i]] + 1;
    }
    assert to[..|to|] == to;
    defaultState := MostCounted(stateCount);
    OutsideUncounted(to, nstates);
    assert multiset(to)[to[0]] > 0;
  }

  // The loop that looks for the greatest count.
  method MostCounted(stateCount: array<nat>) returns (defaultState: nat)
    ensures stateCount.Length == 0 ==> defaultState == 0
    ensures stateCount.Length > 0 ==> defaultState < stateCount.Length
    ensures forall t :: 0 <= t < stateCount.Length ==> stateCount[t] <= stateCount[defaultState]
    ensures forall t :: 0 <= t < defaultState ==> stateCount[t] < stateCount[defaultState]
  {
    var max := 0;
    defaultState := 0;
    for i := 0 to stateCount.Length
      invariant defaultState <= i && (defaultState == i ==> i == 0)
      invariant if i == 0 then max == 0 else max == stateCount[defaultState]
      invariant forall t :: 0 <= t < i ==> stateCount[t] <= max
      invariant forall t :: 0 <= t < defaultState ==> stateCount[t] < max
    {
      if stateCount[i] > max {
        max, defaultState := stateCount[i], i;
      }
    }
  }

  lemma OutsideUncounted(q: seq<nat>, n: nat)
    requires forall i :: 0 <= i < |q| ==> q[i] < n
    ensures forall t: nat :: n <= t ==> multiset(q)[t] == 0
  {
    forall t: nat | n <= t
      ensures multiset(q)[t] == 0
    {
      assert t !in q;
    }
  }

  /** The column of variable x: its default destination, and the gotos that lead elsewhere. */
  ghost predicate ColumnFor(a: Automaton, x: int, default: int, from: seq<int>, to: seq<int>) {
    && |from| == |to|
    && (forall s, t :: Trans(a, s, x, t) ==> Find(from, to, s) == if t == default then None else Some(t))
    && (forall s :: Find(from, to, s).Some? ==> Trans(a, s, x, Find(from, to, s).value))
  }

  // The gotos from number lo up to n that do not lead to the default.
  ghost predicate Others(m: GotoMap, lo: nat, n: nat, default: int, from: seq<int>, to: seq<int>) {
    && lo <= n <= |m.from| == |m.to| && |from| == |to| && StrictlyIncreasing(from)
    && (forall k: nat :: lo <= k < n && m.to[k] != default ==> InColumn(from, to, m.from[k], m.to[k]))
    && (forall j :: 0 <= j < |from| ==> IsOther(m, lo, n, default, from[j], to[j]))
  }

  ghost predicate InColumn(from: seq<int>, to: seq<int>, s: int, t: int)
    requires |from| == |to|
  {
    exists j :: 0 <= j < |from| && from[j] == s && to[j] == t
  }

  ghost predicate IsOther(m: GotoMap, lo: nat, n: nat, default: int, s: int, t: int)
    requires n <= |m.from| == |m.to|
  {
    exists k :: lo <= k < n && m.to[k] != default && m.from[k] == s && m.to[k] == t
  }

  lemma OthersNext(m: GotoMap, lo: nat, n: nat, default: int, from: seq<int>, to: seq<int>)
    requires Others(m, lo, n, default, from, to) && n < |m.from|
    requires forall k :: lo <= k < n ==> m.from[k] < m.from[n]
    ensures m.to[n] == default ==> Others(m, lo, n + 1, default, from, to)
    ensures m.to[n] != default ==> Others(m, lo, n + 1, default, from + [m.from[n]], to + [m.to[n]])
  {
    var from', to' := from + [m.from[n]], to + [m.to[n]];
    forall j | 0 <= j < |from|
      ensures IsOther(m, lo, n + 1, default, from[j], to[j]) && from[j] < m.from[n]
    {
      assert IsOther(m, lo, n, default, from[j], to[j]);
    }
    forall k: nat | lo <= k < n && m.to[k] != default
      ensures InColumn(from', to', m.from[k], m.to[k])
    {
      assert InColumn(from, to, m.from[k], m.to[k]);
      var j :| 0 <= j < |from| && from[j] == m.from[k] && to[j] == m.to[k];
      assert from'[j] == m.from[k] && to'[j] == m.to[k];
    }
    assert from'[|from|] == m.from[n] && to'[|from|] == m.to[n];
  }

  /** save_column */
  method SaveColumn(g: Grammar, ghost a: Automaton, m: GotoMap, symbol: nat, default: nat) returns (from: seq<int>, to: seq<int>)
    requires Valid(g) && Canonical(g, a) && ValidGotos(g, a, m) && g.ntokens <= symbol < g.nsyms
    ensures ColumnFor(a, symbol, default, from, to) && StrictlyIncreasing(from) && forall j :: 0 <= j < |from| ==> from[j] >= 0
  {
    hide Valid, Canonical, ValidGotos, Others, Trans, ColumnFor;
    ghost var v := symbol - g.ntokens;
    MapSize(g, a, m, v);
    SearchFacts(g, a, m, v);
    var lo, hi := m.start[symbol - g.ntokens], m.start[symbol + 1 - g.ntokens];
    from, to := [], [];
    assert Others(m, lo, lo, default, [], []) by {
      NoOthers(m, lo, default);
    }
    for i := lo to hi
      invariant Others(m, lo, i, default, from, to)
    {
      OthersNext(m, lo, i, default, from, to);
      if m.to[i] != default {
        from, to := from + [m.from[i]], to + [m.to[i]];
      }
    }
    OthersColumn(g, a, m, v, default, from, to);
  }

  lemma NoOthers(m: GotoMap, lo: nat, default: int)
    requires lo <= |m.from| == |m.to|
    ensures Others(m, lo, lo, default, [], [])
  {
  }

  lemma MapSize(g: Grammar, a: Automaton, m: GotoMap, v: nat)
    requires ValidGotos(g, a, m) && v < g.Nvars()
    ensures v + 1 < |m.start| && m.start[v] <= m.start[v + 1] <= |m.from| == |m.to|
  {
    assert BucketAt(g, a, m, v);
  }

  lemma OthersColumn(g: Grammar, a: Automaton, m: GotoMap, v: nat, default: int, from: seq<int>, to: seq<int>)
    requires Valid(g) && Canonical(g, a) && ValidGotos(g, a, m) && v < g.Nvars()
    requires Others(m, m.start[v], m.start[v + 1], default, from, to)
    ensures ColumnFor(a, v + g.ntokens, default, from, to) && StrictlyIncreasing(from) && forall j :: 0 <= j < |from| ==> from[j] >= 0
  {
    hide Valid, Canonical, ValidGotos, Trans, Find;
    MapSize(g, a, m, v);
    var x := v + g.ntokens;
    forall j | 0 <= j < |from|
      ensures from[j] >= 0 && Trans(a, from[j], x, to[j]) && to[j] != default
    {
      assert IsOther(m, m.start[v], m.start[v + 1], default, from[j], to[j]);
      var k :| m.start[v] <= k < m.start[v + 1] && m.to[k] != default && m.from[k] == from[j] && m.to[k] == to[j];
      TransOfGoto(g, a, m, v, k);
    }
    forall s
      ensures Find(from, to, s).Some? ==> Trans(a, s, x, Find(from, to, s).value) && Find(from, to, s).value != default
    {
      FindExact(from, to, s);
    }
    forall s, t | Trans(a, s, x, t)
      ensures Find(from, to, s) == if t == default then None else Some(t)
    {
      var k := GotoOfTrans(g, a, m, s, x, t);
      FindExact(from, to, s);
      if t == default {
        if Find(from, to, s).Some? {
          TransUnique(g, a, s, x, t, Find(from, to, s).value);
        }
      } else {
        assert InColumn(from, to, s, t);
      }
    }
  }

  lemma IncreasingSpan(q: seq<int>)
    requires StrictlyIncreasing(q)
    ensures Distinct(q) && Span(q) == if q == [] then 0 else q[|q| - 1] - q[0] + 1
  {
    if q != [] {
      LeastIs(q);
      GreatestIs(q);
    }
  }

  /** What goto_actions makes of the first n variables from the goal symbol on. */
  ghost predicate GotoVectors(g: Grammar, a: Automaton, m: GotoMap, nstates: nat, n: nat, dgoto: seq<int>, v: Vectors) {
    && |dgoto| == n && 2 * nstates + n <= |v.froms| == |v.tos|
    && (forall i: nat :: i < n ==> ColumnFor(a, g.Goal() + i, dgoto[i], v.froms[2 * nstates + i], v.tos[2 * nstates + i]))
    && (forall i: nat :: i < n ==> DefaultFor(m, i + 1, dgoto[i]))
  }

  // d is the default destination of variable v, counted from ntokens.
  ghost predicate DefaultFor(m: GotoMap, v: nat, d: int) {
    v + 1 < |m.start| && m.start[v] <= m.start[v + 1] <= |m.to| && d >= 0 && MostFrequent(m.to[m.start[v]..m.start[v + 1]], d)
  }

  /** goto_actions: a default destination for each variable, and a column for the rest of its gotos. */
  method GotoActions(g: Grammar, a: Automaton, m: GotoMap, v0: Vectors) returns (v: Vectors, dgoto: seq<int>)
    requires Valid(g) && Canonical(g, a) && ValidGotos(g, a, m)
    requires ValidVectors(v0) && |v0.froms| == 2 * a.Nstates() + g.Nvars()
    ensures ValidVectors(v) && |v.froms| == |v0.froms| && v.nrows == v0.nrows
    ensures GotoVectors(g, a, m, a.Nstates(), g.Nvars() - 1, dgoto, v)
    ensures forall i :: 0 <= i < 2 * a.Nstates() ==> v.froms[i] == v0.froms[i] && v.tos[i] == v0.tos[i]
  {
    hide Valid, Canonical, ValidGotos, ColumnFor, MostFrequent, Span, Trans, GotoVectors, StrictlyIncreasing, Distinct;
    v, dgoto := v0, [];
    var nstates := a.Nstates();
    VarsOf(g, a, m);
    var stateCount := new nat[nstates];
    NoColumns(g, a, m, nstates, v);
    var i := g.Goal();
    while i < g.nsyms
      invariant g.Goal() <= i <= g.nsyms && ValidVectors(v) && |v.froms| == |v0.froms| && v.nrows == v0.nrows
      invariant GotoVectors(g, a, m, nstates, i - g.Goal(), dgoto, v)
      invariant forall j :: 0 <= j < 2 * nstates ==> v.froms[j] == v0.froms[j] && v.tos[j] == v0.tos[j]
    {
      MapSize(g, a, m, i - g.ntokens);
      GotosInside(g, a, m, i - g.ntokens);
      var k := DefaultGoto(m.to[m.start[i - g.ntokens]..m.start[i + 1 - g.ntokens]], nstates, stateCount);
      var from, to := SaveColumn(g, a, m, i, k);
      IncreasingSpan(from);
      ColumnSizes(a, i, k, from, to);
      var symno := 2 * nstates + (i - g.Goal());
      var width := if from == [] then 0 else from[|from| - 1] - from[0] + 1;
      WithVectorValid(v, symno, from, to, |from|, width);
      assert DefaultFor(m, i - g.ntokens, k);
      GotoVectorsNext(g, a, m, nstates, i - g.Goal(), dgoto, v, k, from, to, width);
      v, dgoto := WithVector(v, symno, from, to, |from|, width), dgoto + [k];
      i := i + 1;
    }
  }

  lemma GotoVectorsNext(g: Grammar, a: Automaton, m: GotoMap, nstates: nat, n: nat, dgoto: seq<int>, v: Vectors,
                        k: int, from: seq<int>, to: seq<int>, width: int)
    requires GotoVectors(g, a, m, nstates, n, dgoto, v) && 2 * nstates + n < |v.froms| == |v.tos| == |v.tally| == |v.width|
    requires ColumnFor(a, g.Goal() + n, k, from, to) && DefaultFor(m, n + 1, k)
    ensures GotoVectors(g, a, m, nstates, n + 1, dgoto + [k], WithVector(v, 2 * nstates + n, from, to, |from|, width))
  {
    hide ColumnFor, DefaultFor;
    var v', dgoto' := WithVector(v, 2 * nstates + n, from, to, |from|, width), dgoto + [k];
    forall j: nat | j < n + 1
      ensures ColumnFor(a, g.Goal() + j, dgoto'[j], v'.froms[2 * nstates + j], v'.tos[2 * nstates + j])
    {
      if j < n {
        assert ColumnFor(a, g.Goal() + j, dgoto[j], v.froms[2 * nstates + j], v.tos[2 * nstates + j]);
      }
    }
  }

  lemma NoColumns(g: Grammar, a: Automaton, m: GotoMap, nstates: nat, v: Vectors)
    requires 2 * nstates <= |v.froms| == |v.tos|
    ensures GotoVectors(g, a, m, nstates, 0, [], v)
  {
  }

  lemma VarsOf(g: Grammar, a: Automaton, m: GotoMap)
    requires Valid(g) && ValidGotos(g, a, m)
    ensures g.Goal() < g.nsyms && g.Nvars() >= 2 && |m.start| == g.Nvars() + 1
  {
  }

  lemma ColumnSizes(a: Automaton, x: int, default: int, from: seq<int>, to: seq<int>)
    requires ColumnFor(a, x, default, from, to)
    ensures |from| == |to|
  {
  }

  lemma GotosInside(g: Grammar, a: Automaton, m: GotoMap, v: nat)
    requires Valid(g) && Canonical(g, a) && ValidGotos(g, a, m) && v < g.Nvars()
    ensures forall k :: m.start[v] <= k < m.start[v + 1] ==> k < |m.to| && m.to[k] < |a.kernels|
  {
    forall k | m.start[v] <= k < m.start[v + 1]
      ensures k < |m.to| && m.to[k] < |a.kernels|
    {
      TransOfGoto(g, a, m, v, k);
      StateOfTrans(g, a, m.from[k], v + g.ntokens, m.to[k]);
    }
  }

  /** The tables that output.c prints, and what lookups in them find. */
  ghost predicate TablesFor(g: Grammar, a: Automaton, parser: Parser, v: Vectors, dgoto: seq<int>, t: Tables)
  {
    && |t.defred| == |t.sindex| == |t.rindex| == |parser.defred| == |a.kernels|
    && |t.lhs| == |t.len| == |g.rlhs| - 2 && |g.rrhs| == |g.rlhs| + 1
    && |t.gindex| == |t.dgoto| == |dgoto| == g.Nvars() - 1 && t.dgoto == dgoto && t.final == parser.final
    && |t.table| == |t.check| == t.tablesize + 1
    && (forall n :: 1 <= n < |t.lhs| ==> t.lhs[n] == g.rlhs[n + 2] - g.Goal() && t.len[n] == RuleLength(g, n + 2))
    && (forall s :: 0 <= s < |t.defred| ==> t.defred[s] == if parser.defred[s] != 0 then parser.defred[s] - 2 else 0)
    && (forall s: nat :: s < |a.kernels| ==> Finds(t, t.sindex[s], v, s))
    && (forall s: nat :: s < |a.kernels| ==> Finds(t, t.rindex[s], v, |a.kernels| + s))
    && (forall n: nat :: n < |t.gindex| ==> Finds(t, t.gindex[n], v, 2 * |a.kernels| + n))
  }

  // Lookups at this base find just the entries of vector i.
  ghost predicate Finds(t: Tables, base: int, v: Vectors, i: nat) {
    forall c: nat :: LookupIs(t, base, v, i, c)
  }

  ghost predicate LookupIs(t: Tables, base: int, v: Vectors, i: nat, c: nat) {
    i < |v.froms| == |v.tos| && |v.froms[i]| == |v.tos[i]| && Lookup(t, base, c) == Find(v.froms[i], v.tos[i], c)
  }

  lemma KeptApart(g: Grammar, a: Automaton, p: Precedences, la: Looks, s: nat, acts: seq<Action>, marks: seq<Action>, defred: int)
    requires Valid(g) && Canonical(g, a) && PrecedencesFit(g, p) && s < |a.kernels| && StateFor(g, a, p, la, s, acts, marks, defred)
    ensures Printable(g, marks)
    ensures forall i :: IsKept(marks, i, Shift) ==> marks[i].symbol > 0 && Trans(a, s, marks[i].symbol, marks[i].number)
    ensures forall i :: IsKept(marks, i, Reduce) ==> marks[i].number >= 3 && Completes(g, a.kernels[s], marks[i].number)
  {
    hide Valid, Canonical, Trans, Completes, ActionsOf, Kept, SoleRule;
    ListFacts(g, a, p, la, s, acts);
    ListOrdered(g, a, p, la, s, acts);
    MarkedFacts(acts, marks);
    forall i | 0 <= i < |marks| && acts[i].code == Shift
      ensures marks[i].number > 0
    {
      TransFacts(g, a, s, acts[i].symbol, acts[i].number);
    }
    forall i, j | 0 <= i < j < |marks| && marks[i].suppressed == 0 && marks[j].suppressed == 0
      ensures marks[i].symbol != marks[j].symbol
    {
      if acts[i].symbol == acts[j].symbol {
        KeptOnce(acts, i, j);
      }
    }
  }

  // output_rule_data
  method RuleData(g: Grammar) returns (lhs: seq<int>, len: seq<int>)
    requires Valid(g)
    ensures |lhs| == |len| == |g.rlhs| - 2
    ensures forall n :: 1 <= n < |lhs| ==> lhs[n] == g.rlhs[n + 2] - g.Goal() && len[n] == RuleLength(g, n + 2)
  {
    lhs, len := [-1], [2];
    for i := 3 to g.Nrules()
      invariant |lhs| == |len| == i - 2
      invariant forall n :: 1 <= n < |lhs| ==> lhs[n] == g.rlhs[n + 2] - g.Goal() && len[n] == RuleLength(g, n + 2)
    {
      lhs, len := lhs + [g.rlhs[i] - g.Goal()], len + [g.rrhs[i + 1] - g.rrhs[i] - 1];
    }
  }

  /** output_rule_data, output_yydefred and output_actions. Without tables, some vector has found no room. */
  method OutputTables(g: Grammar, a: Automaton, value: seq<int>, m: GotoMap, parser: Parser,
                      ghost p: Precedences, ghost la: Looks, ghost lists: seq<seq<Action>>)
    returns (t: Option<Tables>, ghost v: Vectors, ghost order: seq<nat>, ghost dgoto: seq<int>)
    requires Valid(g) && Canonical(g, a) && ValidGotos(g, a, m) && ValidCodes(g, value)
    requires PrecedencesFit(g, p) && ParserFor(g, a, p, la, lists, parser)
    ensures TokenVectors(g, value, parser, |a.kernels|, |a.kernels|, v) && ValidVectors(v) && IsOrder(v, order)
    ensures GotoVectors(g, a, m, |a.kernels|, g.Nvars() - 1, dgoto, v)
    ensures t.Some? ==> TablesFor(g, a, parser, v, dgoto, t.value)
    ensures t.None? ==> Stuck(v, order)
  {
    hide Valid, Canonical, ValidGotos, Trans, StateFor, ValidCodes, Printable, TokenVectors, GotoVectors, IsOrder, Stuck, ValidVectors, Finds;
    VarsOf(g, a, m);
    forall s: nat | s < |a.kernels|
      ensures Printable(g, parser.marks[s])
    {
      KeptApart(g, a, p, la, s, lists[s], parser.marks[s], parser.defred[s]);
    }
    var lhs, len := RuleData(g);
    var nstates := a.Nstates();
    var nvectors := 2 * nstates + g.Nvars();
    var v0 := Vectors(2 * nstates, seq(nvectors, _ => []), seq(nvectors, _ => []), seq(nvectors, _ => 0), seq(nvectors, _ => 0));
    NoVectors(v0);
    var v1 := TokenActions(g, value, parser, v0);
    VectorSizes(v1);
    var v2, defaults := GotoActions(g, a, m, v1);
    VectorSizes(v2);
    TokensStay(g, value, parser, nstates, v1, v2);
    v, dgoto := v2, defaults;
    var packed: Option<Comb>;
    packed, order := PackVectors(v2);
    if packed.None? {
      return None, v, order, dgoto;
    }
    var base, table, check := packed.value.base, packed.value.table, packed.value.check;
    var defred := seq(nstates, s requires 0 <= s < nstates => if parser.defred[s] != 0 then parser.defred[s] - 2 else 0);
    var t' := Tables(lhs, len, defred, defaults, base[..nstates], base[nstates..2 * nstates], base[2 * nstates..nvectors - 1],
                     table, check, |table| - 1, parser.final);
    RrhsSize(g);
    GotoCount(g, a, m, dgoto, v);
    forall i: nat | i < nvectors
      ensures Finds(t', base[i], v, i)
    {
      CarriesAt(packed.value, v, t', i);
    }
    t := Some(t');
  }

  /** base, and the parts of table and check that are printed. */
  datatype Comb = Comb(base: seq<int>, table: seq<int>, check: seq<int>)

  // With the printed tables, a lookup for any vector finds just its entries.
  ghost predicate Carries(packed: Comb, v: Vectors) {
    && |packed.base| == |v.froms| && |packed.table| == |packed.check| > 0
    && forall t: Tables, i: nat {:trigger Finds(t, packed.base[i], v, i)} ::
         i < |packed.base| && t.table == packed.table && t.check == packed.check && t.tablesize == |packed.table| - 1
         ==> Finds(t, packed.base[i], v, i)
  }

  lemma CarriesAt(packed: Comb, v: Vectors, t: Tables, i: nat)
    requires Carries(packed, v) && i < |packed.base|
    requires t.table == packed.table && t.check == packed.check && t.tablesize == |packed.table| - 1
    ensures Finds(t, packed.base[i], v, i)
  {
  }

  // sort_actions and pack_table
  method PackVectors(v: Vectors) returns (packed: Option<Comb>, ghost order: seq<nat>)
    requires ValidVectors(v)
    ensures IsOrder(v, order) && if packed.Some? then Carries(packed.value, v) else Stuck(v, order)
  {
    hide IsOrder, Packed, BasesFor, StuckAt, PlacedInTurn, UsedBelow, ValidVectors, Finds;
    VectorSizes(v);
    var ordering, nentries := SortActions(v);
    order := ordering[..nentries];
    var packer := new Packer(v, ordering[..nentries]);
    var ok;
    ghost var placed;
    ok, placed := packer.PackTable();
    if !ok {
      return None, order;
    }
    PackerSizes(packer);
    packed := Some(Comb(packer.base[..], packer.table[..packer.high + 1], packer.check[..packer.high + 1]));
    forall t: Tables, i: nat | i < |v.froms| && t.table == packed.value.table && t.check == packed.value.check && t.tablesize == packer.high
      ensures Finds(t, packed.value.base[i], v, i)
    {
      PackerFinds(packer, t, i);
    }
  }

  lemma NoVectors(v: Vectors)
    requires |v.froms| == |v.tos| == |v.tally| == |v.width|
    requires forall i :: 0 <= i < |v.froms| ==> v.froms[i] == v.tos[i] == [] && v.tally[i] == 0 && v.width[i] == 0
    ensures ValidVectors(v)
  {
  }

  lemma VectorSizes(v: Vectors)
    requires ValidVectors(v)
    ensures |v.froms| == |v.tos| == |v.tally| == |v.width|
  {
  }

  lemma RrhsSize(g: Grammar)
    requires Valid(g)
    ensures |g.rrhs| == |g.rlhs| + 1
  {
  }

  lemma GotoCount(g: Grammar, a: Automaton, m: GotoMap, dgoto: seq<int>, v: Vectors)
    requires g.Nvars() >= 1 && GotoVectors(g, a, m, |a.kernels|, g.Nvars() - 1, dgoto, v)
    ensures |dgoto| == g.Nvars() - 1
  {
  }

  lemma TokensStay(g: Grammar, value: seq<int>, parser: Parser, nstates: nat, v: Vectors, v': Vectors)
    requires TokenVectors(g, value, parser, nstates, nstates, v) && |v'.froms| == |v'.tos| == |v.froms|
    requires forall i :: 0 <= i < 2 * nstates ==> v'.froms[i] == v.froms[i] && v'.tos[i] == v.tos[i]
    ensures TokenVectors(g, value, parser, nstates, nstates, v')
  {
    hide HoldsKept;
    forall s: nat | s < nstates
      ensures StateVectors(value, parser, nstates, s, v')
    {
      assert StateVectors(value, parser, nstates, s, v);
    }
  }

  lemma PackerSizes(packer: Packer)
    requires packer.Valid(|packer.order|)
    ensures packer.base.Length == |packer.v.froms| && packer.high < packer.table.Length == packer.check.Length
  {
  }

  lemma PackerFinds(packer: Packer, t: Tables, i: nat)
    requires packer.Valid(|packer.order|) && i < |packer.v.froms| && packer.high < packer.table.Length == packer.check.Length
    requires t.tablesize == packer.high && t.table == packer.table[..packer.high + 1] && t.check == packer.check[..packer.high + 1]
    ensures i < packer.base.Length && Finds(t, packer.base[i], packer.v, i)
  {
    hide Packed, PlacedInTurn, ValidVectors, IsOrder, Find, Lookup, BasesFor;
    VectorSizes(packer.v);
    var n := |packer.order|;
    assert packer.pos[..n] == packer.pos[..];
    forall c: nat
      ensures LookupIs(t, packer.base[i], packer.v, i, c)
    {
      Lossless(packer.v, packer.order, packer.pos[..n], packer.table[..], packer.check[..], packer.high, packer.base[..], t, i, c);
    }
  }
}
