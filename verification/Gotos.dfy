/** Numbering of the nonterminal transitions (byacc-1.9/lalr.c, set_goto_map and map_goto). */
module Gotos {
  import opened Wrappers
  import opened Grammar
  import opened Closures
  import opened Automata
  import opened Seqs
  import opened Lr0

  /** Goto k leads from state from[k] to state to[k]; the gotos of variable v, counted from ntokens, are
      start[v] up to start[v + 1]. */
  datatype GotoMap = GotoMap(start: seq<nat>, from: seq<nat>, to: seq<nat>)
  {
    function Ngotos(): nat { |from| }
  }

  // The transitions on x from state s, in the order in which the scan from the end of its shifts meets them.
  function InState(a: Automaton, x: int, s: nat, shifts: seq<nat>): seq<(nat, nat)> {
    if shifts == [] then [] else
    InState(a, x, s, shifts[1..]) + if shifts[0] < |a.acc| && a.acc[shifts[0]] == x then [(s, shifts[0])] else []
  }

  // All transitions on x from the first n states, in state order.
  function Bucket(a: Automaton, x: int, n: nat): seq<(nat, nat)>
    requires n <= |a.shifts|
  {
    if n == 0 then [] else Bucket(a, x, n - 1) + InState(a, x, n - 1, a.shifts[n - 1])
  }

  ghost predicate Ascending(q: seq<(nat, nat)>) {
    forall j, k :: 0 <= j < k < |q| ==> q[j].0 < q[k].0
  }

  /** The goto map of the automaton. */
  ghost predicate ValidGotos(g: Grammar, a: Automaton, m: GotoMap) {
    && |m.from| == |m.to| && g.Nvars() >= 0 && |m.start| == g.Nvars() + 1 && m.start[g.Nvars()] == |m.from| && m.start[0] == 0
    && (forall v, w :: 0 <= v <= w <= g.Nvars() ==> m.start[v] <= m.start[w])
    && (forall v :: 0 <= v < g.Nvars() ==> BucketAt(g, a, m, v))
  }

  ghost predicate BucketAt(g: Grammar, a: Automaton, m: GotoMap, v: nat)
    requires v + 1 < |m.start|
  {
    var b := Bucket(a, v + g.ntokens, |a.shifts|);
    && m.start[v] + |b| == m.start[v + 1] <= |m.from| == |m.to|
    && forall j :: 0 <= j < |b| ==> m.from[m.start[v] + j] == b[j].0 && m.to[m.start[v] + j] == b[j].1
  }

  lemma {:induction false} InStateExact(a: Automaton, x: int, s: nat, shifts: seq<nat>)
    ensures forall p :: p in InState(a, x, s, shifts) <==> p.0 == s && p.1 in shifts && p.1 < |a.acc| && a.acc[p.1] == x
  {
    if shifts != [] {
      InStateExact(a, x, s, shifts[1..]);
      assert shifts == [shifts[0]] + shifts[1..];
    }
  }

  // The shifts of a state are on symbols in increasing order.
  ghost predicate InSymbolOrder(a: Automaton, shifts: seq<nat>) {
    && (forall k :: 0 <= k < |shifts| ==> shifts[k] < |a.acc|)
    && (forall j, k :: 0 <= j < k < |shifts| ==> a.acc[shifts[j]] < a.acc[shifts[k]])
  }

  lemma {:induction false} InStateOnce(a: Automaton, x: int, s: nat, shifts: seq<nat>)
    requires InSymbolOrder(a, shifts)
    ensures |InState(a, x, s, shifts)| <= 1
  {
    if shifts != [] {
      var rest := shifts[1..];
      assert forall k :: 0 <= k < |rest| ==> rest[k] == shifts[k + 1];
      InStateOnce(a, x, s, rest);
      InStateExact(a, x, s, rest);
      if shifts[0] < |a.acc| && a.acc[shifts[0]] == x {
        HasElement(InState(a, x, s, rest));
      }
    }
  }

  lemma StateShifts(g: Grammar, a: Automaton, s: nat)
    requires Valid(g) && Canonical(g, a) && s < |a.shifts|
    ensures InSymbolOrder(a, a.shifts[s]) && |a.acc| == |a.shifts| == |a.kernels|
    ensures forall x, t :: Trans(a, s, x, t) <==> t in a.shifts[s] && t < |a.acc| && a.acc[t] == x
  {
    assert ShiftsExact(g, a.kernels, a.acc, s, a.shifts[s]);
  }

  lemma {:induction false} BucketExact(g: Grammar, a: Automaton, x: int, n: nat)
    requires Valid(g) && Canonical(g, a) && n <= |a.shifts|
    ensures forall p :: p in Bucket(a, x, n) <==> p.0 < n && Trans(a, p.0, x, p.1)
    ensures Ascending(Bucket(a, x, n))
  {
    hide Valid, Canonical, Trans;
    if n > 0 {
      var b, c := Bucket(a, x, n - 1), InState(a, x, n - 1, a.shifts[n - 1]);
      var bc := b + c;
      BucketExact(g, a, x, n - 1);
      InStateExact(a, x, n - 1, a.shifts[n - 1]);
      StateShifts(g, a, n - 1);
      InStateOnce(a, x, n - 1, a.shifts[n - 1]);
      forall j, k | 0 <= j < k < |bc|
        ensures bc[j].0 < bc[k].0
      {
        if k == |b| {
          assert b[j] in b && c[0] in c;
        }
      }
    }
  }

  // Scanning on past transitions on smaller symbols finds no more of x.
  lemma {:induction false} RestIsSmaller(a: Automaton, x: int, s: nat, shifts: seq<nat>, i: nat)
    requires i <= |shifts| && forall j :: 0 <= j < i ==> shifts[j] < |a.acc| && a.acc[shifts[j]] < x
    ensures InState(a, x, s, shifts) == InState(a, x, s, shifts[i..])
  {
    if i > 0 {
      RestIsSmaller(a, x, s, shifts[1..], i - 1);
      assert shifts[1..][i - 1..] == shifts[i..];
    }
  }

  lemma {:induction false} BucketPrefix(a: Automaton, x: int, n: nat, m: nat)
    requires n <= m <= |a.shifts|
    ensures Bucket(a, x, n) <= Bucket(a, x, m)
  {
    if n < m {
      BucketPrefix(a, x, n, m - 1);
    }
  }

  // What the scan has met after the states below s and, in state s, the shifts from i on.
  function Met(a: Automaton, x: int, s: nat, i: nat): seq<(nat, nat)>
    requires s < |a.shifts| && i <= |a.shifts[s]|
  {
    Bucket(a, x, s) + InState(a, x, s, a.shifts[s][i..])
  }

  lemma MetStep(a: Automaton, x: int, s: nat, i: nat)
    requires s < |a.shifts| && 0 < i <= |a.shifts[s]|
    ensures var t := a.shifts[s][i - 1];
            Met(a, x, s, i - 1) == Met(a, x, s, i) + if t < |a.acc| && a.acc[t] == x then [(s, t)] else []
  {
    assert a.shifts[s][i - 1..][1..] == a.shifts[s][i..];
  }

  // The scan of state s stops at i: at its first shift, or just after the last token.
  ghost predicate ScanEnds(g: Grammar, a: Automaton, s: nat, i: nat)
    requires s < |a.shifts| && i <= |a.shifts[s]|
  {
    i == 0 || (a.shifts[s][i - 1] < |a.acc| && g.IsToken(a.acc[a.shifts[s][i - 1]]))
  }

  lemma MetAll(g: Grammar, a: Automaton, x: int, s: nat, i: nat)
    requires Valid(g) && Canonical(g, a) && s < |a.shifts| && i <= |a.shifts[s]| && ScanEnds(g, a, s, i) && g.IsVar(x)
    ensures Met(a, x, s, i) == Bucket(a, x, s + 1)
  {
    assert ShiftsExact(g, a.kernels, a.acc, s, a.shifts[s]);
    RestIsSmaller(a, x, s, a.shifts[s], i);
  }

  lemma MetNone(a: Automaton, x: int, s: nat)
    requires s < |a.shifts|
    ensures Met(a, x, s, |a.shifts[s]|) == Bucket(a, x, s)
  {
    assert a.shifts[s][|a.shifts[s]|..] == [];
  }

  lemma ShiftFacts(g: Grammar, a: Automaton, s: nat, i: nat)
    requires Valid(g) && Canonical(g, a) && s < |a.shifts| && i < |a.shifts[s]|
    ensures |a.acc| == |a.shifts| == |a.kernels| && 0 < a.shifts[s][i] < |a.acc|
    ensures 0 < a.acc[a.shifts[s][i]] < g.nsyms
  {
    assert ShiftsExact(g, a.kernels, a.acc, s, a.shifts[s]);
    var t := a.shifts[s][i];
    assert a.kernels[t][0] in a.kernels[t];
    SymbolInRange(g, a.kernels[t][0] - 1);
  }

  function Sum(q: seq<nat>): nat {
    if q == [] then 0 else Sum(q[..|q| - 1]) + q[|q| - 1]
  }

  lemma {:induction false} SumBump(q: seq<nat>, i: nat)
    requires i < |q|
    ensures Sum(q[i := q[i] + 1]) == Sum(q) + 1
  {
    var p := q[i := q[i] + 1];
    if i == |q| - 1 {
      assert p[..|q| - 1] == q[..|q| - 1];
    } else {
      SumBump(q[..|q| - 1], i);
      assert p[..|q| - 1] == q[..|q| - 1][i := q[i] + 1];
    }
  }

  lemma {:induction false} SumMonotone(p: seq<nat>, q: seq<nat>)
    requires |p| == |q| && forall i :: 0 <= i < |p| ==> p[i] <= q[i]
    ensures Sum(p) <= Sum(q)
  {
    if p != [] {
      SumMonotone(p[..|p| - 1], q[..|q| - 1]);
    }
  }

  // The number of transitions on each variable.
  ghost function Counts(g: Grammar, a: Automaton): seq<nat>
    requires Valid(g)
  {
    seq(g.Nvars(), v requires 0 <= v < g.Nvars() => |Bucket(a, v + g.ntokens, |a.shifts|)|)
  }

  ghost predicate MetCounts(g: Grammar, a: Automaton, s: nat, i: nat, counts: seq<nat>)
    requires s < |a.shifts| && i <= |a.shifts[s]|
  {
    g.Nvars() >= 0 && |counts| == g.Nvars() && forall v :: 0 <= v < |counts| ==> counts[v] == |Met(a, v + g.ntokens, s, i)|
  }

  ghost predicate BucketCounts(g: Grammar, a: Automaton, n: nat, counts: seq<nat>)
    requires n <= |a.shifts|
  {
    g.Nvars() >= 0 && |counts| == g.Nvars() && forall v :: 0 <= v < |counts| ==> counts[v] == |Bucket(a, v + g.ntokens, n)|
  }

  lemma MetCountsStep(g: Grammar, a: Automaton, s: nat, i: nat, counts: seq<nat>)
    requires Valid(g) && s < |a.shifts| && 0 < i <= |a.shifts[s]| && MetCounts(g, a, s, i, counts)
    requires a.shifts[s][i - 1] < |a.acc| && g.ntokens <= a.acc[a.shifts[s][i - 1]] < g.nsyms
    ensures var v := a.acc[a.shifts[s][i - 1]] - g.ntokens;
            MetCounts(g, a, s, i - 1, counts[v := counts[v] + 1]) && Sum(counts) < Sum(Counts(g, a))
  {
    hide Valid, Met, Bucket;
    var v := a.acc[a.shifts[s][i - 1]] - g.ntokens;
    var counts' := counts[v := counts[v] + 1];
    forall w | 0 <= w < |counts|
      ensures counts'[w] == |Met(a, w + g.ntokens, s, i - 1)| && counts'[w] <= |Bucket(a, w + g.ntokens, |a.shifts|)|
    {
      MetStep(a, w + g.ntokens, s, i);
      MetWithin(g, a, w + g.ntokens, s, i - 1);
    }
    SumBump(counts, v);
    SumMonotone(counts', Counts(g, a));
  }

  lemma MetWithin(g: Grammar, a: Automaton, x: int, s: nat, i: nat)
    requires s < |a.shifts| && i <= |a.shifts[s]|
    ensures Met(a, x, s, i) <= Bucket(a, x, |a.shifts|)
    decreases i
  {
    if i == 0 {
      assert a.shifts[s][0..] == a.shifts[s];
      BucketPrefix(a, x, s + 1, |a.shifts|);
    } else {
      MetWithin(g, a, x, s, i - 1);
      MetStep(a, x, s, i);
    }
  }

  // The first loop over the shifts: goto_map counts the gotos of each variable.
  method CountState(g: Grammar, a: Automaton, s: nat, counts0: seq<nat>, ngotos0: nat) returns (ok: bool, counts: seq<nat>, ngotos: nat)
    requires Valid(g) && Canonical(g, a) && s < |a.shifts| && BucketCounts(g, a, s, counts0)
    requires ngotos0 == Sum(counts0) <= MAXSHORT
    ensures ok ==> BucketCounts(g, a, s + 1, counts) && ngotos == Sum(counts) <= MAXSHORT
    ensures !ok ==> Sum(Counts(g, a)) > MAXSHORT
  {
    hide Valid, Canonical, Met, Bucket, Counts;
    ok, counts, ngotos := true, counts0, ngotos0;
    var i := |a.shifts[s]|;
    MetCountsStart(g, a, s, counts);
    while i > 0
      invariant 0 <= i <= |a.shifts[s]| && MetCounts(g, a, s, i, counts) && ngotos == Sum(counts) <= MAXSHORT
    {
      ShiftFacts(g, a, s, i - 1);
      var symbol := a.acc[a.shifts[s][i - 1]];
      if g.IsToken(symbol) {
        break;
      }
      MetCountsStep(g, a, s, i, counts);
      if ngotos == MAXSHORT {
        ok := false;
        return;
      }
      SumBump(counts, symbol - g.ntokens);
      ngotos := ngotos + 1;
      counts := counts[symbol - g.ntokens := counts[symbol - g.ntokens] + 1];
      i := i - 1;
    }
    MetCountsEnd(g, a, s, i, counts);
  }

  lemma MetCountsStart(g: Grammar, a: Automaton, s: nat, counts: seq<nat>)
    requires s < |a.shifts| && BucketCounts(g, a, s, counts)
    ensures MetCounts(g, a, s, |a.shifts[s]|, counts)
  {
    forall v | 0 <= v < |counts|
      ensures counts[v] == |Met(a, v + g.ntokens, s, |a.shifts[s]|)|
    {
      MetNone(a, v + g.ntokens, s);
    }
  }

  lemma MetCountsEnd(g: Grammar, a: Automaton, s: nat, i: nat, counts: seq<nat>)
    requires Valid(g) && Canonical(g, a) && s < |a.shifts| && i <= |a.shifts[s]| && ScanEnds(g, a, s, i)
    requires MetCounts(g, a, s, i, counts)
    ensures BucketCounts(g, a, s + 1, counts)
  {
    forall v | 0 <= v < |counts|
      ensures counts[v] == |Bucket(a, v + g.ntokens, s + 1)|
    {
      MetAll(g, a, v + g.ntokens, s, i);
    }
  }

  // start[v] is the number of gotos of the variables before v.
  ghost predicate Starts(g: Grammar, a: Automaton, start: seq<nat>) {
    && g.Nvars() >= 0 && |start| == g.Nvars() + 1 && start[0] == 0
    && forall v :: 0 <= v < g.Nvars() ==> start[v + 1] == start[v] + |Bucket(a, v + g.ntokens, |a.shifts|)|
  }

  lemma {:induction false} StartsMonotone(g: Grammar, a: Automaton, start: seq<nat>, v: nat, w: nat)
    requires Starts(g, a, start) && v <= w <= g.Nvars()
    ensures start[v] <= start[w]
  {
    if v < w {
      StartsMonotone(g, a, start, v, w - 1);
    }
  }

  // from and to hold, for each variable, what the scan has met so far, and temp says where the rest goes.
  ghost predicate Filled(g: Grammar, a: Automaton, s: nat, i: nat, start: seq<nat>, temp: seq<nat>, from: seq<nat>, to: seq<nat>)
    requires s < |a.shifts| && i <= |a.shifts[s]|
  {
    && Starts(g, a, start) && |temp| == |start| && |from| == |to| == start[g.Nvars()]
    && forall v :: 0 <= v < g.Nvars() ==> FilledFor(a, v + g.ntokens, s, i, start[v], temp[v], from, to)
  }

  ghost predicate FilledFor(a: Automaton, x: int, s: nat, i: nat, at: nat, next: nat, from: seq<nat>, to: seq<nat>)
    requires s < |a.shifts| && i <= |a.shifts[s]|
  {
    HoldsAt(Met(a, x, s, i), at, next, from, to)
  }

  ghost predicate HoldsAt(met: seq<(nat, nat)>, at: nat, next: nat, from: seq<nat>, to: seq<nat>) {
    && next == at + |met| <= |from| == |to|
    && forall j :: 0 <= j < |met| ==> from[at + j] == met[j].0 && to[at + j] == met[j].1
  }

  // The place of the next goto of v belongs to v alone.
  lemma PlaceOf(g: Grammar, a: Automaton, s: nat, i: nat, start: seq<nat>, temp: seq<nat>, from: seq<nat>, to: seq<nat>, v: nat)
    requires s < |a.shifts| && 0 < i <= |a.shifts[s]| && Filled(g, a, s, i, start, temp, from, to) && v < g.Nvars()
    requires a.shifts[s][i - 1] < |a.acc| && a.acc[a.shifts[s][i - 1]] == v + g.ntokens
    ensures start[v] <= temp[v] < |from|
    ensures forall w :: 0 <= w < g.Nvars() && w != v ==> temp[v] < start[w] || temp[w] <= temp[v]
  {
    hide Met, Bucket;
    MetStep(a, v + g.ntokens, s, i);
    MetWithin(g, a, v + g.ntokens, s, i - 1);
    StartsMonotone(g, a, start, v + 1, g.Nvars());
    assert FilledFor(a, v + g.ntokens, s, i, start[v], temp[v], from, to);
    forall w | 0 <= w < g.Nvars() && w != v
      ensures temp[v] < start[w] || temp[w] <= temp[v]
    {
      assert FilledFor(a, w + g.ntokens, s, i, start[w], temp[w], from, to);
      MetWithin(g, a, w + g.ntokens, s, i);
      if w < v { StartsMonotone(g, a, start, w + 1, v); } else { StartsMonotone(g, a, start, v + 1, w); }
    }
  }

  lemma FilledStep(g: Grammar, a: Automaton, s: nat, i: nat, start: seq<nat>, temp: seq<nat>, from: seq<nat>, to: seq<nat>, v: nat)
    requires s < |a.shifts| && 0 < i <= |a.shifts[s]| && Filled(g, a, s, i, start, temp, from, to) && v < g.Nvars()
    requires a.shifts[s][i - 1] < |a.acc| && a.acc[a.shifts[s][i - 1]] == v + g.ntokens
    ensures var k := temp[v];
            k < |from| && Filled(g, a, s, i - 1, start, temp[v := k + 1], from[k := s], to[k := a.shifts[s][i - 1]])
  {
    hide Met, Bucket;
    PlaceOf(g, a, s, i, start, temp, from, to, v);
    var k, t := temp[v], a.shifts[s][i - 1];
    forall w | 0 <= w < g.Nvars()
      ensures FilledFor(a, w + g.ntokens, s, i - 1, start[w], temp[v := k + 1][w], from[k := s], to[k := t])
    {
      assert FilledFor(a, w + g.ntokens, s, i, start[w], temp[w], from, to);
      MetStep(a, w + g.ntokens, s, i);
      if w == v {
        HoldsMore(Met(a, w + g.ntokens, s, i), (s, t), start[w], from, to);
      }
    }
  }

  lemma HoldsMore(met: seq<(nat, nat)>, p: (nat, nat), at: nat, from: seq<nat>, to: seq<nat>)
    requires HoldsAt(met, at, at + |met|, from, to) && at + |met| < |from|
    ensures HoldsAt(met + [p], at, at + |met| + 1, from[at + |met| := p.0], to[at + |met| := p.1])
  {
  }

  // The second loop over the shifts: each goto goes to the next free place of its variable.
  method FillState(g: Grammar, a: Automaton, s: nat, ghost start: seq<nat>, temp0: seq<nat>, from0: seq<nat>, to0: seq<nat>)
    returns (temp: seq<nat>, from: seq<nat>, to: seq<nat>)
    requires Valid(g) && Canonical(g, a) && s < |a.shifts| && Filled(g, a, s, |a.shifts[s]|, start, temp0, from0, to0)
    ensures exists i :: 0 <= i <= |a.shifts[s]| && ScanEnds(g, a, s, i) && Filled(g, a, s, i, start, temp, from, to)
  {
    hide Valid, Canonical, Met, Bucket;
    temp, from, to := temp0, from0, to0;
    var i := |a.shifts[s]|;
    while i > 0
      invariant 0 <= i <= |a.shifts[s]| && Filled(g, a, s, i, start, temp, from, to)
    {
      ShiftFacts(g, a, s, i - 1);
      var state2 := a.shifts[s][i - 1];
      var symbol := a.acc[state2];
      if g.IsToken(symbol) {
        break;
      }
      FilledStep(g, a, s, i, start, temp, from, to, symbol - g.ntokens);
      var k := temp[symbol - g.ntokens];
      temp := temp[symbol - g.ntokens := k + 1];
      from := from[k := s];
      to := to[k := state2];
      i := i - 1;
    }
  }

  lemma FilledAfter(g: Grammar, a: Automaton, s: nat, i: nat, start: seq<nat>, temp: seq<nat>, from: seq<nat>, to: seq<nat>)
    requires Valid(g) && Canonical(g, a) && s < |a.shifts| && i <= |a.shifts[s]| && ScanEnds(g, a, s, i)
    requires Filled(g, a, s, i, start, temp, from, to)
    ensures FilledTo(g, a, s + 1, start, temp, from, to)
  {
    forall v | 0 <= v < g.Nvars()
      ensures HoldsAt(Bucket(a, v + g.ntokens, s + 1), start[v], temp[v], from, to)
    {
      assert FilledFor(a, v + g.ntokens, s, i, start[v], temp[v], from, to);
      MetAll(g, a, v + g.ntokens, s, i);
    }
  }

  // The gotos of the first n states are in place.
  ghost predicate FilledTo(g: Grammar, a: Automaton, n: nat, start: seq<nat>, temp: seq<nat>, from: seq<nat>, to: seq<nat>)
    requires n <= |a.shifts|
  {
    && Starts(g, a, start) && |temp| == |start| && |from| == |to| == start[g.Nvars()]
    && forall v :: 0 <= v < g.Nvars() ==> HoldsAt(Bucket(a, v + g.ntokens, n), start[v], temp[v], from, to)
  }

  lemma FilledBefore(g: Grammar, a: Automaton, s: nat, start: seq<nat>, temp: seq<nat>, from: seq<nat>, to: seq<nat>)
    requires s < |a.shifts| && FilledTo(g, a, s, start, temp, from, to)
    ensures Filled(g, a, s, |a.shifts[s]|, start, temp, from, to)
  {
    forall v | 0 <= v < g.Nvars()
      ensures FilledFor(a, v + g.ntokens, s, |a.shifts[s]|, start[v], temp[v], from, to)
    {
      MetNone(a, v + g.ntokens, s);
    }
  }

  lemma FilledGotos(g: Grammar, a: Automaton, start: seq<nat>, temp: seq<nat>, from: seq<nat>, to: seq<nat>)
    requires FilledTo(g, a, |a.shifts|, start, temp, from, to)
    ensures ValidGotos(g, a, GotoMap(start, from, to))
  {
    forall v, w | 0 <= v <= w <= g.Nvars()
      ensures start[v] <= start[w]
    {
      StartsMonotone(g, a, start, v, w);
    }
    forall v | 0 <= v < g.Nvars()
      ensures BucketAt(g, a, GotoMap(start, from, to), v)
    {
      assert HoldsAt(Bucket(a, v + g.ntokens, |a.shifts|), start[v], temp[v], from, to);
    }
  }

  // The prefix sums of the counts.
  method StartsOf(g: Grammar, ghost a: Automaton, counts: seq<nat>) returns (start: seq<nat>)
    requires Valid(g) && BucketCounts(g, a, |a.shifts|, counts)
    ensures Starts(g, a, start) && start[g.Nvars()] == Sum(counts)
  {
    hide Valid, Bucket, Sum;
    SumNone(counts[..0]);
    start := [];
    var v, k := 0, 0;
    assert counts[..0] == [];
    while v < |counts|
      invariant 0 <= v <= |counts| && |start| == v && k == Sum(counts[..v])
      invariant forall w :: 0 <= w < v ==> start[w] == Sum(counts[..w])
    {
      start := start + [k];
      SumTake(counts, v);
      k := k + counts[v];
      v := v + 1;
    }
    start := start + [k];
    SumsAreStarts(g, a, counts, start);
  }

  lemma SumNone(q: seq<nat>)
    requires q == []
    ensures Sum(q) == 0
  {
  }

  lemma SumTake(q: seq<nat>, n: nat)
    requires n < |q|
    ensures Sum(q[..n + 1]) == Sum(q[..n]) + q[n]
  {
    assert q[..n + 1][..n] == q[..n];
  }

  lemma SumsAreStarts(g: Grammar, a: Automaton, counts: seq<nat>, start: seq<nat>)
    requires BucketCounts(g, a, |a.shifts|, counts) && |start| == |counts| + 1
    requires forall w :: 0 <= w <= |counts| ==> start[w] == Sum(counts[..w])
    ensures Starts(g, a, start) && start[g.Nvars()] == Sum(counts)
  {
    hide Sum, Bucket;
    assert counts[..|counts|] == counts;
    SumNone(counts[..0]);
    forall w: nat | w < |counts|
      ensures start[w + 1] == start[w] + |Bucket(a, w + g.ntokens, |a.shifts|)|
    {
      SumTake(counts, w);
    }
  }

  /** set_goto_map: the gotos, numbered; None when there are more than a short can count. */
  method SetGotoMap(g: Grammar, a: Automaton) returns (m: Option<GotoMap>)
    requires Valid(g) && Canonical(g, a)
    ensures m.Some? ==> ValidGotos(g, a, m.value) && m.value.Ngotos() <= MAXSHORT
    ensures m.None? <==> Sum(Counts(g, a)) > MAXSHORT
  {
    hide Valid, Canonical, Met, Bucket;
    CountsStart(g, a);
    var counts: seq<nat>, ngotos := seq(g.Nvars(), _ => 0), 0;
    SumZero(counts);
    var s := 0;
    while s < |a.shifts|
      invariant 0 <= s <= |a.shifts| && BucketCounts(g, a, s, counts) && ngotos == Sum(counts) <= MAXSHORT
    {
      var ok;
      ok, counts, ngotos := CountState(g, a, s, counts, ngotos);
      if !ok {
        return None;
      }
      s := s + 1;
    }
    assert counts == Counts(g, a);
    var start := StartsOf(g, a, counts);
    var temp, from, to := start, seq(ngotos, _ => 0), seq(ngotos, _ => 0);
    FillStart(g, a, start, from, to);
    s := 0;
    while s < |a.shifts|
      invariant 0 <= s <= |a.shifts| && FilledTo(g, a, s, start, temp, from, to) && |from| <= MAXSHORT
    {
      FilledBefore(g, a, s, start, temp, from, to);
      temp, from, to := FillState(g, a, s, start, temp, from, to);
      ghost var i :| 0 <= i <= |a.shifts[s]| && ScanEnds(g, a, s, i) && Filled(g, a, s, i, start, temp, from, to);
      FilledAfter(g, a, s, i, start, temp, from, to);
      s := s + 1;
    }
    FilledGotos(g, a, start, temp, from, to);
    m := Some(GotoMap(start, from, to));
  }

  lemma {:induction false} SumZero(q: seq<nat>)
    requires forall i :: 0 <= i < |q| ==> q[i] == 0
    ensures Sum(q) == 0
  {
    if q != [] {
      SumZero(q[..|q| - 1]);
    }
  }

  lemma CountsStart(g: Grammar, a: Automaton)
    requires Valid(g)
    ensures g.Nvars() >= 0 && BucketCounts(g, a, 0, seq(g.Nvars(), _ => 0))
  {
  }

  lemma FillStart(g: Grammar, a: Automaton, start: seq<nat>, from: seq<nat>, to: seq<nat>)
    requires Starts(g, a, start) && |from| == |to| == start[g.Nvars()]
    ensures FilledTo(g, a, 0, start, start, from, to)
  {
    forall v | 0 <= v < g.Nvars()
      ensures HoldsAt(Bucket(a, v + g.ntokens, 0), start[v], start[v], from, to)
    {
      StartsMonotone(g, a, start, v, g.Nvars());
    }
  }

  // Goto k stands for the transition from state s on x to t.
  ghost predicate IsGotoNo(g: Grammar, a: Automaton, m: GotoMap, k: int, s: int, x: int, t: int) {
    0 <= k < |m.from| == |m.to| && m.from[k] == s && m.to[k] == t && g.IsVar(x) && Trans(a, s, x, t)
  }

  /** Goto numbers and nonterminal transitions correspond one to one, in symbol order and within a symbol in
      state order. */
  lemma GotoOfTrans(g: Grammar, a: Automaton, m: GotoMap, s: int, x: int, t: int) returns (k: nat)
    requires Valid(g) && Canonical(g, a) && ValidGotos(g, a, m) && Trans(a, s, x, t) && g.ntokens <= x < g.nsyms
    ensures m.start[x - g.ntokens] <= k < m.start[x - g.ntokens + 1] && IsGotoNo(g, a, m, k, s, x, t)
  {
    hide Canonical, Trans;
    var v := x - g.ntokens;
    BucketExact(g, a, x, |a.shifts|);
    StateOfTrans(g, a, s, x, t);
    var p: (nat, nat) := (s, t);
    assert p in Bucket(a, x, |a.shifts|);
    var j :| 0 <= j < |Bucket(a, x, |a.shifts|)| && Bucket(a, x, |a.shifts|)[j] == p;
    assert BucketAt(g, a, m, v);
    k := m.start[v] + j;
  }

  lemma StateOfTrans(g: Grammar, a: Automaton, s: int, x: int, t: int)
    requires Valid(g) && Canonical(g, a) && Trans(a, s, x, t)
    ensures 0 <= s < |a.shifts| == |a.kernels| && 0 < t < |a.kernels|
  {
    TransFacts(g, a, s, x, t);
  }

  lemma TransOfGoto(g: Grammar, a: Automaton, m: GotoMap, v: nat, k: nat)
    requires Valid(g) && Canonical(g, a) && ValidGotos(g, a, m) && v < g.Nvars() && m.start[v] <= k < m.start[v + 1]
    ensures k < |m.from| == |m.to| && IsGotoNo(g, a, m, k, m.from[k], v + g.ntokens, m.to[k])
  {
    hide Canonical, Trans;
    BucketExact(g, a, v + g.ntokens, |a.shifts|);
    assert BucketAt(g, a, m, v);
    var b := Bucket(a, v + g.ntokens, |a.shifts|);
    assert b[k - m.start[v]] in b;
  }

  lemma BucketOrder(g: Grammar, a: Automaton, m: GotoMap, v: nat, j: nat, k: nat)
    requires Valid(g) && Canonical(g, a) && ValidGotos(g, a, m) && v < g.Nvars() && m.start[v] <= j < k < m.start[v + 1]
    ensures k < |m.from| && m.from[j] < m.from[k]
  {
    hide Canonical, Trans;
    BucketExact(g, a, v + g.ntokens, |a.shifts|);
    assert BucketAt(g, a, m, v);
    var b := Bucket(a, v + g.ntokens, |a.shifts|);
    assert b[j - m.start[v]].0 < b[k - m.start[v]].0;
  }

  // Every goto belongs to some variable.
  lemma {:induction false} VarOfGoto(g: Grammar, a: Automaton, m: GotoMap, k: nat, n: nat) returns (v: nat)
    requires ValidGotos(g, a, m) && n <= g.Nvars() && k < m.start[n]
    ensures v < n && m.start[v] <= k < m.start[v + 1]
  {
    if m.start[n - 1] <= k {
      v := n - 1;
    } else {
      v := VarOfGoto(g, a, m, k, n - 1);
    }
  }

  /** map_goto: the binary search finds the goto of an existing transition, although its upper bound lies one
      past the gotos of the symbol, and it looks at nothing outside the map. */
  method MapGoto(g: Grammar, ghost a: Automaton, m: GotoMap, state: nat, symbol: nat) returns (middle: nat)
    requires Valid(g) && Canonical(g, a) && ValidGotos(g, a, m) && g.ntokens <= symbol < g.nsyms
    requires exists t :: Trans(a, state, symbol, t)
    ensures middle < |m.to| && IsGotoNo(g, a, m, middle, state, symbol, m.to[middle])
  {
    hide Valid, Canonical, Trans;
    ghost var t :| Trans(a, state, symbol, t);
    ghost var k := GotoOfTrans(g, a, m, state, symbol, t);
    ghost var v := symbol - g.ntokens;
    SearchFacts(g, a, m, v);
    var low, high := m.start[symbol - g.ntokens], m.start[symbol + 1 - g.ntokens];
    while true
      invariant m.start[v] <= low <= k <= high <= m.start[v + 1]
      decreases high - low
    {
      middle := (low + high) / 2;
      var s := m.from[middle];
      if s == state {
        TransOfGoto(g, a, m, v, middle);
        return;
      } else if s < state {
        low := middle + 1;
      } else {
        high := middle - 1;
      }
    }
  }

  lemma SearchFacts(g: Grammar, a: Automaton, m: GotoMap, v: nat)
    requires Valid(g) && Canonical(g, a) && ValidGotos(g, a, m) && v < g.Nvars()
    ensures m.start[v + 1] <= |m.from| == |m.to|
    ensures forall j, k :: m.start[v] <= j < k < m.start[v + 1] ==> m.from[j] < m.from[k]
  {
    assert BucketAt(g, a, m, v);
    forall j, k | m.start[v] <= j < k < m.start[v + 1]
      ensures m.from[j] < m.from[k]
    {
      BucketOrder(g, a, m, v, j, k);
    }
  }
}
