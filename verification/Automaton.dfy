/** What lr0.c must build: the canonical collection of LR(0) states. */
module Automata {
  import opened Grammar
  import opened Closures
  import opened Relations
  import opened Seqs

  /** State s has the kernel items kernels[s], in increasing order, and is entered on symbol acc[s];
      shifts[s] lists its successor states and reds[s] its complete rules. */
  datatype Automaton = Automaton(kernels: seq<seq<int>>, acc: seq<int>, shifts: seq<seq<nat>>, reds: seq<seq<nat>>)
  {
    function Nstates(): nat { |kernels| }
  }

  // Kernel k2 holds exactly the closure items of k1 that stand before x, advanced over x.
  ghost predicate IsGoto(g: Grammar, k1: seq<int>, x: int, k2: seq<int>)
    requires Valid(g)
  {
    && ItemList(g, k2) && k2 != [] && x > 0
    && forall i :: i in k2 <==> InClosure(g, k1, i - 1) && 1 <= i - 1 < |g.ritem| && g.ritem[i - 1] == x
  }

  // Some closure item of k stands before x.
  ghost predicate Before(g: Grammar, k: seq<int>, x: int)
    requires Valid(g)
  {
    x > 0 && exists i :: InClosure(g, k, i) && 1 <= i < |g.ritem| && g.ritem[i] == x
  }

  // Some closure item of k completes rule r.
  ghost predicate Completes(g: Grammar, k: seq<int>, r: int)
    requires Valid(g)
  {
    exists i :: InClosure(g, k, i) && 1 <= i < |g.ritem| && g.ritem[i] == -r && r > 0
  }

  ghost predicate AllDistinct(ks: seq<seq<int>>) {
    forall s, t :: 0 <= s < t < |ks| ==> ks[s] != ks[t]
  }

  // Every kernel but the first is the goto of an earlier one.
  ghost predicate Generated(g: Grammar, ks: seq<seq<int>>)
    requires Valid(g)
  {
    |ks| > 0 && ks[0] == [1] && forall t :: 0 < t < |ks| ==> HasParent(g, ks, t)
  }

  ghost predicate HasParent(g: Grammar, ks: seq<seq<int>>, t: nat)
    requires Valid(g) && t < |ks|
  {
    exists s, x :: 0 <= s < t && IsGoto(g, ks[s], x, ks[t])
  }

  // The successors of state s: one for each symbol after a dot, in increasing symbol order.
  ghost predicate ShiftsExact(g: Grammar, ks: seq<seq<int>>, acc: seq<int>, s: nat, shifts: seq<nat>)
    requires Valid(g) && s < |ks| == |acc|
  {
    && (forall k :: 0 <= k < |shifts| ==> 0 < shifts[k] < |ks| && IsGoto(g, ks[s], acc[shifts[k]], ks[shifts[k]]))
    && (forall j, k :: 0 <= j < k < |shifts| ==> shifts[j] < |acc| && shifts[k] < |acc| && acc[shifts[j]] < acc[shifts[k]])
    && (forall x :: Before(g, ks[s], x) ==> exists k :: 0 <= k < |shifts| && shifts[k] < |acc| && acc[shifts[k]] == x)
  }

  ghost predicate RedsExact(g: Grammar, k: seq<int>, reds: seq<nat>)
    requires Valid(g)
  {
    && (forall i, j :: 0 <= i < j < |reds| ==> reds[i] < reds[j])
    && (forall r :: r in reds <==> Completes(g, k, r))
  }

  /** The canonical LR(0) collection of g. */
  ghost predicate Canonical(g: Grammar, a: Automaton)
    requires Valid(g)
  {
    && |a.acc| == |a.shifts| == |a.reds| == |a.kernels|
    && Generated(g, a.kernels) && AllDistinct(a.kernels) && a.acc[0] == 0
    && (forall s :: 0 <= s < |a.kernels| ==> ItemList(g, a.kernels[s]))
    && (forall s :: 0 <= s < |a.kernels| ==> ShiftsExact(g, a.kernels, a.acc, s, a.shifts[s]))
    && (forall s :: 0 <= s < |a.kernels| ==> RedsExact(g, a.kernels[s], a.reds[s]))
  }

  /** State s has a transition on x to t. */
  ghost predicate Trans(a: Automaton, s: int, x: int, t: int) {
    0 <= s < |a.shifts| && exists k :: 0 <= k < |a.shifts[s]| && a.shifts[s][k] == t && t < |a.acc| && a.acc[t] == x
  }

  lemma TransFacts(g: Grammar, a: Automaton, s: int, x: int, t: int)
    requires Valid(g) && Canonical(g, a) && Trans(a, s, x, t)
    ensures 0 <= s < |a.kernels| && 0 < t < |a.kernels| && a.acc[t] == x && x > 0
    ensures IsGoto(g, a.kernels[s], x, a.kernels[t])
  {
    assert ShiftsExact(g, a.kernels, a.acc, s, a.shifts[s]);
  }

  lemma TransUnique(g: Grammar, a: Automaton, s: int, x: int, t: int, t': int)
    requires Valid(g) && Canonical(g, a) && Trans(a, s, x, t) && Trans(a, s, x, t')
    ensures t == t'
  {
    assert ShiftsExact(g, a.kernels, a.acc, s, a.shifts[s]);
  }

  lemma TransExists(g: Grammar, a: Automaton, s: int, x: int) returns (t: int)
    requires Valid(g) && Canonical(g, a) && 0 <= s < |a.kernels| && Before(g, a.kernels[s], x)
    ensures Trans(a, s, x, t)
  {
    assert ShiftsExact(g, a.kernels, a.acc, s, a.shifts[s]);
    var k :| 0 <= k < |a.shifts[s]| && a.shifts[s][k] < |a.acc| && a.acc[a.shifts[s][k]] == x;
    t := a.shifts[s][k];
  }

  // Item i is in the closure of state s.
  ghost predicate HasItem(g: Grammar, a: Automaton, s: int, i: int)
    requires Valid(g)
  {
    0 <= s < |a.kernels| && InClosure(g, a.kernels[s], i)
  }

  // A transition advances every item that stands before its symbol.
  lemma Advanced(g: Grammar, a: Automaton, s: int, i: int) returns (t: int)
    requires Valid(g) && Canonical(g, a) && HasItem(g, a, s, i) && 1 <= i < |g.ritem| && g.ritem[i] > 0
    ensures Trans(a, s, g.ritem[i], t) && HasItem(g, a, t, i + 1)
  {
    t := TransExists(g, a, s, g.ritem[i]);
    TransFacts(g, a, s, g.ritem[i], t);
    assert i + 1 in a.kernels[t];
  }

  lemma AdvancedTo(g: Grammar, a: Automaton, s: int, i: int, t: int)
    requires Valid(g) && Canonical(g, a) && HasItem(g, a, s, i) && 1 <= i < |g.ritem| && Trans(a, s, g.ritem[i], t)
    ensures HasItem(g, a, t, i + 1)
  {
    TransFacts(g, a, s, g.ritem[i], t);
    assert i + 1 in a.kernels[t];
  }

  // An item whose dot is past the start of its rule came over every transition into the state.
  lemma CameOver(g: Grammar, a: Automaton, p: int, x: int, s: int, i: int, r: int)
    requires Valid(g) && Canonical(g, a) && HasItem(g, a, s, i) && ItemOf(g, i, r) && g.rrhs[r] < i
    requires Trans(a, p, x, s)
    ensures HasItem(g, a, p, i - 1) && 1 <= i - 1 < |g.ritem| && g.ritem[i - 1] == x
  {
    TransFacts(g, a, p, x, s);
    InKernel(g, a.kernels[s], i, r);
  }

  lemma InKernel(g: Grammar, k: seq<int>, i: int, r: int)
    requires Valid(g) && InClosure(g, k, i) && ItemOf(g, i, r) && g.rrhs[r] < i
    ensures i in k
  {
    forall q | Starts(g, k, q)
      ensures g.rrhs[q] != i
    {
      NotAStart(g, i, r, q);
    }
  }

  lemma NotAStart(g: Grammar, i: int, r: int, q: int)
    requires Valid(g) && ItemOf(g, i, r) && g.rrhs[r] < i && 2 <= q < |g.rlhs|
    ensures g.rrhs[q] != i
  {
    assert ValidRule(g, q) && ValidRule(g, r);
    if r < q {
      if r + 1 < q { RuleStartsIncrease(g, r + 1, q); }
    } else if q < r {
      RuleStartsIncrease(g, q, r);
    }
  }

  // A rule can start only where its left-hand side can.
  lemma StartBeforeLhs(g: Grammar, a: Automaton, s: int, r: int)
    requires Valid(g) && Canonical(g, a) && 3 <= r < |g.rlhs| && HasItem(g, a, s, g.rrhs[r])
    ensures Before(g, a.kernels[s], g.rlhs[r])
  {
    var k := a.kernels[s];
    StartNotInKernel(g, a, s, r);
    var r' :| Starts(g, k, r') && g.rrhs[r'] == g.rrhs[r];
    if r' < r { RuleStartsIncrease(g, r', r); } else if r < r' { RuleStartsIncrease(g, r, r'); }
    var i :| i in k && 0 <= i < |g.ritem| && BringsIn(g, g.ritem[i], g.rlhs[r]);
    var x, y := g.ritem[i] - g.ntokens, g.rlhs[r] - g.ntokens;
    if x == y {
      assert InClosure(g, k, i);
    } else {
      var z := ReachLast(LeftCorners(g), x, y);
      var q :| StartsWith(g, q, y) && g.rlhs[q] == z + g.ntokens;
      assert BringsIn(g, g.ritem[i], g.rlhs[q]);
      assert InClosure(g, k, g.rrhs[q]);
      assert ValidRule(g, q);
    }
  }

  // The kernel items of a state other than 0 have just passed a symbol.
  lemma KernelPassed(g: Grammar, a: Automaton, s: int, i: int)
    requires Valid(g) && Canonical(g, a) && 0 <= s < |a.kernels| && i in a.kernels[s]
    ensures if s == 0 then i == 1 else 2 <= i < |g.ritem| && g.ritem[i - 1] > 0
  {
    if s > 0 {
      assert HasParent(g, a.kernels, s);
      var p, x :| 0 <= p < s && IsGoto(g, a.kernels[p], x, a.kernels[s]);
    }
  }

  lemma StartNotInKernel(g: Grammar, a: Automaton, s: int, r: int)
    requires Valid(g) && Canonical(g, a) && 0 <= s < |a.kernels| && 3 <= r < |g.rlhs|
    ensures g.rrhs[r] !in a.kernels[s]
  {
    RuleStartsIncrease(g, 2, r);
    assert ValidRule(g, r - 1);
    if g.rrhs[r] in a.kernels[s] {
      KernelPassed(g, a, s, g.rrhs[r]);
    }
  }

  // No state completes rule 2: $end is never shifted.
  lemma NeverCompletesAccept(g: Grammar, a: Automaton, s: int)
    requires Valid(g) && Canonical(g, a) && 0 <= s < |a.kernels|
    ensures !HasItem(g, a, s, 3)
  {
    if HasItem(g, a, s, 3) {
      InKernel(g, a.kernels[s], 3, 2);
      KernelPassed(g, a, s, 3);
    }
  }
}
