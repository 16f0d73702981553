/** The nullable nonterminals and the rules of each nonterminal (byacc-1.9/lr0.c, set_nullable and
    set_derives). */
module Nullables {
  import opened Grammar

  // The symbols from item i to the end of its rule are all in nul.
  predicate RestIn(g: Grammar, nul: seq<bool>, i: int)
    requires |nul| == g.nsyms
    decreases |g.ritem| - i
  {
    0 <= i < |g.ritem| && (g.ritem[i] < 0 || (g.ritem[i] < g.nsyms && nul[g.ritem[i]] && RestIn(g, nul, i + 1)))
  }

  ghost predicate Sound(g: Grammar, nul: seq<bool>) {
    |nul| == g.nsyms && forall x :: 0 <= x < g.nsyms && nul[x] ==> Nullable(g, x)
  }

  // No rule with a right-hand side in nul has its left-hand side outside.
  ghost predicate ClosedUnderRules(g: Grammar, nul: seq<bool>, n: int)
    requires Valid(g) && |nul| == g.nsyms && n <= |g.rlhs|
  {
    forall r :: 2 <= r < n && RestIn(g, nul, g.rrhs[r]) ==> nul[g.rlhs[r]]
  }

  lemma TokensAreNotNullable(g: Grammar, x: int)
    requires Valid(g) && Nullable(g, x)
    ensures x >= g.Goal()
  {
  }

  lemma {:induction false} EmptyForest(g: Grammar, nul: seq<bool>, i: int) returns (f: Forest)
    requires Sound(g, nul) && RestIn(g, nul, i)
    ensures Matches(g, f, i) && Yields(f) == []
    decreases |g.ritem| - i
  {
    if g.ritem[i] < 0 {
      f := Nil;
    } else {
      var f' := EmptyForest(g, nul, i + 1);
      assert Nullable(g, g.ritem[i]);
      var t :| ValidTree(g, t) && Root(g, t) == g.ritem[i] && Yield(t) == [];
      f := Cons(t, f');
    }
  }

  lemma RuleIsNullable(g: Grammar, nul: seq<bool>, r: int)
    requires Valid(g) && Sound(g, nul) && 2 <= r < |g.rlhs| && RestIn(g, nul, g.rrhs[r])
    ensures Nullable(g, g.rlhs[r])
  {
    if r == 2 {
      assert RestIn(g, nul, 1) && RestIn(g, nul, 2);
      TokensAreNotNullable(g, 0);
      assert false;
    }
    var f := EmptyForest(g, nul, g.rrhs[r]);
    var t := Node(r, f);
    assert ValidTree(g, t) && Root(g, t) == g.rlhs[r] && Yield(t) == [];
  }

  lemma {:induction false} EmptyTreeIn(g: Grammar, nul: seq<bool>, t: Tree)
    requires Valid(g) && |nul| == g.nsyms && ClosedUnderRules(g, nul, |g.rlhs|)
    requires ValidTree(g, t) && Yield(t) == []
    ensures Root(g, t) < g.nsyms && nul[Root(g, t)]
  {
    EmptyForestIn(g, nul, t.kids, g.rrhs[t.rule]);
  }

  lemma {:induction false} EmptyForestIn(g: Grammar, nul: seq<bool>, f: Forest, i: int)
    requires Valid(g) && |nul| == g.nsyms && ClosedUnderRules(g, nul, |g.rlhs|)
    requires Matches(g, f, i) && Yields(f) == []
    ensures RestIn(g, nul, i)
  {
    if f.Cons? {
      EmptyTreeIn(g, nul, f.hd);
      EmptyForestIn(g, nul, f.tl, i + 1);
    }
  }

  // One pass over ritem; done says that it changed nothing.
  method NullablePass(g: Grammar, nullable: array<bool>) returns (done: bool)
    requires Valid(g) && nullable.Length == g.nsyms && Sound(g, nullable[..])
    modifies nullable
    ensures Sound(g, nullable[..])
    ensures forall x :: 0 <= x < g.nsyms && old(nullable[x]) ==> nullable[x]
    ensures done ==> nullable[..] == old(nullable[..]) && ClosedUnderRules(g, nullable[..], |g.rlhs|)
    ensures !done ==> exists x :: 0 <= x < g.nsyms && nullable[x] && !old(nullable[x])
  {
    done := true;
    var i := 1;
    ghost var r := 2;
    while i < g.Nitems()
      invariant 2 <= r <= |g.rlhs| && i == g.rrhs[r]
      invariant Sound(g, nullable[..])
      invariant forall x :: 0 <= x < g.nsyms && old(nullable[x]) ==> nullable[x]
      invariant done ==> nullable[..] == old(nullable[..]) && ClosedUnderRules(g, nullable[..], r)
      invariant !done ==> exists x :: 0 <= x < g.nsyms && nullable[x] && !old(nullable[x])
      decreases g.Nitems() - i
    {
      assert ValidRule(g, r);
      var empty := true;
      while g.ritem[i] >= 0
        invariant g.rrhs[r] <= i < g.rrhs[r + 1] <= |g.ritem|
        invariant RestIn(g, nullable[..], g.rrhs[r]) <==> empty && RestIn(g, nullable[..], i)
        decreases g.Nitems() - i
      {
        if !nullable[g.ritem[i]] {
          empty := false;
        }
        i := i + 1;
      }
      ItemStep(g, i, r);
      if empty {
        RuleIsNullable(g, nullable[..], r);
        var j := g.rlhs[-g.ritem[i]];
        if !nullable[j] {
          nullable[j] := true;
          done := false;
        }
      }
      i := i + 1;
      r := r + 1;
    }
    assert r < |g.rlhs| ==> ValidRule(g, r);
  }

  /** nullable[x] is set exactly for the symbols that derive the empty string. */
  method SetNullable(g: Grammar) returns (nullable: seq<bool>)
    requires Valid(g)
    ensures |nullable| == g.nsyms
    ensures forall x :: 0 <= x < g.nsyms ==> (nullable[x] <==> Nullable(g, x))
  {
    var a := new bool[g.nsyms](_ => false);
    var done := false;
    while !done
      invariant Sound(g, a[..])
      invariant done ==> ClosedUnderRules(g, a[..], |g.rlhs|)
      decreases !done, set x | 0 <= x < a.Length && !a[x]
    {
      ghost var before := set x | 0 <= x < a.Length && !a[x];
      done := NullablePass(g, a);
      ghost var after := set x | 0 <= x < a.Length && !a[x];
      assert after <= before;
      assert !done ==> after < before by {
        if !done {
          var x :| 0 <= x < g.nsyms && a[x] && x in before;
        }
      }
    }
    nullable := a[..];
    forall x | 0 <= x < g.nsyms && Nullable(g, x)
      ensures nullable[x]
    {
      var t :| ValidTree(g, t) && Root(g, t) == x && Yield(t) == [];
      EmptyTreeIn(g, nullable, t);
    }
  }
}
