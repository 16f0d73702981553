/** yyparse itself, over the stack array yyss (byacc-1.9/skeleton.c, body and trailer). */
module Yyparse {
  import opened Wrappers
  import opened Grammar
  import opened Automata
  import opened Driver
  import opened Soundness

  /** The variables of a generated parser: yyss with yyssp, yystate, yychar, and the rest of the input. */
  class Parser {
    const t: Tables
    const yyss: array<int>
    var yyssp: nat
    var yystate: int
    var yychar: int
    var rest: seq<int>

    ghost predicate Valid()
      reads this, yyss
    {
      && |t.table| > t.tablesize && |t.check| > t.tablesize
      && yyssp < yyss.Length && 2 <= yyss.Length && yystate == yyss[yyssp] && yychar >= -1
    }

    function Now(): Config
      requires yyssp < yyss.Length
      reads this, yyss
    {
      Config(yyss[..yyssp + 1], yychar, rest)
    }

    constructor (t: Tables, yystacksize: nat, input: seq<int>)
      requires |t.table| > t.tablesize && |t.check| > t.tablesize && 2 <= yystacksize
      ensures Valid() && this.t == t && yyss.Length == yystacksize && fresh(yyss) && Now() == Start(input)
    {
      this.t := t;
      this.yyss := new int[yystacksize];
      this.yyssp, this.yystate, this.yychar, this.rest := 0, 0, -1, input;
      new;
      yyss[yyssp] := yystate;
      assert yyss[..1] == [0];
    }

    // The next token, if none has been read.
    method ReadToken()
      requires Valid()
      modifies `yychar, `rest
      ensures Valid() && Now() == Read(old(Now())) && yychar >= 0
    {
      if yychar < 0 {
        if rest == [] {
          yychar := 0;
        } else {
          yychar, rest := rest[0], rest[1..];
          if yychar < 0 {
            yychar := 0;
          }
        }
      }
    }

    method Probe(base: int, c: int) returns (r: Option<int>)
      requires Valid()
      ensures r == Lookup(t, base, c)
    {
      var yyn := base;
      if yyn != 0 {
        yyn := yyn + c;
        if yyn >= 0 && yyn <= t.tablesize && t.check[yyn] == c {
          return Some(t.table[yyn]);
        }
      }
      r := None;
    }

    // State s goes on the stack, unless that is full.
    method PushState(s: int) returns (o: Outcome)
      requires Valid()
      modifies this, yyss
      ensures Valid() && o == Push(yyss.Length, old(Now()), s) && (o.Running? ==> o.c == Now())
      ensures yychar == old(yychar) && rest == old(rest)
    {
      if yyssp >= yyss.Length - 1 {
        return Overflow;
      }
      ghost var was := yyss[..yyssp + 1];
      yyssp, yystate := yyssp + 1, s;
      yyss[yyssp] := s;
      assert yyss[..yyssp + 1] == was + [s];
      o := Running(Now());
    }

    // yyreduce
    method ReduceBy(yyn: int) returns (o: Outcome)
      requires Valid() && Reduce(t, yyss.Length, Now(), yyn) != Crash
      requires forall k :: 0 < k <= yyssp ==> yyss[k] != 0
      modifies this, yyss
      ensures Valid() && o == Reduce(t, yyss.Length, old(Now()), yyn) && (o.Running? ==> o.c == Now())
    {
      var yym := t.len[yyn];
      ghost var was := yyss[..yyssp + 1];
      yyssp := yyssp - yym;
      yystate := yyss[yyssp];
      assert yyss[..yyssp + 1] == was[..|was| - yym];
      o := GoOverLhs(t.lhs[yyn]);
    }

    method GoOverLhs(yym: int) returns (o: Outcome)
      requires Valid() && GoOver(t, yyss.Length, Now(), yym) != Crash && (yystate == 0 ==> yyssp == 0)
      modifies this, yyss
      ensures Valid() && o == GoOver(t, yyss.Length, old(Now()), yym) && (o.Running? ==> o.c == Now())
    {
      if yystate == 0 && yym == 0 {
        o := PushState(t.final);
        ReadToken();
        o := if yychar == 0 then Accepted else Running(Now());
      } else {
        var r := Probe(t.gindex[yym], yystate);
        o := PushState(match r case Some(s) => s case None => t.dgoto[yym]);
      }
    }

    // One turn from yyloop back to yyloop.
    method Turn() returns (o: Outcome)
      requires Valid() && Step(t, yyss.Length, Now()) != Crash
      requires forall k :: 0 < k <= yyssp ==> yyss[k] != 0
      modifies this, yyss
      ensures Valid() && o == Step(t, yyss.Length, old(Now())) && (o.Running? ==> o.c == Now())
    {
      var yyn := t.defred[yystate];
      if yyn != 0 {
        o := ReduceBy(yyn);
      } else {
        ReadToken();
        var r := Probe(t.sindex[yystate], yychar);
        if r.Some? {
          yychar := -1;
          o := PushState(r.value);
        } else {
          r := Probe(t.rindex[yystate], yychar);
          if r.None? {
            return SyntaxError;
          }
          o := ReduceBy(r.value);
        }
      }
    }
  }

  // What every turn of the loop can rely on.
  lemma TurnFacts(g: Grammar, a: Automaton, value: seq<int>, t: Tables, limit: nat, input: seq<int>, c: Config, ts: seq<Tree>)
    requires Valid(g) && Canonical(g, a) && Faithful(g, a, value, t) && |value| == g.ntokens && Inv(g, a, value, input, c, ts)
    ensures forall k :: 0 < k < |c.stack| ==> c.stack[k] != 0
    ensures Step(t, limit, c) != Crash
    ensures Step(t, limit, c).Running? ==> exists ts' :: Inv(g, a, value, input, Step(t, limit, c).c, ts')
  {
    SpineStates(g, a, c.stack, ts);
    StepGood(g, a, value, t, limit, input, c, ts);
  }

  lemma StartFacts(g: Grammar, a: Automaton, value: seq<int>, t: Tables, input: seq<int>)
    requires Valid(g) && Faithful(g, a, value, t)
    ensures |t.table| > t.tablesize && |t.check| > t.tablesize && |value| == g.ntokens
    ensures Inv(g, a, value, input, Start(input), [])
  {
  }

  /** The loop of yyparse, stopped after `fuel` turns if it is still running then: exactly the steps of Run,
      without any access outside the tables or the stack. */
  method Yyparse(ghost g: Grammar, ghost a: Automaton, ghost value: seq<int>, t: Tables, yystacksize: nat, input: seq<int>, fuel: nat)
    returns (o: Outcome)
    requires Valid(g) && Canonical(g, a) && Faithful(g, a, value, t) && yystacksize >= 2
    ensures o == Run(t, yystacksize, Start(input), fuel)
  {
    hide Valid, Canonical, Faithful, Inv, Step;
    StartFacts(g, a, value, t, input);
    var p := new Parser(t, yystacksize, input);
    ghost var ts: seq<Tree> := [];
    var n := 0;
    o := Running(Start(input));
    while n < fuel && o.Running?
      invariant 0 <= n <= fuel && p.Valid() && p.t == t && p.yyss.Length == yystacksize && fresh(p) && fresh(p.yyss)
      invariant o.Running? ==> o.c == p.Now() && Inv(g, a, value, input, o.c, ts)
      invariant Run(t, yystacksize, Start(input), fuel) == match o case Running(c) => Run(t, yystacksize, c, fuel - n) case _ => o
    {
      TurnFacts(g, a, value, t, yystacksize, input, o.c, ts);
      assert forall k :: 0 < k <= p.yyssp ==> o.c.stack[k] == p.yyss[k];
      o := p.Turn();
      if o.Running? {
        ts :| Inv(g, a, value, input, o.c, ts);
      }
      n := n + 1;
    }
  }
}
