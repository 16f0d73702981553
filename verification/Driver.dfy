/** The table-driven parser that every generated file contains (byacc-1.9/skeleton.c, body and trailer). */
module Driver {
  import opened Wrappers

  /** The tables that output.c prints: yylhs, yylen, yydefred, yydgoto, yysindex, yyrindex, yygindex, yytable,
      yycheck, YYTABLESIZE and YYFINAL. */
  datatype Tables = Tables(lhs: seq<int>, len: seq<int>, defred: seq<int>, dgoto: seq<int>,
                           sindex: seq<int>, rindex: seq<int>, gindex: seq<int>,
                           table: seq<int>, check: seq<int>, tablesize: int, final: int)

  // What the table has for column c of the vector at this base: nothing if the base is 0, the slot lies outside
  // the table, or the check there is not c.
  function Lookup(t: Tables, base: int, c: int): Option<int> {
    var n := base + c;
    if base != 0 && 0 <= n <= t.tablesize && n < |t.check| && n < |t.table| && t.check[n] == c then Some(t.table[n]) else None
  }

  function At(q: seq<int>, i: int): Option<int> {
    if 0 <= i < |q| then Some(q[i]) else None
  }

  /** The state stack yyss up to yyssp, the lookahead yychar (-1 when none has been read), and what the
      lexical analyser has still to deliver. */
  datatype Config = Config(stack: seq<int>, yychar: int, input: seq<int>)

  /** Crash is an access outside a table or below the stack; Overflow is the jump to yyoverflow. A syntax
      error ends the parse: recovery is not part of this model. */
  datatype Outcome = Running(c: Config) | Accepted | SyntaxError | Overflow | Crash

  // The next token is read if there is none; the end of the input, or a negative code, is the token 0.
  function Read(c: Config): Config {
    if c.yychar >= 0 then c
    else if c.input == [] then c.(yychar := 0)
    else Config(c.stack, if c.input[0] < 0 then 0 else c.input[0], c.input[1..])
  }

  function Push(limit: nat, c: Config, s: int): Outcome {
    if |c.stack| >= limit then Overflow else Running(c.(stack := c.stack + [s]))
  }

  // yyreduce: pop the right-hand side of rule n, then go over its left-hand side.
  function Reduce(t: Tables, limit: nat, c: Config, n: int): Outcome {
    match (At(t.len, n), At(t.lhs, n))
    case (Some(m), Some(x)) =>
      if m < 0 || |c.stack| - m < 1 then Crash else GoOver(t, limit, c.(stack := c.stack[..|c.stack| - m]), x)
    case _ => Crash
  }

  function GoOver(t: Tables, limit: nat, c: Config, x: int): Outcome {
    if c.stack == [] then Crash else
    var s := c.stack[|c.stack| - 1];
    if s == 0 && x == 0 then
      var c' := Read(c.(stack := c.stack + [t.final]));
      if c'.yychar == 0 then Accepted else Running(c')
    else
      match (At(t.gindex, x), At(t.dgoto, x))
      case (Some(base), Some(default)) =>
        Push(limit, c, match Lookup(t, base, s) case Some(s') => s' case None => default)
      case _ => Crash
  }

  // One turn from yyloop back to yyloop.
  function Step(t: Tables, limit: nat, c: Config): Outcome {
    if c.stack == [] then Crash else
    var s := c.stack[|c.stack| - 1];
    match (At(t.defred, s), At(t.sindex, s), At(t.rindex, s))
    case (Some(d), Some(sx), Some(rx)) =>
      if d != 0 then Reduce(t, limit, c, d) else
      var c' := Read(c);
      (match Lookup(t, sx, c'.yychar)
       case Some(s') => Push(limit, c'.(yychar := -1), s')
       case None =>
         match Lookup(t, rx, c'.yychar)
         case Some(n) => Reduce(t, limit, c', n)
         case None => SyntaxError)
    case _ => Crash
  }

  function Run(t: Tables, limit: nat, c: Config, n: nat): Outcome
    decreases n
  {
    if n == 0 then Running(c) else
    match Step(t, limit, c)
    case Running(c') => Run(t, limit, c', n - 1)
    case o => o
  }

  function Start(input: seq<int>): Config {
    Config([0], -1, input)
  }

  // The parser, given this stack size, accepts the input.
  ghost predicate Accepts(t: Tables, limit: nat, input: seq<int>) {
    exists n :: Run(t, limit, Start(input), n) == Accepted
  }

  lemma {:induction false} RunAdd(t: Tables, limit: nat, c: Config, n: nat, c': Config, m: nat)
    requires Run(t, limit, c, n) == Running(c')
    ensures Run(t, limit, c, n + m) == Run(t, limit, c', m)
    decreases n
  {
    hide Step;
    if n > 0 {
      RunAdd(t, limit, Step(t, limit, c).c, n - 1, c', m);
    }
  }
}
