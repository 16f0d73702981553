/** From the rules section of a grammar file to the tables of its parser (byacc-1.9/main.c). */
module Compiler {
  import opened Wrappers
  import opened Grammar
  import opened Productions
  import opened Seqs
  import opened Reader
  import opened Pack
  import opened Lr0
  import opened Driver
  import opened Soundness
  import opened Automata
  import opened Gotos
  import opened Packing
  import opened Mkpar
  import opened Output
  import opened Generator

  /** What reader.c leaves behind: the packed grammar, the codes of the tokens, the precedences, the numbers of the
      symbols, and the symbol table. */
  datatype Front = Front(g: Grammar, value: seq<int>, p: Precedences, m: Numbering, table: map<Sym, Bucket>)

  /** The rules of the grammar file, with all actions left out, over the numbers of the symbols. */
  ghost function SourceRules(m: Numbering, buckets: map<Sym, Bucket>, first: Sym, events: seq<Event>): seq<Rule> {
    Numbered(m, SourceOf(first, events, buckets))
  }

  /** The goal derives the token string in the grammar as it is written. */
  ghost predicate SourceDerives(f: Front, buckets: map<Sym, Bucket>, first: Sym, events: seq<Event>, goal: Sym, w: seq<int>) {
    DerivesIn(SourceRules(f.m, buckets, first, events), 0, f.m.ntokens, IndexOf(f.m, goal), w)
  }

  // The codes that were declared for the tokens, by their numbers.
  ghost predicate DeclaredFor(m: Numbering, buckets: map<Sym, Bucket>, declared: seq<int>) {
    && |declared| == m.ntokens
    && forall x :: x in m.index && x in buckets && buckets[x].cls == Term && 0 <= m.index[x] < |declared| ==> declared[m.index[x]] == buckets[x].value
  }

  ghost predicate HasLhs(source: seq<SymRule>, x: Sym) {
    exists j :: 0 <= j < |source| && source[j].lhs == x
  }

  // What the symbol table says of a symbol of the grammar file: it is a variable if it has a rule there, and a
  // token if not; its code and precedence are the declared ones.
  ghost predicate SymbolFor(b: Bucket, x: Sym, source: seq<SymRule>, declared: map<Sym, Bucket>) {
    && b.cls == (if HasLhs(source, x) then Nonterm else Term)
    && b.value == CodeBy(declared, x) && b.prec == Declared(declared, x).prec && b.assoc == Declared(declared, x).assoc
  }

  // The symbol table for this source: it has all symbols that were declared and all that its rules use, and
  // made-up ones.
  ghost predicate TableFor(table: map<Sym, Bucket>, source: seq<SymRule>, declared: map<Sym, Bucket>) {
    && declared.Keys <= table.Keys && (forall x :: x in table && !x.Gensym? ==> SymbolFor(table[x], x, source, declared))
    && (forall x :: x in table && x.Gensym? ==> table[x] == Bucket(Nonterm, UNDEFINED, 0, TOKEN))
    && forall k, i :: 0 <= k < |source| && 0 <= i < |source[k].rhs| ==> source[k].rhs[i] in table
  }

  ghost predicate TokenAt(table: map<Sym, Bucket>, m: Numbering, x: Sym, i: int) {
    x in table && table[x].cls == Term && x in m.index && m.index[x] == i
  }

  ghost predicate HasToken(table: map<Sym, Bucket>, m: Numbering, i: int) {
    exists x :: TokenAt(table, m, x, i)
  }

  // The numbers tell the symbols apart, and those of tokens from those of variables; every token number is used.
  ghost predicate NumbersFor(f: Front, source: seq<SymRule>, declared: map<Sym, Bucket>, goal: Sym) {
    && TableFor(f.table, source, declared) && NumberingOk(f.table, goal, f.m)
    && forall i :: 1 <= i < f.m.ntokens ==> HasToken(f.table, f.m, i)
  }

  // The codes are those of the table where it has one, and new ones elsewhere.
  ghost predicate CodesFor(f: Front, declared: seq<int>) {
    DeclaredFor(f.m, f.table, declared) && (forall i :: 1 <= i < |declared| ==> declared[i] >= UNDEFINED) && CodesAssigned(declared, f.value)
  }

  // The precedences of the symbols are those of the table; symbol 0 and $accept have none.
  ghost predicate SymbolPrecsFor(table: map<Sym, Bucket>, m: Numbering, prec: seq<int>, assoc: seq<int>) {
    && |prec| == |assoc| == m.nsyms
    && (forall x :: x in table && x in m.index && 0 <= m.index[x] < m.nsyms ==> prec[m.index[x]] == table[x].prec && assoc[m.index[x]] == table[x].assoc)
    && forall k :: 0 <= k < m.nsyms && k !in m.index.Values ==> prec[k] == 0 && assoc[k] == TOKEN
  }

  ghost predicate PrecsFor(f: Front, rules: seq<SymRule>) {
    && SymbolPrecsFor(f.table, f.m, f.p.symbolPrec, f.p.symbolAssoc)
    && PrecsAre(f.table, rules, |rules|, f.p.rulePrec, f.p.ruleAssoc) && PrecedencesFit(f.g, f.p)
  }

  // The packed grammar is that of the rules, which are those of the source but for made-up symbols; the goal
  // derives the same strings in the one and in the other.
  ghost predicate GrammarFor(f: Front, rules: seq<SymRule>, buckets: map<Sym, Bucket>, first: Sym, events: seq<Event>, goal: Sym) {
    && Valid(f.g) && f.g.ntokens == f.m.ntokens && f.g.nsyms == f.m.nsyms && |f.value| == f.g.ntokens
    && (forall k :: 3 <= k < |rules| ==> RuleOk(rules[k], f.table))
    && Stripped(rules) == SourceOf(first, events, buckets) && Decodes(f.g, Numbered(f.m, rules))
    && forall w :: Derives(f.g, f.g.Goal(), w) <==> SourceDerives(f, buckets, first, events, goal, w)
  }

  /** Everything that reader.c leaves behind is that of this source. */
  ghost predicate FrontFor(f: Front, rules: seq<SymRule>, declared: seq<int>, buckets: map<Sym, Bucket>, first: Sym, events: seq<Event>, goal: Sym) {
    GrammarFor(f, rules, buckets, first, events, goal) && NumbersFor(f, SourceOf(first, events, buckets), buckets, goal) && CodesFor(f, declared) && PrecsFor(f, rules)
  }

  // symbol_prec or symbol_assoc: symbol 0 and $accept have none.
  method SymbolPrecs(list: seq<Sym>, buckets: map<Sym, Bucket>, m: Numbering) returns (prec: seq<int>, assoc: seq<int>)
    requires (forall x :: x in list ==> x in buckets && x in m.index && 0 <= m.index[x] < m.nsyms)
    requires forall x, y :: x in m.index && y in m.index && m.index[x] == m.index[y] ==> x == y
    requires forall x :: x in buckets ==> x in list
    ensures SymbolPrecsFor(buckets, m, prec, assoc)
  {
    prec, assoc := seq(m.nsyms, _ => 0), seq(m.nsyms, _ => TOKEN);
    for i := 0 to |list|
      invariant |prec| == |assoc| == m.nsyms
      invariant forall x :: x in list[..i] ==> prec[m.index[x]] == buckets[x].prec && assoc[m.index[x]] == buckets[x].assoc
      invariant forall k :: 0 <= k < m.nsyms && k !in m.index.Values ==> prec[k] == 0 && assoc[k] == TOKEN
    {
      var x := list[i];
      assert x in list && list[..i + 1] == list[..i] + [x];
      forall y | y in list[..i]
        ensures y in list
      {
      }
      prec := prec[m.index[x] := buckets[x].prec];
      assoc := assoc[m.index[x] := buckets[x].assoc];
    }
    assert list[..|list|] == list;
  }

  // The codes that the tokens have when pack_symbols begins.
  method DeclaredCodes(buckets: map<Sym, Bucket>, m: Numbering, terms: seq<Sym>) returns (declared: seq<int>)
    requires m.ntokens == 1 + |terms| && (forall x :: x in terms ==> x in buckets)
    requires forall i :: 0 <= i < |terms| ==> terms[i] in m.index && m.index[terms[i]] == i + 1
    requires forall x :: x in m.index && x in buckets && buckets[x].cls == Term ==> x in terms
    ensures DeclaredFor(m, buckets, declared)
    ensures forall i :: 0 <= i < |terms| ==> declared[i + 1] == buckets[terms[i]].value
  {
    declared := [0];
    for i := 0 to |terms|
      invariant |declared| == i + 1 && forall j :: 0 <= j < i ==> declared[j + 1] == buckets[terms[j]].value
    {
      assert terms[i] in terms;
      declared := declared + [buckets[terms[i]].value];
    }
  }

  lemma {:induction false} SourceFirst(first: Sym, events: seq<Event>, declared: map<Sym, Bucket>)
    ensures SourceOf(first, events, declared)[0].lhs == first && HasLhs(SourceOf(first, events, declared), first)
  {
    if events != [] {
      SourceFirst(first, events[..|events| - 1], declared);
    }
  }

  // Every left-hand side is a variable of the table.
  lemma LhsIsVar(source: seq<SymRule>, rules: seq<SymRule>, buckets: map<Sym, Bucket>, gensym: nat, x: Sym)
    requires Stripped(rules) == source && RulesOk(rules, buckets, gensym) && HasLhs(source, x)
    ensures x in buckets && buckets[x].cls == Nonterm
  {
    hide Stripped, RulesOk;
    var j :| 0 <= j < |source| && source[j].lhs == x;
    assert source[j] in source;
    var k := StrippedFrom(rules, source[j]);
    RuleInTable(rules, buckets, gensym, k);
  }

  // Every variable of the table that the grammar file has has a rule there.
  lemma VarIsLhs(source: seq<SymRule>, rules: seq<SymRule>, buckets: map<Sym, Bucket>, gensym: nat, x: Sym)
    requires Stripped(rules) == source && RulesOk(rules, buckets, gensym) && x in buckets && buckets[x].cls == Nonterm && !x.Gensym?
    ensures HasLhs(source, x)
  {
    hide Stripped;
    assert RuleFor(rules, x);
    var k :| 3 <= k < |rules| && rules[k].lhs == x;
    StrippedHas(rules, k);
    var j :| 0 <= j < |source| && source[j] == rules[k].(rhs := Bare(rules[k].rhs));
    assert source[j].lhs == x;
  }

  lemma {:induction false} BareIn(q: seq<Sym>)
    ensures forall x :: x in Bare(q) ==> x in q
  {
    if q != [] {
      BareIn(q[..|q| - 1]);
    }
  }

  // What the reader and check_symbols have made of the declared table.
  lemma TableIs(source: seq<SymRule>, rules: seq<SymRule>, buckets: map<Sym, Bucket>, gensym: nat, declared: map<Sym, Bucket>)
    requires Stripped(rules) == source && RulesOk(rules, buckets, gensym) && PrecsKept(buckets, declared)
    requires forall x :: x in buckets && x.Gensym? ==> buckets[x].cls == Nonterm
    ensures TableFor(Checked(buckets), source, declared)
  {
    hide Stripped, RulesOk, HasLhs;
    forall x | x in buckets && !x.Gensym?
      ensures SymbolFor(Checked(buckets)[x], x, source, declared)
    {
      if buckets[x].cls == Nonterm {
        VarIsLhs(source, rules, buckets, gensym, x);
      }
      if HasLhs(source, x) {
        LhsIsVar(source, rules, buckets, gensym, x);
      }
    }
    forall k, i | 0 <= k < |source| && 0 <= i < |source[k].rhs|
      ensures source[k].rhs[i] in buckets
    {
      assert source[k] in source;
      var n := StrippedFrom(rules, source[k]);
      RuleInTable(rules, buckets, gensym, n);
      BareIn(rules[n].rhs);
      assert source[k].rhs[i] in Bare(rules[n].rhs);
    }
  }

  lemma CheckedOk(list: seq<Sym>, buckets: map<Sym, Bucket>, rules: seq<SymRule>, gensym: nat)
    requires RulesOk(rules, buckets, gensym) && TableOk(list, buckets, gensym)
    ensures RulesOk(rules, Checked(buckets), gensym) && TableOk(list, Checked(buckets), gensym) && Distinct(list)
    ensures forall x :: x in list <==> x in Checked(buckets)
    ensures Checked(buckets).Keys == buckets.Keys && list != [] && list[0] in Checked(buckets) && Checked(buckets)[list[0]].cls == Term
  {
    hide HasEmptyRule;
    forall k | 3 <= k < |rules|
      ensures RuleOk(rules[k], Checked(buckets))
    {
      assert RuleOk(rules[k], buckets);
    }
  }

  lemma GensymsAre(list: seq<Sym>, buckets: map<Sym, Bucket>, gensym: nat)
    requires TableOk(list, buckets, gensym)
    ensures forall x :: x in buckets && x.Gensym? ==> buckets[x].cls == Nonterm
  {
  }

  lemma RulesAre(rules: seq<SymRule>, buckets: map<Sym, Bucket>, gensym: nat)
    requires RulesOk(rules, buckets, gensym)
    ensures forall k :: 3 <= k < |rules| ==> RuleOk(rules[k], buckets)
  {
  }

  lemma CheckedValues(buckets: map<Sym, Bucket>, declared: map<Sym, Bucket>)
    requires PrecsKept(buckets, declared)
    ensures forall x :: x in Checked(buckets) ==> Checked(buckets)[x].value >= UNDEFINED
  {
  }

  /** The goal derives the same strings in the packed grammar and in the grammar as it is written: actions,
      wherever they stand, do not change the language. */
  lemma PackedLanguage(f: Front, buckets0: map<Sym, Bucket>, first: Sym, events: seq<Event>, goal: Sym,
                       list: seq<Sym>, buckets: map<Sym, Bucket>, rules: seq<SymRule>, gensym: nat, w: seq<int>)
    requires Stripped(rules) == SourceOf(first, events, buckets0) && RulesOk(rules, buckets, gensym) && TableOk(list, buckets, gensym)
    requires NumberingOk(buckets, goal, f.m) && !goal.Gensym? && goal in buckets
    requires Decodes(f.g, Numbered(f.m, rules)) && f.g.ntokens == f.m.ntokens
    ensures Derives(f.g, f.g.Goal(), w) <==> SourceDerives(f, buckets0, first, events, goal, w)
  {
    hide RulesOk, TableOk, Stripped, SourceOf, Decodes, Expands, Derives, DerivesIn;
    MadeUpNumber(buckets, goal, f.m, goal);
    StrippedExpands(buckets, goal, f.m, list, rules, gensym);
    PackedDerives(f.g, Numbered(f.m, rules), f.g.Goal(), w);
    ExpansionDerives(Numbered(f.m, rules), 3, SourceRules(f.m, buckets0, first, events), MadeUp(f.m), f.m.ntokens, f.g.Goal(), w);
  }

  /** read_grammar, check_symbols, pack_symbols and pack_grammar. There is a result unless the left-hand side of
      a rule is a token, or the declared start symbol has no rule. */
  method ReadAndPack(list: seq<Sym>, buckets: map<Sym, Bucket>, start: Option<Sym>, first: Sym, events: seq<Event>)
    returns (f: Option<Front>, ghost declared: seq<int>, ghost rules: seq<SymRule>)
    requires TableOk(list, buckets, 0) && PrecsKept(buckets, buckets) && !first.Gensym? && forall e :: e in events ==> ValidEvent(e)
    requires start.Some? ==> start.value in buckets
    ensures f.None? <==> Refused(buckets, start, first, events)
    ensures f.Some? ==> FrontFor(f.value, rules, declared, buckets, first, events, GoalOf(start, first))
  {
    hide RulesOk, TableOk, PrecsKept, Stripped, SourceOf, HasLhs, TokenLhs, Layout, HeadsAre, FrontFor;
    declared, rules := [], [];
    var r, ok := ReadGrammar(list, buckets, first, events);
    if !ok {
      return None, declared, rules;
    }
    SourceFirst(first, events, buckets);
    LhsIsVar(SourceOf(first, events, buckets), r.rules, r.buckets, r.gensym, first);
    var goal := GoalOf(start, first);
    StillThere(buckets, r.buckets, start);
    NotMadeUp(r.buckets, buckets, first, goal, start);
    if HasLhs(SourceOf(first, events, buckets), goal) {
      LhsIsVar(SourceOf(first, events, buckets), r.rules, r.buckets, r.gensym, goal);
    }
    if r.buckets[goal].cls != Nonterm {
      return None, declared, rules;
    }
    VarIsLhs(SourceOf(first, events, buckets), r.rules, r.buckets, r.gensym, goal);
    var front;
    front, declared, rules := PackUp(r, buckets, first, events, goal);
    f := Some(front);
  }

  function GoalOf(start: Option<Sym>, first: Sym): Sym {
    if start.Some? then start.value else first
  }

  /** The grammar file is refused: the left-hand side of a rule is a token, or the start symbol has no rule. */
  ghost predicate Refused(buckets: map<Sym, Bucket>, start: Option<Sym>, first: Sym, events: seq<Event>) {
    TokenLhs(first, events, buckets) || !HasLhs(SourceOf(first, events, buckets), GoalOf(start, first))
  }

  /** check_symbols, pack_symbols and pack_grammar */
  method PackUp(r: GrammarReader, ghost buckets: map<Sym, Bucket>, ghost first: Sym, ghost events: seq<Event>, goal: Sym)
    returns (f: Front, declared: seq<int>, ghost rules: seq<SymRule>)
    requires r.Closed() && r.Sound(buckets) && Stripped(r.rules) == SourceOf(first, events, buckets)
    requires goal in r.buckets && r.buckets[goal].cls == Nonterm && !goal.Gensym?
    ensures FrontFor(f, rules, declared, buckets, first, events, goal)
  {
    hide RulesOk, TableOk, PrecsKept, Stripped, SourceOf, Layout, HeadsAre, NumberingOk, Valid, Decodes, Checked, CodesAssigned, HasToken,
         PrecsAre, SymbolPrecsFor, DeclaredFor, TableFor, FrontFor, RuleOk;
    var checked := Checked(r.buckets);
    CheckedOk(r.list, r.buckets, r.rules, r.gensym);
    CheckedValues(r.buckets, buckets);
    CheckedGoal(r.buckets, goal);
    GensymsAre(r.list, r.buckets, r.gensym);
    TableIs(SourceOf(first, events, buckets), r.rules, r.buckets, r.gensym, buckets);
    var m, terms := NumberSymbols(r.list, checked, goal);
    ChosenExact(r.list, checked, true);
    TermsThere(r.list, checked, terms);
    AllNumbered(checked, m, terms);
    declared := DeclaredCodes(checked, m, terms);
    CodesAre(checked, goal, m, declared, terms);
    var value := AssignCodes(declared);
    var g, rulePrec, ruleAssoc := PackGrammar(r, m, checked, goal);
    NumbersFit(checked, goal, m);
    var prec, assoc := SymbolPrecs(r.list, checked, m);
    f := Front(g, value, Precedences(prec, assoc, rulePrec, ruleAssoc), m, checked);
    rules := r.rules;
    FrontIs(f, rules, declared, buckets, first, events, goal, r.list, r.gensym);
  }

  // The pieces together.
  lemma FrontIs(f: Front, rules: seq<SymRule>, declared: seq<int>, buckets: map<Sym, Bucket>, first: Sym, events: seq<Event>, goal: Sym,
                list: seq<Sym>, gensym: nat)
    requires Stripped(rules) == SourceOf(first, events, buckets) && RulesOk(rules, f.table, gensym) && TableOk(list, f.table, gensym)
    requires TableFor(f.table, SourceOf(first, events, buckets), buckets) && NumberingOk(f.table, goal, f.m) && !goal.Gensym? && goal in f.table
    requires forall i :: 1 <= i < f.m.ntokens ==> HasToken(f.table, f.m, i)
    requires Valid(f.g) && f.g.ntokens == f.m.ntokens && f.g.nsyms == f.m.nsyms && Decodes(f.g, Numbered(f.m, rules))
    requires DeclaredFor(f.m, f.table, declared) && (forall i :: 1 <= i < |declared| ==> declared[i] >= UNDEFINED) && CodesAssigned(declared, f.value)
    requires SymbolPrecsFor(f.table, f.m, f.p.symbolPrec, f.p.symbolAssoc) && PrecsAre(f.table, rules, |rules|, f.p.rulePrec, f.p.ruleAssoc)
    ensures FrontFor(f, rules, declared, buckets, first, events, goal)
  {
    hide RulesOk, TableOk, Stripped, SourceOf, NumberingOk, Valid, Decodes, CodesAssigned, Derives, SourceDerives, HasToken, PrecsAre, SymbolPrecsFor,
         DeclaredFor, TableFor, RuleOk;
    RulesAre(rules, f.table, gensym);
    RuleCount(f.g, f.m, rules);
    PrecCount(f.table, rules, f.m, f.p.symbolPrec, f.p.symbolAssoc, f.p.rulePrec, f.p.ruleAssoc);
    CodeCount(declared, f.value, f.m, f.table);
    forall w
      ensures Derives(f.g, f.g.Goal(), w) <==> SourceDerives(f, buckets, first, events, goal, w)
    {
      PackedLanguage(f, buckets, first, events, goal, list, f.table, rules, gensym, w);
    }
  }

  lemma AllNumbered(buckets: map<Sym, Bucket>, m: Numbering, terms: seq<Sym>)
    requires m.ntokens == 1 + |terms| && forall i :: 0 <= i < |terms| ==> terms[i] in m.index && m.index[terms[i]] == i + 1
    requires forall x :: x in terms ==> x in buckets && buckets[x].cls == Term
    ensures forall i :: 1 <= i < m.ntokens ==> HasToken(buckets, m, i)
  {
    forall i | 1 <= i < m.ntokens
      ensures HasToken(buckets, m, i)
    {
      assert terms[i - 1] in terms && m.index[terms[i - 1]] == i - 1 + 1;
      assert TokenAt(buckets, m, terms[i - 1], i);
    }
  }

  lemma PrecCount(buckets: map<Sym, Bucket>, rules: seq<SymRule>, m: Numbering, prec: seq<int>, assoc: seq<int>, rulePrec: seq<int>, ruleAssoc: seq<int>)
    requires SymbolPrecsFor(buckets, m, prec, assoc) && PrecsAre(buckets, rules, |rules|, rulePrec, ruleAssoc)
    ensures |prec| == |assoc| == m.nsyms && |rulePrec| == |ruleAssoc| == |rules|
  {
  }

  lemma NotMadeUp(buckets: map<Sym, Bucket>, declared: map<Sym, Bucket>, first: Sym, goal: Sym, start: Option<Sym>)
    requires PrecsKept(buckets, declared) && !first.Gensym? && (start.Some? ==> start.value in declared)
    requires goal == if start.Some? then start.value else first
    ensures !goal.Gensym?
  {
  }

  lemma StillThere(declared: map<Sym, Bucket>, buckets: map<Sym, Bucket>, start: Option<Sym>)
    requires PrecsKept(buckets, declared) && (start.Some? ==> start.value in declared)
    ensures start.Some? ==> start.value in buckets && !start.value.Gensym?
  {
  }

  lemma CheckedGoal(buckets: map<Sym, Bucket>, goal: Sym)
    requires goal in buckets && buckets[goal].cls == Nonterm
    ensures goal in Checked(buckets) && Checked(buckets)[goal].cls == Nonterm
  {
  }

  lemma TermsThere(list: seq<Sym>, buckets: map<Sym, Bucket>, terms: seq<Sym>)
    requires list != [] && list[0] in buckets && buckets[list[0]].cls == Term && (forall x :: x in list <==> x in buckets)
    requires forall x :: x in terms <==> x in list && x in buckets && (buckets[x].cls == Term) == true
    ensures terms != [] && forall x :: x in buckets && buckets[x].cls == Term ==> x in terms
  {
    assert list[0] in terms;
  }

  lemma CodesAre(buckets: map<Sym, Bucket>, goal: Sym, m: Numbering, declared: seq<int>, terms: seq<Sym>)
    requires |declared| == 1 + |terms| && forall i :: 0 <= i < |terms| ==> terms[i] in buckets && declared[i + 1] == buckets[terms[i]].value
    requires forall x :: x in buckets ==> buckets[x].value >= UNDEFINED
    ensures forall i :: 1 <= i < |declared| ==> declared[i] >= UNDEFINED
  {
    forall i | 1 <= i < |declared|
      ensures declared[i] >= UNDEFINED
    {
      var j := i - 1;
      assert declared[j + 1] == buckets[terms[j]].value;
    }
  }

  lemma NumbersFit(buckets: map<Sym, Bucket>, goal: Sym, m: Numbering)
    requires NumberingOk(buckets, goal, m)
    ensures goal in m.index && m.index[goal] == m.ntokens + 1 && forall x :: x in buckets ==> x in m.index && 0 <= m.index[x] < m.nsyms
    ensures forall x, y :: x in m.index && y in m.index && m.index[x] == m.index[y] ==> x == y
  {
  }

  lemma RuleCount(g: Grammar, m: Numbering, rules: seq<SymRule>)
    requires Decodes(g, Numbered(m, rules))
    ensures |g.rlhs| == |rules|
  {
  }

  lemma CodeCount(declared: seq<int>, value: seq<int>, m: Numbering, buckets: map<Sym, Bucket>)
    requires CodesAssigned(declared, value) && DeclaredFor(m, buckets, declared)
    ensures |value| == |declared| == m.ntokens
  {
  }

  /** The codes are fit for the generator exactly when the declared ones do not clash, and all fit a short. */
  lemma CodesFit(f: Front, declared: seq<int>)
    requires CodesFor(f, declared) && f.g.ntokens == f.m.ntokens
    ensures ValidCodes(f.g, f.value) <==> NoClash(declared) && forall k :: 0 <= k < |f.value| ==> f.value[k] <= MAXSHORT
  {
    CodesDistinct(declared, f.value);
    if NoClash(declared) {
      forall k | 0 < k < |f.value|
        ensures f.value[k] > 0
      {
        assert k >= 2 && declared[k] == UNDEFINED ==> NewCode(declared, f.value, k);
      }
    }
  }

  ghost predicate IsCoded(f: Front, w: seq<int>, codes: seq<int>) {
    (forall k :: 0 <= k < |w| ==> 0 <= w[k] < |f.value|) && Codes(f.value, w) == codes
  }

  /** These are the codes of a token string that the goal derives in the grammar as it is written. */
  ghost predicate SourceHas(f: Front, buckets: map<Sym, Bucket>, first: Sym, events: seq<Event>, goal: Sym, codes: seq<int>) {
    exists w :: SourceDerives(f, buckets, first, events, goal, w) && IsCoded(f, w, codes)
  }

  // The packed grammar and the source have the same strings of codes.
  lemma SourceCodes(f: Front, rules: seq<SymRule>, buckets: map<Sym, Bucket>, first: Sym, events: seq<Event>, goal: Sym, codes: seq<int>)
    requires GrammarFor(f, rules, buckets, first, events, goal)
    ensures DerivesCodes(f.g, f.value, f.g.Goal(), codes) <==> SourceHas(f, buckets, first, events, goal, codes)
  {
    hide Valid, SourceDerives, Derives, Decodes, Stripped, SourceOf;
    if DerivesCodes(f.g, f.value, f.g.Goal(), codes) {
      var w :| Derives(f.g, f.g.Goal(), w) && (forall k :: 0 <= k < |w| ==> 0 <= w[k] < |f.value|) && Codes(f.value, w) == codes;
      assert SourceDerives(f, buckets, first, events, goal, w) && IsCoded(f, w, codes);
    }
    if SourceHas(f, buckets, first, events, goal, codes) {
      var w :| SourceDerives(f, buckets, first, events, goal, w) && IsCoded(f, w, codes);
      assert Derives(f.g, f.g.Goal(), w);
    }
  }

  /** Every run is safe: the parser never leaves its tables or its stack, overflows only when the stack is full,
      and accepts only what the source has. */
  ghost predicate SourceSound(f: Front, buckets: map<Sym, Bucket>, first: Sym, events: seq<Event>, goal: Sym, t: Tables) {
    forall limit: nat, input: seq<int>, n: nat :: SourceSafe(f, buckets, first, events, goal, t, limit, input, n)
  }

  ghost predicate SourceSafe(f: Front, buckets: map<Sym, Bucket>, first: Sym, events: seq<Event>, goal: Sym, t: Tables, limit: nat, input: seq<int>, n: nat) {
    match Run(t, limit, Start(input), n)
    case Running(c) => 2 <= limit ==> |c.stack| <= limit
    case Accepted => SourceHas(f, buckets, first, events, goal, Sentence(input))
    case SyntaxError => true
    case Overflow => WasFull(t, limit, Start(input), n)
    case Crash => false
  }

  /** Given stack enough, the parser accepts just what the source has; and on no stack does it report a syntax
      error for that. */
  ghost predicate SourceExact(f: Front, buckets: map<Sym, Bucket>, first: Sym, events: seq<Event>, goal: Sym, t: Tables) {
    forall input: seq<int> ::
      && (AcceptsSome(t, input) <==> SourceHas(f, buckets, first, events, goal, Sentence(input)))
      && (SourceHas(f, buckets, first, events, goal, Sentence(input)) ==> !ErrsSome(t, input))
  }

  lemma SoundForSource(f: Front, rules: seq<SymRule>, buckets: map<Sym, Bucket>, first: Sym, events: seq<Event>, goal: Sym, t: Tables)
    requires GrammarFor(f, rules, buckets, first, events, goal) && SoundFor(f.g, f.value, t)
    ensures SourceSound(f, buckets, first, events, goal, t)
  {
    hide GrammarFor, SourceHas, DerivesCodes, Run, WasFull;
    SizeOf(f, rules, buckets, first, events, goal);
    forall limit: nat, input: seq<int>, n: nat
      ensures SourceSafe(f, buckets, first, events, goal, t, limit, input, n)
    {
      assert SafeRun(f.g, f.value, t, limit, input, n);
      SourceCodes(f, rules, buckets, first, events, goal, Sentence(input));
    }
  }

  lemma ExactForSource(f: Front, rules: seq<SymRule>, buckets: map<Sym, Bucket>, first: Sym, events: seq<Event>, goal: Sym, t: Tables)
    requires GrammarFor(f, rules, buckets, first, events, goal) && ExactFor(f.g, f.value, t)
    ensures SourceExact(f, buckets, first, events, goal, t)
  {
    hide GrammarFor, SourceHas, DerivesCodes, AcceptsSome, ErrsSome;
    SizeOf(f, rules, buckets, first, events, goal);
    forall input: seq<int>
      ensures AcceptsSome(t, input) <==> SourceHas(f, buckets, first, events, goal, Sentence(input))
      ensures SourceHas(f, buckets, first, events, goal, Sentence(input)) ==> !ErrsSome(t, input)
    {
      SourceCodes(f, rules, buckets, first, events, goal, Sentence(input));
    }
  }

  lemma SizeOf(f: Front, rules: seq<SymRule>, buckets: map<Sym, Bucket>, first: Sym, events: seq<Event>, goal: Sym)
    requires GrammarFor(f, rules, buckets, first, events, goal)
    ensures Valid(f.g) && |f.value| == f.g.ntokens == f.m.ntokens
  {
  }

  // No declaration gives a precedence.
  ghost predicate NoneDeclared(buckets: map<Sym, Bucket>) {
    forall x :: x in buckets ==> buckets[x].prec == 0
  }

  lemma {:induction false} SourcePrecs(first: Sym, events: seq<Event>, declared: map<Sym, Bucket>)
    requires NoneDeclared(declared)
    ensures forall r :: r in SourceOf(first, events, declared) ==> r.prec == UNDEFINED || r.prec == 0
  {
    if events != [] {
      SourcePrecs(first, events[..|events| - 1], declared);
    }
  }

  lemma {:induction false} NoTermPrec(table: map<Sym, Bucket>, q: seq<Sym>)
    requires forall x :: x in table && table[x].cls == Term ==> table[x].prec == 0
    ensures TermPrec(table, q).0 == 0
  {
    if q != [] {
      NoTermPrec(table, q[..|q| - 1]);
    }
  }

  lemma NoSymbolPrec(table: map<Sym, Bucket>, source: seq<SymRule>, declared: map<Sym, Bucket>)
    requires NoneDeclared(declared) && TableFor(table, source, declared)
    ensures forall x :: x in table ==> table[x].prec == 0
  {
    hide HasLhs, CodeBy;
    forall x | x in table && !x.Gensym?
      ensures table[x].prec == 0
    {
      assert SymbolFor(table[x], x, source, declared);
    }
  }

  lemma NoRulePrec(table: map<Sym, Bucket>, rules: seq<SymRule>, k: nat)
    requires 3 <= k < |rules| && RuleOk(rules[k], table) && forall x :: x in table ==> table[x].prec == 0
    requires forall r :: r in Stripped(rules) ==> r.prec == UNDEFINED || r.prec == 0
    ensures RulePrec(table, rules[k]).0 == 0
  {
    hide Stripped;
    NoTermPrec(table, rules[k].rhs);
    if !rules[k].lhs.Gensym? {
      StrippedHas(rules, k);
    }
  }

  /** Without declared precedences, no symbol and no rule has one. */
  lemma NoneFor(f: Front, rules: seq<SymRule>, declared: seq<int>, buckets: map<Sym, Bucket>, first: Sym, events: seq<Event>, goal: Sym)
    requires NoneDeclared(buckets) && FrontFor(f, rules, declared, buckets, first, events, goal)
    ensures NoPrecedences(f.p)
  {
    hide Valid, Decodes, Stripped, SourceOf, Derives, SourceDerives, CodesFor, NoneDeclared, TableFor, RuleOk, RulePrec;
    NoSymbolPrec(f.table, SourceOf(first, events, buckets), buckets);
    SourcePrecs(first, events, buckets);
    forall k | 0 <= k < |f.p.symbolPrec|
      ensures f.p.symbolPrec[k] == 0
    {
      if k in f.m.index.Values {
        var x :| x in f.m.index && f.m.index[x] == k;
        assert x in f.table;
      }
    }
    forall k | 3 <= k < |rules|
      ensures f.p.rulePrec[k] == 0
    {
      NoRulePrec(f.table, rules, k);
      assert (f.p.rulePrec[k], f.p.ruleAssoc[k]) == RulePrec(f.table, rules[k]);
    }
  }

  // Whether the codes are fit for the generator.
  method CheckCodes(g: Grammar, value: seq<int>) returns (fit: bool)
    requires |value| == g.ntokens > 0 && value[0] == 0
    ensures fit <==> ValidCodes(g, value)
  {
    fit := true;
    for i := 1 to |value|
      invariant fit <==> forall k :: 0 < k < i ==> 0 < value[k] <= MAXSHORT && value[k] !in value[..k]
    {
      fit := fit && 0 < value[i] <= MAXSHORT && value[i] !in value[..i];
    }
    if fit {
      forall i, j | 0 <= i < j < |value|
        ensures value[i] != value[j]
      {
        assert value[i] in value[..j];
      }
    } else {
      var k :| 0 < k < |value| && !(0 < value[k] <= MAXSHORT && value[k] !in value[..k]);
      assert value[k] in value[..k] ==> exists i :: 0 <= i < k && value[..k][i] == value[k] == value[i];
    }
  }

  /** How a run ends: with a refused grammar file; with codes that clash or do not fit a short, which the source
      does not notice; or with what the generator has made of the packed grammar. */
  datatype Compiled = Rejected | CodesUnfit(f: Front) | Ran(f: Front, result: Result)

  /** main, from the rules section of a grammar file to the tables. Unless it is refused, or its codes are unfit,
      the parser is sound for the grammar as it is written, actions and all; and if that declares no precedences,
      and no conflict is counted, the parser accepts exactly what it has, and reports a syntax error for none of
      that. */
  method Compile(list: seq<Sym>, buckets: map<Sym, Bucket>, start: Option<Sym>, first: Sym, events: seq<Event>)
    returns (c: Compiled, ghost declared: seq<int>, ghost rules: seq<SymRule>, ghost u: Product)
    requires TableOk(list, buckets, 0) && PrecsKept(buckets, buckets) && !first.Gensym? && forall e :: e in events ==> ValidEvent(e)
    requires start.Some? ==> start.value in buckets
    ensures c.Rejected? <==> Refused(buckets, start, first, events)
    ensures !c.Rejected? ==> FrontFor(c.f, rules, declared, buckets, first, events, GoalOf(start, first))
    ensures !c.Rejected? ==> (c.Ran? <==> NoClash(declared) && forall k :: 0 <= k < |c.f.value| ==> c.f.value[k] <= MAXSHORT)
    ensures c.Ran? ==> u.g == c.f.g && u.value == c.f.value && u.p == c.f.p && EndsWith(u, c.result)
    ensures c.Ran? && c.result.Done? ==> SourceSound(c.f, buckets, first, events, GoalOf(start, first), c.result.t)
    ensures c.Ran? && c.result.Done? && NoneDeclared(buckets) && c.result.srTotal + c.result.rrTotal == 0 ==>
              SourceExact(c.f, buckets, first, events, GoalOf(start, first), c.result.t)
  {
    hide TableOk, PrecsKept, Refused, GrammarFor, NumbersFor, CodesFor, PrecsFor, ValidCodes, NoClash, NoPrecedences, NoneDeclared, SourceSound, SourceExact,
         SoundFor, ExactFor, EndsWith, Valid;
    u := Product(Grammar(0, 0, [], [], []), Automaton([], [], [], []), [], GotoMap([], [], []), Precedences([], [], [], []), iset{}, [],
                 Parser([], [], 0, 0, 0), Vectors(0, [], [], [], []), Tables([], [], [], [], [], [], [], [], [], 0, 0));
    var front;
    front, declared, rules := ReadAndPack(list, buckets, start, first, events);
    if front.None? {
      return Rejected, declared, rules, u;
    }
    var f, goal := front.value, GoalOf(start, first);
    SizeOf(f, rules, buckets, first, events, goal);
    FirstCode(f, declared);
    var fit := CheckCodes(f.g, f.value);
    CodesFit(f, declared);
    if !fit {
      return CodesUnfit(f), declared, rules, u;
    }
    PrecsFit(f, rules);
    var result;
    result, u := Generate(f.g, f.value, f.p);
    c := Ran(f, result);
    if result.Done? {
      SoundForSource(f, rules, buckets, first, events, goal, result.t);
      if NoneDeclared(buckets) && result.srTotal + result.rrTotal == 0 {
        NoneFor(f, rules, declared, buckets, first, events, goal);
        ExactForSource(f, rules, buckets, first, events, goal, result.t);
      }
    }
  }

  lemma FirstCode(f: Front, declared: seq<int>)
    requires CodesFor(f, declared)
    ensures f.value != [] && f.value[0] == 0
  {
  }

  lemma PrecsFit(f: Front, rules: seq<SymRule>)
    requires PrecsFor(f, rules)
    ensures PrecedencesFit(f.g, f.p)
  {
  }
}
