/** The rules section of the grammar file: rules with actions in them become packed rules (byacc-1.9/reader.c,
    start_rule to pack_grammar). */
module Reader {
  import opened Wrappers

  const UNDEFINED := -1
  const TOKEN := 0

  datatype Class = Unknown | Term | Nonterm

  /** A name or a literal of the grammar file, or a symbol that the reader has made up ("$$n"). */
  datatype Sym = Named(name: string) | Quoted(text: string) | Gensym(n: nat)

  datatype Bucket = Bucket(cls: Class, value: int, prec: int, assoc: int)

  /** A rule with the precedence it was given, UNDEFINED if none. */
  datatype SymRule = SymRule(lhs: Sym, rhs: seq<Sym>, prec: int, assoc: int)

  /** What the rules section consists of: a symbol in a right-hand side, a new left-hand side, a vertical bar,
      an action, or a %prec clause. */
  datatype Event = Use(x: Sym) | NewRule(x: Sym) | Bar | Action | Prec(x: Sym)

  ghost predicate ValidEvent(e: Event) {
    e.Bar? || e.Action? || !e.x.Gensym?
  }

  function WithLast(rules: seq<SymRule>, r: SymRule): seq<SymRule>
    requires rules != []
  {
    rules[..|rules| - 1] + [r]
  }

  // What is known of a symbol's precedence when the rules section begins.
  function Declared(declared: map<Sym, Bucket>, x: Sym): Bucket {
    if x in declared then declared[x] else Bucket(Unknown, UNDEFINED, 0, TOKEN)
  }

  // One more event.
  function Grow(rules: seq<SymRule>, e: Event, declared: map<Sym, Bucket>): (r: seq<SymRule>)
    requires rules != []
    ensures r != []
  {
    var last := rules[|rules| - 1];
    match e
    case Use(x) => WithLast(rules, last.(rhs := last.rhs + [x]))
    case NewRule(x) => rules + [SymRule(x, [], UNDEFINED, TOKEN)]
    case Bar => rules + [SymRule(last.lhs, [], UNDEFINED, TOKEN)]
    case Action => rules
    case Prec(x) => WithLast(rules, last.(prec := Declared(declared, x).prec, assoc := Declared(declared, x).assoc))
  }

  /** The rules as they are written, with all actions left out. */
  function SourceOf(first: Sym, events: seq<Event>, declared: map<Sym, Bucket>): (rules: seq<SymRule>)
    ensures rules != []
  {
    if events == [] then [SymRule(first, [], UNDEFINED, TOKEN)]
    else Grow(SourceOf(first, events[..|events| - 1], declared), events[|events| - 1], declared)
  }

  // ---- how rules are written

  /** A rule of the grammar file, with its %prec clause if it has one. */
  datatype RuleText = RuleText(lhs: Sym, rhs: seq<Sym>, prec: Option<Sym>)

  function Uses(q: seq<Sym>): seq<Event> {
    seq(|q|, i requires 0 <= i < |q| => Use(q[i]))
  }

  function Spelled(r: RuleText): seq<Event> {
    [NewRule(r.lhs)] + Uses(r.rhs) + match r.prec case Some(x) => [Prec(x)] case None => []
  }

  function AllSpelled(texts: seq<RuleText>): seq<Event> {
    if texts == [] then [] else AllSpelled(texts[..|texts| - 1]) + Spelled(texts[|texts| - 1])
  }

  // The rule that is meant: without %prec, its precedence is undefined.
  function Meant(r: RuleText, declared: map<Sym, Bucket>): SymRule {
    match r.prec
    case Some(x) => SymRule(r.lhs, r.rhs, Declared(declared, x).prec, Declared(declared, x).assoc)
    case None => SymRule(r.lhs, r.rhs, UNDEFINED, TOKEN)
  }

  function AllMeant(texts: seq<RuleText>, declared: map<Sym, Bucket>): seq<SymRule> {
    seq(|texts|, i requires 0 <= i < |texts| => Meant(texts[i], declared))
  }

  lemma SourceStep(first: Sym, events: seq<Event>, e: Event, declared: map<Sym, Bucket>)
    ensures SourceOf(first, events + [e], declared) == Grow(SourceOf(first, events, declared), e, declared)
  {
    hide Grow;
    assert (events + [e])[..|events|] == events;
  }

  // The rules, with q more symbols in the last of them.
  function MoreUsed(rules: seq<SymRule>, q: seq<Sym>): seq<SymRule>
    requires rules != []
  {
    WithLast(rules, rules[|rules| - 1].(rhs := rules[|rules| - 1].rhs + q))
  }

  lemma UsedOne(rules: seq<SymRule>, q: seq<Sym>, x: Sym, declared: map<Sym, Bucket>)
    requires rules != []
    ensures Grow(MoreUsed(rules, q), Use(x), declared) == MoreUsed(rules, q + [x])
  {
    var r := rules[|rules| - 1];
    assert r.rhs + q + [x] == r.rhs + (q + [x]);
  }

  lemma UsedNone(rules: seq<SymRule>)
    requires rules != []
    ensures MoreUsed(rules, []) == rules
  {
    var r := rules[|rules| - 1];
    assert r.rhs + [] == r.rhs;
  }

  lemma {:induction false} SourceUses(first: Sym, events: seq<Event>, q: seq<Sym>, declared: map<Sym, Bucket>)
    ensures SourceOf(first, events + Uses(q), declared) == MoreUsed(SourceOf(first, events, declared), q)
    decreases |q|
  {
    hide SourceOf, Grow, MoreUsed;
    var rules := SourceOf(first, events, declared);
    if q == [] {
      UsedNone(rules);
      assert events + Uses(q) == events;
    } else {
      var n := |q| - 1;
      SourceUses(first, events, q[..n], declared);
      SourceStep(first, events + Uses(q[..n]), Use(q[n]), declared);
      UsedOne(rules, q[..n], q[n], declared);
      assert q[..n] + [q[n]] == q;
      assert events + Uses(q) == events + Uses(q[..n]) + [Use(q[n])];
    }
  }

  // The rule just started, once it is finished.
  lemma StartedMeans(before: seq<SymRule>, r: RuleText, declared: map<Sym, Bucket>)
    ensures var used := MoreUsed(before + [SymRule(r.lhs, [], UNDEFINED, TOKEN)], r.rhs);
            before + [Meant(r, declared)] == match r.prec case Some(x) => Grow(used, Prec(x), declared) case None => used
  {
    assert [] + r.rhs == r.rhs;
  }

  // One rule, from the event that starts it on.
  lemma {:induction false} SourceSpelled(first: Sym, before: seq<SymRule>, events: seq<Event>, r: RuleText, declared: map<Sym, Bucket>)
    requires SourceOf(first, events, declared) == before + [SymRule(r.lhs, [], UNDEFINED, TOKEN)]
    ensures SourceOf(first, events + Spelled(r)[1..], declared) == before + [Meant(r, declared)]
  {
    hide SourceOf, Grow, MoreUsed, Meant;
    SourceUses(first, events, r.rhs, declared);
    StartedMeans(before, r, declared);
    match r.prec
    case None =>
      assert Spelled(r)[1..] == Uses(r.rhs);
    case Some(x) =>
      assert events + Spelled(r)[1..] == events + Uses(r.rhs) + [Prec(x)];
      SourceStep(first, events + Uses(r.rhs), Prec(x), declared);
  }

  /** Rules that are written one by one, without actions and bars, are read as what they mean. */
  lemma {:induction false} SourceRead(texts: seq<RuleText>, declared: map<Sym, Bucket>)
    requires texts != []
    ensures AllSpelled(texts) != [] && AllSpelled(texts)[0] == NewRule(texts[0].lhs)
    ensures SourceOf(texts[0].lhs, AllSpelled(texts)[1..], declared) == AllMeant(texts, declared)
    decreases |texts|
  {
    hide SourceOf, Grow, Meant, Spelled, AllSpelled;
    var n := |texts| - 1;
    var first, r, rest := texts[0].lhs, texts[n], texts[..n];
    SpelledStarts(r);
    SpelledMore(texts);
    if n == 0 {
      SourceNone(first, declared);
      assert AllSpelled(texts)[1..] == [] + Spelled(r)[1..];
      SourceSpelled(first, [], [], r, declared);
    } else {
      SourceRead(rest, declared);
      var before := AllSpelled(rest)[1..];
      SourceStarts(first, before, r.lhs, declared);
      assert AllSpelled(texts)[1..] == before + [NewRule(r.lhs)] + Spelled(r)[1..];
      SourceSpelled(first, AllMeant(rest, declared), before + [NewRule(r.lhs)], r, declared);
    }
    assert AllMeant(texts, declared) == AllMeant(rest, declared) + [Meant(r, declared)];
  }

  lemma {:induction false} SpelledMore(texts: seq<RuleText>)
    requires texts != []
    ensures AllSpelled(texts) == AllSpelled(texts[..|texts| - 1]) + Spelled(texts[|texts| - 1])
    ensures |texts| == 1 ==> AllSpelled(texts[..|texts| - 1]) == []
  {
    hide Spelled;
  }

  lemma SourceNone(first: Sym, declared: map<Sym, Bucket>)
    ensures SourceOf(first, [], declared) == [] + [SymRule(first, [], UNDEFINED, TOKEN)]
  {
  }

  lemma SourceStarts(first: Sym, events: seq<Event>, x: Sym, declared: map<Sym, Bucket>)
    ensures SourceOf(first, events + [NewRule(x)], declared) == SourceOf(first, events, declared) + [SymRule(x, [], UNDEFINED, TOKEN)]
  {
    hide SourceOf;
    SourceStep(first, events, NewRule(x), declared);
  }

  lemma SpelledStarts(r: RuleText)
    ensures Spelled(r) == [NewRule(r.lhs)] + Spelled(r)[1..]
  {
  }

  /** An action may stand anywhere, and a bar is short for the left-hand side of the rule before it. */
  lemma {:induction false} SourceShort(first: Sym, p: seq<Event>, q: seq<Event>, declared: map<Sym, Bucket>)
    ensures SourceOf(first, p + [Action] + q, declared) == SourceOf(first, p + q, declared)
    ensures var rules := SourceOf(first, p, declared);
            SourceOf(first, p + [Bar] + q, declared) == SourceOf(first, p + [NewRule(rules[|rules| - 1].lhs)] + q, declared)
  {
    hide SourceOf;
    var rules := SourceOf(first, p, declared);
    var lhs := rules[|rules| - 1].lhs;
    SourceStep(first, p, Action, declared);
    SourceStep(first, p, Bar, declared);
    SourceStep(first, p, NewRule(lhs), declared);
    SourceAfter(first, p + [Action], p, q, declared);
    SourceAfter(first, p + [Bar], p + [NewRule(lhs)], q, declared);
  }

  // What follows is read alike after what is read alike.
  lemma {:induction false} SourceAfter(first: Sym, p: seq<Event>, p': seq<Event>, q: seq<Event>, declared: map<Sym, Bucket>)
    requires SourceOf(first, p, declared) == SourceOf(first, p', declared)
    ensures SourceOf(first, p + q, declared) == SourceOf(first, p' + q, declared)
    decreases |q|
  {
    hide SourceOf, Grow;
    if q == [] {
      assert p + q == p && p' + q == p';
    } else {
      var n := |q| - 1;
      SourceAfter(first, p, p', q[..n], declared);
      SourceStep(first, p + q[..n], q[n], declared);
      SourceStep(first, p' + q[..n], q[n], declared);
      assert p + q == p + q[..n] + [q[n]] && p' + q == p' + q[..n] + [q[n]];
    }
  }

  function Bare(q: seq<Sym>): seq<Sym> {
    if q == [] then [] else Bare(q[..|q| - 1]) + if !q[|q| - 1].Gensym? then [q[|q| - 1]] else []
  }

  function Strip(r: SymRule): seq<SymRule> {
    if r.lhs.Gensym? then [] else [r.(rhs := Bare(r.rhs))]
  }

  /** The rules without the made-up symbols and their rules. Rules 0 to 2 are placeholders. */
  function Stripped(rules: seq<SymRule>): seq<SymRule> {
    if |rules| <= 3 then [] else Stripped(rules[..|rules| - 1]) + Strip(rules[|rules| - 1])
  }

  // Stripped of made-up symbols, the rules have grown by this event.
  ghost predicate Follows(rules: seq<SymRule>, e: Event, declared: map<Sym, Bucket>, rules': seq<SymRule>) {
    Stripped(rules) != [] && Stripped(rules') == Grow(Stripped(rules), e, declared)
  }

  // The items of finished rules: each right-hand side, and 0 behind it.
  function Layout(rules: seq<SymRule>): seq<Option<Sym>> {
    if |rules| <= 3 then [None, None, None, None] else
    Layout(rules[..|rules| - 1]) + Somes(rules[|rules| - 1].rhs) + [None]
  }

  function Somes(q: seq<Sym>): seq<Option<Sym>> {
    seq(|q|, i requires 0 <= i < |q| => Some(q[i]))
  }

  // A rule for the variable lhs, over symbols of the table; the rules for made-up symbols are empty.
  ghost predicate RuleOk(r: SymRule, buckets: map<Sym, Bucket>) {
    && r.lhs in buckets && buckets[r.lhs].cls == Nonterm && (forall x :: x in r.rhs ==> x in buckets)
    && (r.lhs.Gensym? ==> r.rhs == [] && r.prec == 0)
  }

  ghost predicate HasEmptyRule(rules: seq<SymRule>, n: nat) {
    exists k :: 3 <= k < |rules| && rules[k].lhs == Gensym(n)
  }

  ghost predicate RuleFor(rules: seq<SymRule>, x: Sym) {
    exists k :: 3 <= k < |rules| && rules[k].lhs == x
  }

  // Every rule is in order, and the variables are just the symbols that have one.
  ghost predicate RulesOk(rules: seq<SymRule>, buckets: map<Sym, Bucket>, gensym: nat) {
    && (forall k :: 3 <= k < |rules| ==> RuleOk(rules[k], buckets))
    && (forall n: nat :: 1 <= n <= gensym ==> HasEmptyRule(rules, n))
    && (forall x :: x in buckets && buckets[x].cls == Nonterm ==> RuleFor(rules, x))
  }

  // The symbol table: every symbol once, "error" first; the made-up symbols are those up to gensym.
  ghost predicate TableOk(list: seq<Sym>, buckets: map<Sym, Bucket>, gensym: nat) {
    && list != [] && list[0] in buckets && buckets[list[0]].cls == Term && list[0] == Named("error")
    && (forall i, j :: 0 <= i < j < |list| ==> list[i] != list[j])
    && (forall x :: x in list <==> x in buckets)
    && (forall x :: x in buckets && x.Gensym? <==> x.Gensym? && 1 <= x.n <= gensym)
    && (forall x :: x in buckets && x.Gensym? ==> buckets[x].cls == Nonterm)
    && (forall x :: x in buckets && x.Quoted? ==> buckets[x].cls == Term)
  }

  // What a symbol is a token by: being a literal, or its declaration.
  predicate IsTokenBy(declared: map<Sym, Bucket>, x: Sym) {
    x.Quoted? || (x in declared && declared[x].cls == Term)
  }

  // The code of a symbol before codes are given out: the declared one, or for a literal of one character without
  // one, that of the character.
  function CodeBy(declared: map<Sym, Bucket>, x: Sym): int {
    var value := Declared(declared, x).value;
    if value == UNDEFINED && x.Quoted? && |x.text| == 1 then x.text[0] as int else value
  }

  // Tokens, codes and precedences are as they were declared, and no declaration makes a variable; a code is a
  // number, or UNDEFINED.
  ghost predicate PrecsKept(buckets: map<Sym, Bucket>, declared: map<Sym, Bucket>) {
    && declared.Keys <= buckets.Keys && (forall x :: x in declared ==> !x.Gensym? && declared[x].cls != Nonterm)
    && (forall x :: x in buckets ==> buckets[x].value == CodeBy(declared, x) >= UNDEFINED && (buckets[x].cls == Term <==> IsTokenBy(declared, x)))
    && forall x :: x in buckets ==> buckets[x].prec == Declared(declared, x).prec && buckets[x].assoc == Declared(declared, x).assoc
  }

  /** One entry of the parallel arrays plhs, rprec and rassoc. */
  datatype Head = Head(lhs: Option<Sym>, prec: int, assoc: int)

  const NO_HEAD := Head(None, 0, TOKEN)

  function HeadOf(r: SymRule): Head {
    Head(Some(r.lhs), r.prec, r.assoc)
  }

  // The heads, from number 3 on, are those of the rules.
  ghost predicate HeadsAre(heads: seq<Head>, rules: seq<SymRule>) {
    |heads| == |rules| && forall k :: 3 <= k < |rules| ==> heads[k] == HeadOf(rules[k])
  }

  /** The variables of reader.c. heads stands for plhs, rprec and rassoc; rules is what the arrays mean. */
  class GrammarReader {
    var list: seq<Sym>
    var buckets: map<Sym, Bucket>
    var pitem: array<Option<Sym>>
    var nitems: nat
    var heads: array<Head>
    var nrules: nat
    var gensym: nat
    var lastWasAction: bool
    ghost var rules: seq<SymRule>

    // Rule nrules is open: end_rule has not been called for it.
    ghost predicate Open()
      reads this, pitem, heads
    {
      && 3 <= nrules && |rules| == nrules + 1 && nitems <= pitem.Length && nrules < heads.Length
      && HeadsAre(heads[..nrules + 1], rules)
      && pitem[..nitems] == Layout(rules[..nrules]) + Somes(rules[nrules].rhs)
      && !rules[nrules].lhs.Gensym? && RulesOk(rules, buckets, gensym) && TableOk(list, buckets, gensym)
    }

    // All rules are closed.
    ghost predicate Closed()
      reads this, pitem, heads
    {
      && 3 <= nrules == |rules| && nitems <= pitem.Length && nrules <= heads.Length
      && HeadsAre(heads[..nrules], rules)
      && pitem[..nitems] == Layout(rules) && RulesOk(rules, buckets, gensym) && TableOk(list, buckets, gensym)
      && (|rules| > 3 ==> !rules[|rules| - 1].lhs.Gensym?)
    }

    /** initialize_grammar, with the symbol table that the declarations have left. */
    constructor (list: seq<Sym>, buckets: map<Sym, Bucket>)
      requires TableOk(list, buckets, 0) && forall x :: x in buckets ==> buckets[x].cls != Nonterm
      ensures Closed() && nrules == 3 && this.list == list && this.buckets == buckets && gensym == 0 && !lastWasAction
      ensures fresh(pitem) && fresh(heads)
    {
      this.list, this.buckets, gensym, lastWasAction := list, buckets, 0, false;
      nitems, nrules := 4, 3;
      pitem := new Option<Sym>[300](_ => None);
      heads := new Head[100](_ => NO_HEAD);
      rules := seq(3, _ => SymRule(Gensym(0), [], 0, TOKEN));
      new;
      assert pitem[..4] == [None, None, None, None];
    }

    // expand_items
    method ExpandItems()
      modifies `pitem
      ensures fresh(pitem) && pitem.Length == old(pitem.Length) + 300 && pitem[..old(pitem.Length)] == old(pitem[..])
    {
      var items := new Option<Sym>[pitem.Length + 300](_ => None);
      forall i | 0 <= i < pitem.Length {
        items[i] := pitem[i];
      }
      assert items[..pitem.Length] == pitem[..];
      pitem := items;
    }

    // expand_rules
    method ExpandRules()
      modifies `heads
      ensures fresh(heads) && heads.Length == old(heads.Length) + 100 && heads[..old(heads.Length)] == old(heads[..])
    {
      var heads' := new Head[heads.Length + 100](_ => NO_HEAD);
      forall i | 0 <= i < heads.Length {
        heads'[i] := heads[i];
      }
      assert heads'[..heads.Length] == heads[..];
      heads := heads';
    }

    // The arrays are the ones before, or new.
    twostate predicate Moved()
      reads this
    {
      (pitem == old(pitem) || fresh(pitem)) && (heads == old(heads) || fresh(heads))
    }

    /** start_rule; false if the left-hand side is a token. */
    method StartRule(bp: Sym) returns (ok: bool)
      requires Closed() && bp in buckets && !bp.Gensym?
      modifies `buckets, `heads, `rules, heads
      ensures Moved() && ok == (old(buckets[bp].cls) != Term)
      ensures ok ==> Open() && rules == old(rules) + [SymRule(bp, [], UNDEFINED, TOKEN)]
      ensures ok ==> buckets == old(buckets)[bp := old(buckets[bp]).(cls := Nonterm)]
    {
      hide RulesOk, TableOk, Layout;
      ghost var rules0, buckets0, heads0 := rules, buckets, heads[..nrules];
      if buckets[bp].cls == Term {
        return false;
      }
      buckets := buckets[bp := buckets[bp].(cls := Nonterm)];
      if nrules >= heads.Length {
        ExpandRules();
      }
      heads[nrules] := Head(Some(bp), UNDEFINED, TOKEN);
      rules := rules + [SymRule(bp, [], UNDEFINED, TOKEN)];
      assert heads[..nrules + 1] == heads0 + [HeadOf(rules[nrules])];
      assert rules[..nrules] == rules0;
      StartedRule(list, buckets0, rules0, gensym, bp);
      ok := true;
    }

    /** end_rule */
    method EndRule()
      requires Open()
      modifies `lastWasAction, `pitem, `nitems, `nrules, pitem
      ensures Moved() && Closed() && nrules == old(nrules) + 1 && !lastWasAction
    {
      hide RulesOk, TableOk, Layout;
      ghost var items := pitem[..nitems];
      lastWasAction := false;
      if nitems >= pitem.Length {
        ExpandItems();
      }
      pitem[nitems] := None;
      nitems := nitems + 1;
      nrules := nrules + 1;
      assert pitem[..nitems] == items + [None];
      LayoutStep(rules);
    }

    /** insert_empty_rule: the symbols of the open rule move up by one place to make room for the 0 that closes
        the new, empty rule; the made-up symbol comes behind them. */
    method InsertEmptyRule()
      requires Open()
      modifies `gensym, `list, `buckets, `pitem, `nitems, `heads, `nrules, `rules, pitem, heads
      ensures Moved() && Open() && gensym == old(gensym) + 1 && rules == WithEmptyRule(old(rules), gensym)
      ensures list == old(list) + [Gensym(gensym)] && buckets == old(buckets)[Gensym(gensym) := Bucket(Nonterm, UNDEFINED, 0, TOKEN)]
    {
      hide RulesOk, TableOk, Layout, HeadsAre;
      ghost var rules0, buckets0, list0 := rules, buckets, list;
      gensym := gensym + 1;
      var bp := Gensym(gensym);
      list := list + [bp];
      buckets := buckets[bp := Bucket(Nonterm, UNDEFINED, 0, TOKEN)];
      ShiftItems(bp);
      ShiftHeads(bp);
      InsertedRule(list0, buckets0, rules0, gensym - 1);
      InsertedLayout(rules0, gensym);
    }

    // The part of insert_empty_rule that works on plhs, rprec and rassoc.
    method ShiftHeads(bp: Sym)
      requires 3 <= nrules < heads.Length && |rules| == nrules + 1 && HeadsAre(heads[..nrules + 1], rules) && bp.Gensym?
      modifies `heads, `nrules, `rules, heads
      ensures heads == old(heads) || fresh(heads)
      ensures nrules == old(nrules) + 1 && nrules < heads.Length
      ensures rules == WithEmptyRule(old(rules), bp.n) && HeadsAre(heads[..nrules + 1], rules)
    {
      ghost var heads0 := heads[..nrules + 1];
      nrules := nrules + 1;
      if nrules >= heads.Length {
        ExpandRules();
      }
      assert forall k :: 0 <= k < nrules ==> heads[k] == heads0[k];
      heads[nrules] := heads[nrules - 1];
      heads[nrules - 1] := Head(Some(bp), 0, TOKEN);
      rules := WithEmptyRule(rules, bp.n);
    }

    // The part of insert_empty_rule that works on pitem.
    method ShiftItems(bp: Sym)
      requires 3 <= nrules && |rules| == nrules + 1 && nitems <= pitem.Length
      requires pitem[..nitems] == Layout(rules[..nrules]) + Somes(rules[nrules].rhs)
      modifies `pitem, `nitems, pitem
      ensures pitem == old(pitem) || fresh(pitem)
      ensures nitems == old(nitems) + 2 <= pitem.Length
      ensures pitem[..nitems] == Layout(rules[..nrules]) + [None] + Somes(rules[nrules].rhs) + [Some(bp)]
    {
      hide Layout, Somes;
      ghost var done, cur := Layout(rules[..nrules]), Somes(rules[nrules].rhs);
      LayoutEnd(rules[..nrules]);
      AllSome(rules[nrules].rhs);
      ghost var items := pitem[..nitems];
      nitems := nitems + 2;
      if nitems > pitem.Length {
        ExpandItems();
      }
      assert pitem[..nitems - 2] == items;
      ShiftUp(pitem, nitems - 2, bp, done, cur);
    }

    // The table and the rules are in order, and nothing has been redeclared.
    ghost predicate Sound(declared: map<Sym, Bucket>)
      reads this
    {
      RulesOk(rules, buckets, gensym) && TableOk(list, buckets, gensym) && PrecsKept(buckets, declared)
    }

    /** lookup, as get_name and get_literal call it: a new symbol comes last in the list, and a literal is a
        token, of one character with the code of that character if it has no other. */
    method LookUp(x: Sym, ghost declared: map<Sym, Bucket>)
      requires !x.Gensym? && Sound(declared)
      modifies `list, `buckets
      ensures Sound(declared) && x in buckets && (buckets[x].cls == Term <==> IsTokenBy(declared, x))
    {
      ghost var buckets0, list0 := buckets, list;
      if x !in buckets {
        list := list + [x];
        buckets := buckets[x := Bucket(Unknown, UNDEFINED, 0, TOKEN)];
      }
      if x.Quoted? {
        var b := buckets[x];
        var value := if |x.text| == 1 && b.value == UNDEFINED then x.text[0] as int else b.value;
        buckets := buckets[x := b.(cls := Term, value := value)];
      }
      LookedUp(list0, buckets0, rules, gensym, x, buckets, declared);
    }

    // One more item, in a longer array if this one is full.
    method AppendItem(x: Sym)
      requires Open() && x in buckets
      modifies `pitem, `nitems, `rules, pitem
      ensures (pitem == old(pitem) || fresh(pitem)) && Open()
      ensures rules == WithLast(old(rules), old(rules[nrules]).(rhs := old(rules[nrules]).rhs + [x]))
    {
      hide RulesOk, TableOk, Layout;
      ghost var rules0, items := rules, pitem[..nitems];
      nitems := nitems + 1;
      if nitems > pitem.Length {
        ExpandItems();
      }
      assert pitem[..nitems - 1] == items;
      pitem[nitems - 1] := Some(x);
      rules := WithLast(rules, rules[nrules].(rhs := rules[nrules].rhs + [x]));
      assert pitem[..nitems] == items + [Some(x)];
      assert rules[..nrules] == rules0[..nrules];
      assert Somes(rules[nrules].rhs) == Somes(rules0[nrules].rhs) + [Some(x)];
      LastChanged(rules0, rules, buckets, gensym);
    }

    /** add_symbol, when no colon follows. An action before the symbol becomes an empty rule of its own. */
    method AddSymbol(x: Sym, ghost declared: map<Sym, Bucket>)
      requires Open() && Sound(declared) && !x.Gensym?
      modifies this, pitem, heads
      ensures Moved() && Open() && Sound(declared)
      ensures Follows(old(rules), Use(x), declared, rules)
    {
      hide RulesOk, TableOk, Layout, PrecsKept, Stripped, HeadsAre;
      SomethingStripped(rules);
      LookUp(x, declared);
      if lastWasAction {
        EmptyRuleForAction(declared);
      }
      lastWasAction := false;
      ghost var rules1 := rules;
      AppendItem(x);
      StrippedLast(rules1, x);
    }

    // insert_empty_rule, seen from the source.
    method EmptyRuleForAction(ghost declared: map<Sym, Bucket>)
      requires Open() && Sound(declared)
      modifies this, pitem, heads
      ensures Moved() && Open() && Sound(declared) && Stripped(rules) == Stripped(old(rules)) && buckets.Keys >= old(buckets.Keys)
    {
      hide RulesOk, TableOk, Layout, PrecsKept, Stripped, HeadsAre;
      ghost var rules0, buckets0 := rules, buckets;
      InsertEmptyRule();
      StrippedInsert(rules0, gensym);
      PrecsInsert(buckets0, declared, gensym);
    }

    /** The list effect of copy_action: two actions in a row make the first one a rule of its own. */
    method CopyAction(ghost declared: map<Sym, Bucket>)
      requires Open() && Sound(declared)
      modifies this, pitem, heads
      ensures Moved() && Open() && Sound(declared) && Stripped(rules) == Stripped(old(rules)) && lastWasAction
    {
      hide RulesOk, TableOk, Layout, PrecsKept, Stripped, HeadsAre;
      if lastWasAction {
        EmptyRuleForAction(declared);
      }
      lastWasAction := true;
    }

    /** end_rule and start_rule: after a colon, and at a vertical bar. */
    method NextRule(x: Sym, ghost declared: map<Sym, Bucket>) returns (ok: bool)
      requires Open() && Sound(declared) && x in buckets && !x.Gensym?
      modifies this, pitem, heads
      ensures ok == (old(buckets[x].cls) != Term) && Moved()
      ensures ok ==> Open() && Sound(declared)
      ensures ok ==> rules == old(rules) + [SymRule(x, [], UNDEFINED, TOKEN)] && !lastWasAction
    {
      hide RulesOk, TableOk, Layout, PrecsKept, Stripped, HeadsAre;
      ghost var buckets0 := buckets;
      EndRule();
      ok := StartRule(x);
      if ok {
        PrecsClass(buckets0, declared, x);
      }
    }

    /** mark_symbol, for %prec */
    method MarkSymbol(x: Sym, ghost declared: map<Sym, Bucket>)
      requires Open() && Sound(declared) && !x.Gensym?
      modifies `list, `buckets, `rules, heads
      ensures Open() && Sound(declared) && rules == Grow(old(rules), Prec(x), declared)
    {
      hide RulesOk, TableOk, Layout;
      LookUp(x, declared);
      ghost var rules0, heads0 := rules, heads[..nrules + 1];
      var b := buckets[x];
      heads[nrules] := heads[nrules].(prec := b.prec, assoc := b.assoc);
      rules := WithLast(rules, rules[nrules].(prec := b.prec, assoc := b.assoc));
      assert heads[..nrules + 1] == heads0[nrules := heads[nrules]];
      assert rules[..nrules] == rules0[..nrules];
      LastChanged(rules0, rules, buckets, gensym);
    }

    /** One turn of read_grammar. False if the left-hand side of a rule is a token. */
    method TakeEvent(e: Event, ghost declared: map<Sym, Bucket>) returns (ok: bool)
      requires Open() && Sound(declared) && ValidEvent(e)
      modifies this, pitem, heads
      ensures Moved() && (ok ==> Open() && Sound(declared))
      ensures ok <==> !(e.NewRule? && IsTokenBy(declared, e.x))
      ensures ok ==> Follows(old(rules), e, declared, rules)
    {
      hide RulesOk, TableOk, Layout, PrecsKept, Stripped, HeadsAre;
      ghost var rules0 := rules;
      SomethingStripped(rules0);
      ok := true;
      match e
      case Use(x) => AddSymbol(x, declared);
      case Action => CopyAction(declared);
      case NewRule(x) =>
        LookUp(x, declared);
        ok := NextRule(x, declared);
        StrippedNew(rules0, x);
      case Bar =>
        LastHead(heads[..nrules + 1], rules, buckets, gensym);
        var lhs := heads[nrules].lhs.value;
        ok := NextRule(lhs, declared);
        StrippedNew(rules0, lhs);
      case Prec(x) =>
        MarkSymbol(x, declared);
        StrippedPrec(rules0, x, declared);
    }
  }

  lemma PrecsInsert(buckets: map<Sym, Bucket>, declared: map<Sym, Bucket>, n: nat)
    requires PrecsKept(buckets, declared)
    ensures PrecsKept(buckets[Gensym(n) := Bucket(Nonterm, UNDEFINED, 0, TOKEN)], declared)
  {
  }

  lemma PrecsClass(buckets: map<Sym, Bucket>, declared: map<Sym, Bucket>, x: Sym)
    requires PrecsKept(buckets, declared) && x in buckets && buckets[x].cls != Term
    ensures PrecsKept(buckets[x := buckets[x].(cls := Nonterm)], declared)
  {
  }

  // The head of the open rule is a variable of the grammar file.
  lemma LastHead(heads: seq<Head>, rules: seq<SymRule>, buckets: map<Sym, Bucket>, gensym: nat)
    requires HeadsAre(heads, rules) && RulesOk(rules, buckets, gensym) && |rules| > 3
    ensures |heads| == |rules| && heads[|rules| - 1].lhs == Some(rules[|rules| - 1].lhs)
    ensures rules[|rules| - 1].lhs in buckets && buckets[rules[|rules| - 1].lhs].cls == Nonterm
  {
    assert RuleOk(rules[|rules| - 1], buckets);
  }

  lemma {:induction false} StrippedNew(rules: seq<SymRule>, x: Sym)
    requires |rules| > 3 && !x.Gensym?
    ensures Stripped(rules + [SymRule(x, [], UNDEFINED, TOKEN)]) == Stripped(rules) + [SymRule(x, [], UNDEFINED, TOKEN)]
  {
    assert (rules + [SymRule(x, [], UNDEFINED, TOKEN)])[..|rules|] == rules;
  }

  lemma {:induction false} StrippedPrec(rules: seq<SymRule>, x: Sym, declared: map<Sym, Bucket>)
    requires |rules| > 3 && !rules[|rules| - 1].lhs.Gensym?
    ensures Stripped(rules) != [] && Stripped(Grow(rules, Prec(x), declared)) == Grow(Stripped(rules), Prec(x), declared)
  {
    var rules' := Grow(rules, Prec(x), declared);
    assert rules'[..|rules'| - 1] == rules[..|rules| - 1];
    SomethingStripped(rules);
  }

  lemma LookedUpRules(buckets: map<Sym, Bucket>, rules: seq<SymRule>, gensym: nat, x: Sym, buckets': map<Sym, Bucket>)
    requires RulesOk(rules, buckets, gensym) && !x.Gensym?
    requires buckets'.Keys == buckets.Keys + {x} && forall y :: y in buckets && y != x ==> buckets'[y] == buckets[y]
    requires if x in buckets && buckets[x].cls == Nonterm then buckets'[x].cls == Nonterm else buckets'[x].cls != Nonterm
    ensures RulesOk(rules, buckets', gensym)
  {
    hide HasEmptyRule;
    forall k | 3 <= k < |rules|
      ensures RuleOk(rules[k], buckets')
    {
      assert RuleOk(rules[k], buckets);
    }
  }

  lemma LookedUp(list: seq<Sym>, buckets: map<Sym, Bucket>, rules: seq<SymRule>, gensym: nat, x: Sym, buckets': map<Sym, Bucket>, declared: map<Sym, Bucket>)
    requires RulesOk(rules, buckets, gensym) && TableOk(list, buckets, gensym) && PrecsKept(buckets, declared) && !x.Gensym?
    requires buckets'.Keys == buckets.Keys + {x} && forall y :: y in buckets && y != x ==> buckets'[y] == buckets[y]
    requires x in buckets && !x.Quoted? ==> buckets'[x] == buckets[x]
    requires x !in buckets && !x.Quoted? ==> buckets'[x].cls == Unknown
    requires (x.Quoted? ==> buckets'[x].cls == Term)
    requires buckets'[x].value == if x in buckets then buckets[x].value else CodeBy(map[], x)
    requires buckets'[x].prec == (if x in buckets then buckets[x].prec else 0) && buckets'[x].assoc == if x in buckets then buckets[x].assoc else TOKEN
    ensures var list' := if x in buckets then list else list + [x];
            RulesOk(rules, buckets', gensym) && TableOk(list', buckets', gensym) && PrecsKept(buckets', declared)
  {
    hide RulesOk, TableOk, PrecsKept;
    QuotedIsTerm(list, buckets, gensym, x);
    LookedUpRules(buckets, rules, gensym, x, buckets');
    LookedUpTable(list, buckets, gensym, x, buckets');
    LookedUpPrecs(buckets, x, buckets', declared);
  }

  lemma QuotedIsTerm(list: seq<Sym>, buckets: map<Sym, Bucket>, gensym: nat, x: Sym)
    requires TableOk(list, buckets, gensym)
    ensures x in buckets && x.Quoted? ==> buckets[x].cls == Term
  {
  }

  lemma LookedUpTable(list: seq<Sym>, buckets: map<Sym, Bucket>, gensym: nat, x: Sym, buckets': map<Sym, Bucket>)
    requires TableOk(list, buckets, gensym) && !x.Gensym?
    requires buckets'.Keys == buckets.Keys + {x} && forall y :: y in buckets && y != x ==> buckets'[y] == buckets[y]
    requires (x in buckets && !x.Quoted? ==> buckets'[x] == buckets[x]) && (x.Quoted? ==> buckets'[x].cls == Term)
    ensures TableOk(if x in buckets then list else list + [x], buckets', gensym)
  {
    assert forall y :: y in buckets' <==> y in buckets || y == x;
  }

  lemma LookedUpPrecs(buckets: map<Sym, Bucket>, x: Sym, buckets': map<Sym, Bucket>, declared: map<Sym, Bucket>)
    requires PrecsKept(buckets, declared) && x in buckets' && !x.Gensym?
    requires buckets'[x].value == if x in buckets then buckets[x].value else CodeBy(map[], x)
    requires (x.Quoted? ==> buckets'[x].cls == Term) && (!x.Quoted? ==> buckets'[x].cls == if x in buckets then buckets[x].cls else Unknown)
    requires buckets'.Keys == buckets.Keys + {x} && forall y :: y in buckets && y != x ==> buckets'[y] == buckets[y]
    requires buckets'[x].prec == (if x in buckets then buckets[x].prec else 0) && buckets'[x].assoc == if x in buckets then buckets[x].assoc else TOKEN
    ensures PrecsKept(buckets', declared)
  {
    assert forall y :: y in buckets' <==> y in buckets || y == x;
  }

  lemma LastChanged(rules: seq<SymRule>, rules': seq<SymRule>, buckets: map<Sym, Bucket>, gensym: nat)
    requires RulesOk(rules, buckets, gensym) && |rules'| == |rules| > 3 && rules'[..|rules| - 1] == rules[..|rules| - 1]
    requires var r, r' := rules[|rules| - 1], rules'[|rules| - 1];
             !r.lhs.Gensym? && r'.lhs == r.lhs && forall x :: x in r'.rhs ==> x in r.rhs || x in buckets
    ensures RulesOk(rules', buckets, gensym)
  {
    hide HasEmptyRule, RuleFor;
    assert forall k :: 3 <= k < |rules| - 1 ==> rules'[k] == rules'[..|rules| - 1][k] == rules[k];
    assert forall k :: 3 <= k < |rules| ==> rules'[k].lhs == rules[k].lhs;
    forall k | 3 <= k < |rules|
      ensures RuleOk(rules'[k], buckets)
    {
      assert RuleOk(rules[k], buckets);
    }
    forall n: nat | 1 <= n <= gensym
      ensures HasEmptyRule(rules', n)
    {
      StillHasEmptyRule(rules, rules', n);
    }
    forall x | RuleFor(rules, x)
      ensures RuleFor(rules', x)
    {
      StillHasRule(rules, rules', x);
    }
  }

  lemma StillHasRule(rules: seq<SymRule>, rules': seq<SymRule>, x: Sym)
    requires RuleFor(rules, x) && |rules| <= |rules'| && forall k :: 3 <= k < |rules| ==> rules'[k].lhs == rules[k].lhs
    ensures RuleFor(rules', x)
  {
    var k :| 3 <= k < |rules| && rules[k].lhs == x;
    assert rules'[k].lhs == x;
  }

  lemma {:induction false} SomethingStripped(rules: seq<SymRule>)
    requires |rules| > 3 && !rules[|rules| - 1].lhs.Gensym?
    ensures Stripped(rules) != [] && Stripped(rules)[|Stripped(rules)| - 1] == rules[|rules| - 1].(rhs := Bare(rules[|rules| - 1].rhs))
    ensures Stripped(rules)[..|Stripped(rules)| - 1] == Stripped(rules[..|rules| - 1])
  {
  }

  /** A made-up symbol with its empty rule leaves no trace. */
  lemma {:induction false} StrippedInsert(rules: seq<SymRule>, n: nat)
    requires |rules| > 3 && !rules[|rules| - 1].lhs.Gensym?
    ensures Stripped(WithEmptyRule(rules, n)) == Stripped(rules)
  {
    hide Stripped, Strip;
    var done, cur := rules[..|rules| - 1], rules[|rules| - 1];
    var empty := SymRule(Gensym(n), [], 0, TOKEN);
    StrippedStep(done, cur);
    StrippedStep(done, empty);
    StrippedStep(done + [empty], cur.(rhs := cur.rhs + [Gensym(n)]));
    assert rules == done + [cur];
    StripGensym(cur, n);
  }

  lemma {:induction false} StripGensym(r: SymRule, n: nat)
    ensures Strip(SymRule(Gensym(n), [], 0, TOKEN)) == []
    ensures Strip(r.(rhs := r.rhs + [Gensym(n)])) == Strip(r)
  {
    var q := r.rhs + [Gensym(n)];
    assert q[..|q| - 1] == r.rhs && q[|q| - 1] == Gensym(n);
    assert Bare(q) == Bare(r.rhs) + [] == Bare(r.rhs);
    var r' := r.(rhs := q);
    assert r'.(rhs := Bare(q)) == r.(rhs := Bare(r.rhs));
  }

  lemma {:induction false} StrippedStep(rules: seq<SymRule>, r: SymRule)
    requires |rules| >= 3
    ensures Stripped(rules + [r]) == Stripped(rules) + Strip(r)
  {
    assert (rules + [r])[..|rules|] == rules;
  }

  lemma {:induction false} StrippedLast(rules: seq<SymRule>, x: Sym)
    requires |rules| > 3 && !rules[|rules| - 1].lhs.Gensym? && !x.Gensym?
    ensures var last := rules[|rules| - 1];
            Stripped(rules) != [] && Stripped(WithLast(rules, last.(rhs := last.rhs + [x]))) == Grow(Stripped(rules), Use(x), map[])
  {
    var last := rules[|rules| - 1];
    var rules' := WithLast(rules, last.(rhs := last.rhs + [x]));
    assert rules'[..|rules'| - 1] == rules[..|rules| - 1];
    assert (last.rhs + [x])[..|last.rhs|] == last.rhs;
    SomethingStripped(rules);
  }

  // The symbols of the open rule move up by one place, down to the 0 before them, and bp goes behind them.
  method ShiftUp(a: array<Option<Sym>>, n: nat, bp: Sym, ghost done: seq<Option<Sym>>, ghost cur: seq<Option<Sym>>)
    requires n + 2 <= a.Length && a[..n] == done + cur && done != [] && done[|done| - 1] == None
    requires forall i :: 0 <= i < |cur| ==> cur[i].Some?
    modifies a
    ensures a[..n + 2] == done + [None] + cur + [Some(bp)]
  {
    ghost var items := a[..n];
    assert forall h :: 0 <= h < n ==> a[h] == items[h];
    a[n + 1] := Some(bp);
    var bpp := n;
    a[bpp] := a[bpp - 1];
    while a[bpp].Some?
      invariant |done| <= bpp <= n
      invariant forall h :: 0 <= h < bpp ==> a[h] == items[h]
      invariant a[bpp] == items[bpp - 1]
      invariant forall h :: bpp < h <= n ==> a[h] == items[h - 1]
      invariant a[n + 1] == Some(bp)
      decreases bpp
    {
      bpp := bpp - 1;
      a[bpp] := a[bpp - 1];
    }
    assert forall h :: |done| <= h < n ==> items[h] == cur[h - |done|];
  }

  lemma AllSome(q: seq<Sym>)
    ensures |Somes(q)| == |q| && forall i :: 0 <= i < |q| ==> Somes(q)[i].Some?
  {
  }

  // The open rule is preceded by an empty rule for the made-up symbol n, which ends its right-hand side.
  function WithEmptyRule(rules: seq<SymRule>, n: nat): seq<SymRule>
    requires rules != []
  {
    var cur := rules[|rules| - 1];
    rules[..|rules| - 1] + [SymRule(Gensym(n), [], 0, TOKEN)] + [cur.(rhs := cur.rhs + [Gensym(n)])]
  }

  lemma LayoutEnd(rules: seq<SymRule>)
    ensures |Layout(rules)| >= 4 && Layout(rules)[|Layout(rules)| - 1] == None
  {
  }

  lemma LayoutStep(rules: seq<SymRule>)
    requires |rules| > 3
    ensures Layout(rules) == Layout(rules[..|rules| - 1]) + Somes(rules[|rules| - 1].rhs) + [None]
  {
  }

  lemma InsertedLayout(rules: seq<SymRule>, n: nat)
    requires |rules| > 3
    ensures var rules' := WithEmptyRule(rules, n); var k := |rules| - 1;
            && Layout(rules'[..k + 1]) == Layout(rules[..k]) + [None]
            && Somes(rules'[k + 1].rhs) == Somes(rules[k].rhs) + [Some(Gensym(n))]
  {
    var rules', k := WithEmptyRule(rules, n), |rules| - 1;
    LayoutStep(rules'[..k + 1]);
    assert rules'[..k + 1][..k] == rules[..k];
  }

  lemma StartedRule(list: seq<Sym>, buckets: map<Sym, Bucket>, rules: seq<SymRule>, gensym: nat, bp: Sym)
    requires RulesOk(rules, buckets, gensym) && TableOk(list, buckets, gensym) && bp in buckets && !bp.Gensym? && buckets[bp].cls != Term
    ensures var rules', buckets' := rules + [SymRule(bp, [], UNDEFINED, TOKEN)], buckets[bp := buckets[bp].(cls := Nonterm)];
            |rules| >= 3 ==> RulesOk(rules', buckets', gensym) && TableOk(list, buckets', gensym)
  {
    hide HasEmptyRule;
    var rules', buckets' := rules + [SymRule(bp, [], UNDEFINED, TOKEN)], buckets[bp := buckets[bp].(cls := Nonterm)];
    forall n: nat | 1 <= n <= gensym
      ensures HasEmptyRule(rules', n)
    {
      StillHasEmptyRule(rules, rules', n);
    }
    forall k | 3 <= k < |rules'|
      ensures RuleOk(rules'[k], buckets')
    {
      assert k < |rules| ==> RuleOk(rules[k], buckets);
    }
    assert rules'[|rules|].lhs == bp;
    forall x | RuleFor(rules, x)
      ensures RuleFor(rules', x)
    {
      StillHasRule(rules, rules', x);
    }
  }

  lemma StillHasEmptyRule(rules: seq<SymRule>, rules': seq<SymRule>, n: nat)
    requires HasEmptyRule(rules, n) && |rules| <= |rules'| && forall k :: 3 <= k < |rules| ==> rules'[k].lhs == rules[k].lhs || !rules[k].lhs.Gensym?
    ensures HasEmptyRule(rules', n)
  {
    var k :| 3 <= k < |rules| && rules[k].lhs == Gensym(n);
    assert rules'[k].lhs == Gensym(n);
  }

  lemma InsertedRule(list: seq<Sym>, buckets: map<Sym, Bucket>, rules: seq<SymRule>, gensym: nat)
    requires RulesOk(rules, buckets, gensym) && TableOk(list, buckets, gensym) && |rules| > 3 && !rules[|rules| - 1].lhs.Gensym?
    ensures var rules', bp := WithEmptyRule(rules, gensym + 1), Gensym(gensym + 1);
            var buckets' := buckets[bp := Bucket(Nonterm, UNDEFINED, 0, TOKEN)];
            RulesOk(rules', buckets', gensym + 1) && TableOk(list + [bp], buckets', gensym + 1)
  {
    var rules', bp := WithEmptyRule(rules, gensym + 1), Gensym(gensym + 1);
    var buckets' := buckets[bp := Bucket(Nonterm, UNDEFINED, 0, TOKEN)];
    InsertedRules(buckets, buckets', rules, rules', gensym);
    InsertedTable(list, buckets, gensym);
  }

  lemma InsertedTable(list: seq<Sym>, buckets: map<Sym, Bucket>, gensym: nat)
    requires TableOk(list, buckets, gensym)
    ensures var bp := Gensym(gensym + 1); TableOk(list + [bp], buckets[bp := Bucket(Nonterm, UNDEFINED, 0, TOKEN)], gensym + 1)
  {
    assert Gensym(gensym + 1) !in list;
  }

  lemma InsertedRules(buckets: map<Sym, Bucket>, buckets': map<Sym, Bucket>, rules: seq<SymRule>, rules': seq<SymRule>, gensym: nat)
    requires RulesOk(rules, buckets, gensym) && |rules| > 3 && !rules[|rules| - 1].lhs.Gensym?
    requires rules' == WithEmptyRule(rules, gensym + 1) && buckets' == buckets[Gensym(gensym + 1) := Bucket(Nonterm, UNDEFINED, 0, TOKEN)]
    ensures RulesOk(rules', buckets', gensym + 1)
  {
    hide HasEmptyRule;
    var n := |rules| - 1;
    forall k | 3 <= k < |rules'|
      ensures RuleOk(rules'[k], buckets')
    {
      assert k < n ==> rules'[k] == rules[k] && RuleOk(rules[k], buckets);
      assert RuleOk(rules[n], buckets);
    }
    forall m: nat | 1 <= m <= gensym + 1
      ensures HasEmptyRule(rules', m)
    {
      if m <= gensym {
        StillHasEmptyRule(rules, rules', m);
      } else {
        HasItNow(rules', n, m);
      }
    }
    forall x | x in buckets' && buckets'[x].cls == Nonterm
      ensures RuleFor(rules', x)
    {
      InsertedHas(rules, gensym + 1, x);
    }
  }

  lemma InsertedHas(rules: seq<SymRule>, n: nat, x: Sym)
    requires |rules| > 3
    ensures RuleFor(rules, x) || x == Gensym(n) ==> RuleFor(WithEmptyRule(rules, n), x)
  {
    var rules' := WithEmptyRule(rules, n);
    assert rules'[|rules| - 1].lhs == Gensym(n) && rules'[|rules|].lhs == rules[|rules| - 1].lhs;
    if RuleFor(rules, x) {
      var k :| 3 <= k < |rules| && rules[k].lhs == x;
      assert k < |rules| - 1 ==> rules'[k].lhs == x;
    }
  }

  lemma HasItNow(rules: seq<SymRule>, k: nat, n: nat)
    requires 3 <= k < |rules| && rules[k].lhs == Gensym(n)
    ensures HasEmptyRule(rules, n)
  {
  }

  // The left-hand side of some rule is a token.
  ghost predicate TokenLhs(first: Sym, events: seq<Event>, declared: map<Sym, Bucket>) {
    IsTokenBy(declared, first) || exists i :: 0 <= i < |events| && events[i].NewRule? && IsTokenBy(declared, events[i].x)
  }

  /** advance_to_start and read_grammar: the rules that the reader ends up with, stripped of made-up symbols,
      are the rules as they are written, without actions. It gives up if some left-hand side is a token. */
  method ReadGrammar(list: seq<Sym>, buckets: map<Sym, Bucket>, first: Sym, events: seq<Event>) returns (r: GrammarReader, ok: bool)
    requires TableOk(list, buckets, 0) && PrecsKept(buckets, buckets) && !first.Gensym? && forall e :: e in events ==> ValidEvent(e)
    ensures fresh(r) && fresh(r.pitem) && fresh(r.heads)
    ensures ok <==> !TokenLhs(first, events, buckets)
    ensures ok ==> r.Closed() && r.Sound(buckets) && Stripped(r.rules) == SourceOf(first, events, buckets)
  {
    hide RulesOk, TableOk, Layout, PrecsKept, Stripped, HeadsAre, SourceOf, Grow, TokenLhs, IsTokenBy;
    NothingDefined(buckets);
    r := new GrammarReader(list, buckets);
    StartSound(r, buckets);
    r.LookUp(first, buckets);
    ghost var buckets0 := r.buckets;
    NoEvents(first, buckets, events);
    ok := r.StartRule(first);
    if !ok {
      return;
    }
    PrecsClass(buckets0, buckets, first);
    StrippedFirst(r.rules, first);
    var i := 0;
    while i < |events|
      invariant 0 <= i <= |events| && r.Open() && r.Sound(buckets) && ok
      invariant fresh(r) && fresh(r.pitem) && fresh(r.heads)
      invariant Stripped(r.rules) == SourceOf(first, events[..i], buckets) && !TokenLhs(first, events[..i], buckets)
    {
      assert events[i] in events;
      NextEvent(first, buckets, events, i);
      ok := r.TakeEvent(events[i], buckets);
      if !ok {
        return;
      }
      i := i + 1;
    }
    assert events[..i] == events;
    r.EndRule();
  }

  lemma NothingDefined(declared: map<Sym, Bucket>)
    requires PrecsKept(declared, declared)
    ensures forall x :: x in declared ==> declared[x].cls != Nonterm
  {
  }

  lemma NoEvents(first: Sym, declared: map<Sym, Bucket>, events: seq<Event>)
    ensures SourceOf(first, events[..0], declared) == [SymRule(first, [], UNDEFINED, TOKEN)]
    ensures TokenLhs(first, events[..0], declared) <==> IsTokenBy(declared, first)
    ensures IsTokenBy(declared, first) ==> TokenLhs(first, events, declared)
  {
  }

  lemma {:induction false} NextEvent(first: Sym, declared: map<Sym, Bucket>, events: seq<Event>, i: nat)
    requires i < |events|
    ensures SourceOf(first, events[..i + 1], declared) == Grow(SourceOf(first, events[..i], declared), events[i], declared)
    ensures events[i].NewRule? && IsTokenBy(declared, events[i].x) ==> TokenLhs(first, events, declared)
    ensures TokenLhs(first, events[..i + 1], declared) <==>
            TokenLhs(first, events[..i], declared) || (events[i].NewRule? && IsTokenBy(declared, events[i].x))
  {
    hide Grow, IsTokenBy;
    var before := events[..i];
    assert events[..i + 1] == before + [events[i]];
    assert (before + [events[i]])[..i] == before;
    if TokenLhs(first, before, declared) && !IsTokenBy(declared, first) {
      var j :| 0 <= j < i && before[j].NewRule? && IsTokenBy(declared, before[j].x);
      assert (before + [events[i]])[j] == before[j];
    }
    assert (before + [events[i]])[i] == events[i];
  }

  lemma StartSound(r: GrammarReader, declared: map<Sym, Bucket>)
    requires r.Closed() && r.buckets == declared && r.gensym == 0 && PrecsKept(declared, declared)
    ensures r.Sound(declared)
  {
  }

  lemma {:induction false} StrippedFirst(rules: seq<SymRule>, first: Sym)
    requires |rules| == 4 && rules[3] == SymRule(first, [], UNDEFINED, TOKEN) && !first.Gensym?
    ensures Stripped(rules) == [rules[3]]
  {
    assert Stripped(rules[..3]) == [];
  }
}
