# c-xrefactory: the parser generator, the data flow of "extract function", and three smaller cores

This project models the algorithmic cores of c-xrefactory in Dafny and proves what they are for. The code under
`byacc-1.9` and `src` works by changing things step by step, so most operations are methods over arrays, bit rows and
objects, each proved against a specification; what the specification is worth is then proved as lemmas.

**The parser generator** (`byacc-1.9`). A grammar file is a list of symbols, actions and rule boundaries. It becomes a
packed grammar (`Reader`, `Pack`, `Productions`), an LR(0) automaton (`Nullable`, `Warshall`, `Closure`, `Lr0`), goto
numbers (`Gotos`), look-ahead sets (`Digraph`, `Lalr`, `Lookaheads`), action lists with conflicts resolved (`Mkpar`),
and printed tables (`Packing`, `Output`), which the emitted parser interprets (`Driver`, `Yyparse`). `Contexts` proves
that the look-ahead sets are those of the LALR(1) method in terms of sentential forms. `Soundness` and `Completeness`
prove what the parser accepts from what the tables promise; `Generator` and `Compiler` compose the stages, and
`ParseTrees` says which tree a generated parser goes through, and how precedence shapes it; `Chains` and `Halting` say
when it comes to an end. The two end-to-end statements are `Generator.Generate`, from the packed grammar, and
`Compiler.Compile`, from the rules of the grammar file: whatever the conflicts, a generated parser never leaves its
tables or its stack, overflows only when the stack is full, and accepts only what the grammar derives; and without
precedences and reported conflicts it accepts exactly that, up to the size of its stack, and reports a syntax error for
none of it, for the grammar as it was written, actions and all. `Halting.GeneratedDecides` adds that it
then always ends, if the goal does not become itself.

**The data flow behind "extract function"** (`src/extract.c`). `Dataflow` says what every control path carries to a node;
`Extract` proves that the recursive traversal ends and computes just that union over all paths, and that the
classification built on it passes enough, and at most one result.

**Three smaller cores.** The bounded include closure and the freshness verdict (`IncludeGraph`, `Freshness`); editor
buffers with markers in a doubly linked list and undo records (`Editor`, `EditorBuffers`); and the delta-coded snapshot
of references with its character stream, from the tables of one session to those of the next (`CharacterReader`,
`Records`, `Cxfile`, `Loading`).

Conventions. `Valid(g)` describes the packed arrays `ritem`, `rlhs` and `rrhs`; it is not an assumption about the user's
grammar, since `Pack.PackGrammar` establishes it for everything that the reader accepts. `Derives` is the existence of a
parse tree. `Canonical` says that an automaton is the canonical LR(0) collection. `Trans` is a transition. `Find(from, to,
c)` is the entry of a vector for column c.

Three results go against what one would expect of the code. An expression with an operator declared `%nonassoc` twice in
a row is not always refused by a generated parser (`Mkpar.NonassocByDefault`, and `Generator.PrecedenceDecides` for when
exactly it is). A grammar whose goal becomes itself is not reported to have a conflict, but its parser may run for ever
(`Halting.Overrun`, and `Halting.ParserHalts` for all others). And an empty block move between two buffers can leave an
undo record that cannot be replayed (`Editor.EmptyMoveStays`, and `Editor.ChangesUndone` for when exactly).

## Model

| member | source | states |
|---|---|---|
| Warshall.ClosureExact | byacc-1.9/warshall.c:5-52 | A graph between e and what e reaches, closed under absorbing all its rows, holds exactly the pairs that e connects by at least one edge. |
| Warshall.AbsorbCloses | byacc-1.9/warshall.c:14-50 | Absorbing row i wherever column i is set keeps the graph closed through the columns before i and closes it through i. |
| Warshall.TransitiveClosure | byacc-1.9/warshall.c:5-52 | In place on packed bit rows, row i ends with exactly the j that the old graph reaches from i by one edge or more. |
| Warshall.ReflexiveTransitiveClosure | byacc-1.9/warshall.c:55-80 | Row i ends with exactly the j that the old graph reaches from i by any path. |
| Nullables.SetNullable | byacc-1.9/lr0.c:544-590 | The iteration ends, and nullable[x] is set exactly for the symbols that derive the empty string. |
| Nullables.RuleIsNullable | byacc-1.9/lr0.c:557-580 | A rule whose symbols are all marked derives the empty string, so marking its left-hand side is right. |
| Nullables.EmptyTreeIn | byacc-1.9/lr0.c:544-590 | Once a pass changes nothing, every tree with an empty yield has a marked root: the fixed point misses no symbol. |
| Closures.SetDerives | byacc-1.9/lr0.c:485-513 | For each variable, the list of its rules, in order and complete. |
| Closures.SetEFF | byacc-1.9/closure.c:13-47 | Row v of EFF is the reflexive and transitive left-corner relation of variable v. |
| Closures.SetFirstDerives | byacc-1.9/closure.c:49-102 | Row v of first_derives holds exactly the rules of all variables that v reaches along left corners. |
| Closures.ClosureIsLeast | byacc-1.9/closure.c:104-168 | The specified closure is closed under "a dot before A adds every rule start of A", and is contained in every closed set that holds the kernel. |
| Closures.Closure | byacc-1.9/closure.c:104-168 | The item list is strictly increasing and holds exactly the items of the specified closure of the nucleus. |
| Lr0.NewItemsets | byacc-1.9/lr0.c:253-285 | For each symbol behind a dot of the closure, the kernel of advanced items, and the list of these symbols, each once. |
| Lr0.SortSymbols | byacc-1.9/lr0.c:94-120 | The in-place insertion sort: the same symbols, strictly increasing. |
| Lr0.Generator.GetState | byacc-1.9/lr0.c:163-223 | The number of the state with this kernel, found in its hash chain or new; kernels stay pairwise different; failure only if there are more than MAXSHORT states. |
| Lr0.Generator.AppendStates | byacc-1.9/lr0.c:94-120 | The shifts of a state: one successor for every symbol after a dot, its kernel the advanced items, ordered by symbol and so tokens first. |
| Lr0.SaveReductions | byacc-1.9/lr0.c:436-482 | The reductions of a state are exactly the rules with a complete item in its closure, in increasing order. |
| Lr0.GenerateStates | byacc-1.9/lr0.c:136-160 | The worklist ends with the canonical LR(0) collection: kernels sorted and pairwise different, every state reached from state 0, transitions and reductions exact. It gives up only on a grammar with more than MAXSHORT different states. |
| Automata.TransUnique | byacc-1.9/lr0.c:402-433 | A canonical automaton is deterministic: a state and a symbol have at most one successor. |
| Automata.Advanced | byacc-1.9/lr0.c:253-285 | Every item with a symbol behind its dot has a transition on that symbol, into a state that holds the advanced item. |
| Automata.CameOver | byacc-1.9/lr0.c:253-285 | Whichever transition enters a state with an item whose dot is not at the start, its source holds the item with the dot one back, before the symbol of the transition. |
| Automata.NeverCompletesAccept | byacc-1.9/lr0.c:436-482 | No state ever completes the $accept rule: its $end is never shifted inside the automaton. |
| Gotos.SetGotoMap | byacc-1.9/lalr.c:185-251 | The nonterminal transitions are put in buckets by symbol, within a bucket in strictly increasing order of source state; None exactly if there are more than MAXSHORT. |
| Gotos.GotoOfTrans | byacc-1.9/lalr.c:185-251 | Every nonterminal transition has a goto number in the bucket of its symbol. |
| Gotos.MapGoto | byacc-1.9/lalr.c:254-277 | The binary search finds the goto of every existing transition, although its upper bound lies one past the bucket, and looks at nothing outside the map. |
| Digraph.Traversal.PopComponent | byacc-1.9/lalr.c:632-647 | Popping VERTICES down to i gives every member of the strongly connected component the row of i and the index infinity, and leaves what is below alone. |
| Digraph.Traversal.Traverse | byacc-1.9/lalr.c:596-649 | The traversal of one vertex ends and keeps the stack invariant: INDEX grows along VERTICES, finished vertices have their final rows, and rows on the stack hold only what is reached. |
| Digraph.Digraph | byacc-1.9/lalr.c:570-593 | F[i] ends as the union of the old F[j] over all j that the relation reaches from i, i included. |
| Digraph.SpreadIsLeastSolution | byacc-1.9/lalr.c:570-649 | That union is the least solution of F(i) ⊇ F0(i) and F(i) ⊇ F(j) for every edge from i to j: it is one, and it is contained in every other. |
| Lalr.InitializeF | byacc-1.9/lalr.c:280-354 | F holds the Read sets: over all gotos that goto i reads its way to, the tokens shifted there, and $end at goto 0. |
| Lookaheads.GoalGoto | byacc-1.9/lalr.c:280-354 | Goto 0, which is seeded with $end, is the transition of state 0 on the goal. |
| Lalr.RuleEdges | byacc-1.9/lalr.c:387-423 | Walking back over a rule from its end adds exactly the gotos that goto i is included in by this rule: those before a variable with a nullable rest. |
| Lalr.AddLookbackEdge | byacc-1.9/lalr.c:449-472 | The search finds the row of (state, rule), and the lookback lists then hold the new goto and what they held. |
| Lalr.Transpose | byacc-1.9/lalr.c:475-527 | The edges of R, each reversed. |
| Lalr.BuildRelations | byacc-1.9/lalr.c:357-446 | The includes relation of DeRemer and Pennello as edge lists, and for every (state, complete rule) exactly the gotos it looks back to. |
| Lalr.ComputeLookaheads | byacc-1.9/lalr.c:536-567 | Token t is in a row of LA exactly if it is in the row of F of some goto in that row's lookback list. |
| Lalr.ComputeLalr | byacc-1.9/lalr.c:57-73 | As long as ngotos + 2 fits a short, LA for (state q, complete rule r) holds token k exactly if some u leads from state 0 to a state from which the right-hand side of r leads to q, and the left-hand side of r comes after u and before k (or, for $end, last) in a sentential form of the goal in which nothing left of it is expanded. These are also the unions over lookback of Follow, where Follow spreads Read over includes and Read spreads the directly shiftable tokens over reads. |
| Contexts.ItemsStand | byacc-1.9/lr0.c:136-160 | Every item of a state is valid for each string of symbols that leads from state 0 to it: the string ends in what stands before its dot, and what comes before that can stand before the left-hand side in a sentential form. |
| Contexts.LaAnticipates | byacc-1.9/lalr.c:536-567 | Nothing is in a look-ahead set without reason: for each token in it there is a sentential form of the goal with the left-hand side of the rule before the token, after a string that leads to this state. |
| Contexts.AnticipatedInLa | byacc-1.9/lalr.c:536-567 | Nothing is missing either: a token that comes after the left-hand side in such a sentential form is in the look-ahead set. |
| Contexts.LaExact | byacc-1.9/lalr.c:57-73 | The look-ahead set of the DeRemer-Pennello relations is the LALR(1) look-ahead set, token by token: if and only if. |
| Lookaheads.ReadLooksClosed | byacc-1.9/lalr.c:280-354 | The Read sets hold every token that can be read after a transition, also through nullable transitions. |
| Lookaheads.FollowLooksClosed | byacc-1.9/lalr.c:357-446 | The Follow sets hold what they must for parsing: $end after the goal, and along every rule what follows its left-hand side once the rest is nullable. |
| Mkpar.GetShifts | byacc-1.9/mkpar.c:60-91 | Exactly the shifts of the state on tokens, with the precedence of the token, ordered by symbol. |
| Mkpar.AddReduce | byacc-1.9/mkpar.c:116-151 | One reduction more, and the list stays ordered by symbol, shift before reduce, then rule. |
| Mkpar.ParseActions | byacc-1.9/mkpar.c:50-113 | The ordered list of a state holds exactly its token shifts and, for every complete rule, one reduction for each look-ahead token. |
| Mkpar.RemoveConflicts | byacc-1.9/mkpar.c:204-276 | An entry stays unsuppressed exactly if it is the one that the conflict rules keep for its symbol: the shift unless a reduction of higher or left-associative equal precedence beats it, the first such reduction, or the earliest rule. The counts are those of the entries in a shift/reduce conflict (a reduction met while an undecided shift, or acceptance, stands for its symbol) and in a reduce/reduce conflict, and their sum that of the entries marked 1. |
| Mkpar.PairResolved | byacc-1.9/mkpar.c:231-263 | Of a shift and a reduction alone on one token, both with a precedence, the one of higher precedence stays; at equal precedence the reduction for LEFT, the shift for RIGHT, and otherwise neither. If one of them has none, the shift stays, and exactly then a shift/reduce conflict is counted. |
| Mkpar.ReductionStays | byacc-1.9/mkpar.c:204-276 | Any number of entries on one token: without a shift the first reduction stays alone; with one, a reduction stays exactly if it is the first that has a higher precedence, or the same for LEFT. |
| Mkpar.ShiftStays | byacc-1.9/mkpar.c:204-276 | The shift stays exactly if each reduction on the token has a lower precedence, or the same for RIGHT, or one of the two has none. |
| Mkpar.ReductionsResolved | byacc-1.9/mkpar.c:226-269 | Of two reductions alone on one token, that by the earlier rule stays, and a reduce/reduce conflict is counted, or a shift/reduce conflict for $end in the final state. |
| Mkpar.NonassocByDefault | byacc-1.9/mkpar.c:299-323 | The concrete list of the state after E < E with a token that does not associate: both entries for the token go, but what is left reduces by one rule, which so becomes the default, and is done on that token as well. |
| Mkpar.KeptOnce | byacc-1.9/mkpar.c:204-276 | At most one entry for a symbol is kept. |
| Mkpar.SoleReduction | byacc-1.9/mkpar.c:299-323 | The default rule is nonzero exactly if all unsuppressed entries reduce by that rule, one of them on a token other than `error`. |
| Mkpar.FindFinalState | byacc-1.9/mkpar.c:154-168 | The final state is the successor of state 0 on the goal. |
| Mkpar.MakeParser | byacc-1.9/mkpar.c:34-47 | For every state its ordered list, resolved, and its default reduction; the totals are those of the two kinds of conflicts over all states and add up to the entries marked 1, and without precedences there are no other suppressed entries. |
| Mkpar.NoConflicts | byacc-1.9/mkpar.c:279-296 | Without precedences and without counted conflicts, nothing is suppressed. |
| Output.FillActionRow | byacc-1.9/output.c:251-271 | The two halves of the row hold the kept shifts, and the kept reductions other than the default one; the counts are those of the entries set. |
| Output.TokenActions | byacc-1.9/output.c:238-320 | Two vectors for each state: a lookup of a token's code finds its kept shift, or its kept reduction other than the default one, and nothing else. |
| Output.DefaultGoto | byacc-1.9/output.c:354-386 | The state that most gotos of the variable lead to, the least of these if several. |
| Output.SaveColumn | byacc-1.9/output.c:389-427 | The column holds exactly the gotos of the variable that do not lead to the default state. |
| Output.GotoActions | byacc-1.9/output.c:322-352 | For every variable a default and a column, between them exactly its transitions. |
| Packing.SortActions | byacc-1.9/output.c:429-477 | The order lists exactly the vectors with entries, each once, by falling width and then falling tally. |
| Packing.MatchingVector | byacc-1.9/output.c:480-516 | A result of at least 0 is an earlier vector with the same entries; for a row, -1 says that there is none; columns are never matched. |
| Packing.Packer.FindPlace | byacc-1.9/output.c:519-567 | The search ends with the least place, other than 0 and than those already used, where all slots of the vector are free; or it would have to go beyond MAXTABLE. |
| Packing.Packer.PackVector | byacc-1.9/output.c:519-592 | The vector is added at the first place that is clear of those before it; earlier vectors keep their slots, every slot in use belongs to a placed vector, and places are shared only by identical vectors. If it fails, packing is stuck in the table as it then is. |
| Packing.Packer.PackTable | byacc-1.9/output.c:595-638 | Every vector is placed in turn, a repeated row where it was before and any other vector at the first clear place, and has its base. It fails only if, with the vectors before placed that way in a table of at least 1000 slots, the next vector has no clear place before one where an entry would lie behind MAXTABLE, or no slot is left for the scan for lowzero. |
| Packing.Lossless | byacc-1.9/output.c:480-638 | A lookup through base, table and check finds exactly the entries of the vector, for every vector and every column: no entry is lost, and no other vector's entry is hit. |
| Output.KeptApart | byacc-1.9/output.c:238-320 | The kept entries of a resolved list can be printed without collision: shifts are transitions of the automaton on tokens other than $end, reductions complete rules of the grammar. |
| Output.OutputTables | byacc-1.9/output.c:136-235 | yylhs, yylen, yydefred, yydgoto and the three index tables are what the parser needs, each index finding just the entries of its own vector; without tables, packing the vectors of this very parser was stuck in that sense. |
| Generator.ShiftChosen | byacc-1.9/skeleton.c:108-143 | Every kept shift is what yydefred, yysindex and yyrindex make the driver do in that state on that token. |
| Generator.ReduceChosen | byacc-1.9/skeleton.c:108-148 | Every kept reduction is what the driver does in that state on that token, by default or through yyrindex. |
| Generator.NothingChosen | byacc-1.9/skeleton.c:125-151 | Where no entry is kept for a token, both lookups miss. |
| Generator.ShiftTurn | byacc-1.9/skeleton.c:125-143 | A turn of the driver on a token with a kept shift pushes its state and consumes the token, or overflows, exactly if the stack is full. |
| Generator.ReduceTurn | byacc-1.9/skeleton.c:108-148 | A turn on a token with a kept reduction reduces by its rule. |
| Generator.IdleTurn | byacc-1.9/skeleton.c:108-153 | A turn on a token without a kept entry is a syntax error if and only if the kept entries of the state are not all reductions by one rule; if they are, it reduces by that rule. |
| Generator.PrecedenceDecides | byacc-1.9/mkpar.c:231-263 | In a turn of the generated parser where a shift and one reduction are possible, literal comparison of the precedences of token and rule, and the associativity of the token, decide between the shift, the reduction and a syntax error; that a token which does not associate is an error holds exactly if the state has no default reduction. |
| Generator.GotoChosen | byacc-1.9/skeleton.c:259-263 | For every transition on a variable, yygindex with the yydgoto default gives its target state. |
| Generator.TablesFaithful | byacc-1.9/output.c:210-235 | The printed tables name only transitions and completed rules of the automaton, whatever the conflicts. |
| Generator.TablesDecide | byacc-1.9/output.c:210-235 | If nothing is suppressed, the tables make the driver do every shift of the automaton and every reduction that the look-ahead sets allow. |
| Soundness.ReduceFinds | byacc-1.9/skeleton.c:210-263 | Where the tables reduce, the right-hand side of the rule is on top of the stack as trees, with a state below it that has a transition on the left-hand side. |
| Soundness.StepGood | byacc-1.9/skeleton.c:108-282 | One turn keeps the invariant: the state stack is a path of the automaton over trees whose yields, followed by what is unread, are the input; acceptance means that the goal derives it. |
| Soundness.ParserSound | byacc-1.9/skeleton.c:100-282 | For every input, stack size and number of turns the parser never reads outside its tables or below its stack, and never makes the stack longer than it may be; it overflows only if the stack was full on the way; and if it accepts, the goal derives the input. |
| Soundness.OverflowWasFull | byacc-1.9/skeleton.c:133-136 | For all tables: a run that ends in an overflow has come through a configuration whose stack held at least as many states as it may. |
| Yyparse.Yyparse | byacc-1.9/skeleton.c:100-282 | The loop over an array stack does exactly the steps of the specified run, without any access outside the tables or the stack. |
| Completeness.ReadFirst | byacc-1.9/lalr.c:280-354 | If a tree that can stand behind a transition begins with a token, this token is in the Read set of the transition. |
| Completeness.SimTree | byacc-1.9/skeleton.c:108-282 | Standing before a tree that its state can go over and that what follows allows, the parser consumes the yield of the tree and ends in the successor state, with one state more on its stack. |
| Completeness.ParserComplete | byacc-1.9/skeleton.c:100-282 | Tables that decide every action of closed look-ahead sets accept every derived input on every stack that is large enough. |
| Completeness.ParserCorrect | byacc-1.9/skeleton.c:100-282 | Such a parser accepts an input, given stack enough, if and only if the goal derives it. |
| Completeness.ErrorsAreRight | byacc-1.9/skeleton.c:100-282 | Tables that decide every action never report a syntax error for an input that the goal derives, on a stack of any size. |
| Generator.GeneratedSound | byacc-1.9/main.c:378-382 | End to end, for any precedences and conflicts: all runs of a generated parser are safe, an overflow only happens on a full stack, and what it accepts the goal derives. |
| Generator.GeneratedExact | byacc-1.9/main.c:378-382 | End to end, if nothing is suppressed: some stack lets the generated parser accept an input if and only if the goal derives it, and then it reports a syntax error on no stack. |
| Generator.EndsRight | byacc-1.9/skeleton.c:100-282 | With such a parser, a run that ends without ever having filled its stack ends with the right verdict: accepted if the goal derives the input, and a syntax error if not. |
| Generator.Generate | byacc-1.9/main.c:378-382 | Running all stages gives a sound parser, and an exact one if there are no precedences and the reported conflicts, which are those of its lists, are zero; such a parser reports no syntax error for what the goal derives. Any failure is due to this grammar: more states or gotos than can be numbered, or vectors of its own parser that cannot be packed. |
| ParseTrees.TurnParsed | byacc-1.9/skeleton.c:108-282 | A turn keeps this: the trees that shifts and reductions have built stand for the input consumed, and each was built as the tables say, every leaf shifted and every node reduced on what comes next. |
| ParseTrees.ParseTree | byacc-1.9/skeleton.c:100-282 | Whatever the conflicts, the reductions of an accepting run build exactly one tree, a parse tree of the input with the goal as its root. |
| ParseTrees.OperatorsGroup | byacc-1.9/mkpar.c:231-263 | How precedence groups operators in the tree of every accepted input. If a rule that ends in its left-hand side goes before an operator (higher precedence, or equal and LEFT), no expression with that operator is its right operand: with one left-associative operator, only left-nested trees. If the operator goes first (higher, equal and RIGHT, or one without precedence), no expression of the rule is the left operand of one with the operator. |
| Chains.ChainRuns | byacc-1.9/skeleton.c:210-263 | Where rules with only empty symbols behind their first lead from x to y, the parser with x on top, before a token that may follow y, makes just these reductions, uses up nothing, and has y there instead. |
| Chains.ContextPasses | byacc-1.9/skeleton.c:100-282 | From any leaf of a sentential form of the goal with nothing expanded to its left, and a token behind it, the parser comes to shift this token, even if what follows the token derives no string; with nothing behind it, it accepts. |
| Chains.NoChainRound | byacc-1.9/mkpar.c:204-276 | Where the tables decide every action, no variable but the goal that occurs in a sentential form before a token or at the end becomes itself by a chain of rules: such a grammar has a counted conflict. |
| Halting.EndlessRound | byacc-1.9/skeleton.c:100-282 | Whatever the conflicts, a run that never ends makes reductions that lead from some symbol back to itself by a chain of rules, the last of them by a rule that some look-ahead allows. |
| Halting.ParserHalts | byacc-1.9/skeleton.c:100-282 | If nothing is suppressed and the goal does not become itself by a chain of rules, the generated parser comes to an end on every input, accepted or not, on a stack of any size. |
| Halting.GeneratedDecides | byacc-1.9/main.c:378-382 | The generator makes deciders: for a grammar without precedences and counted conflicts whose goal does not become itself, every run ends, and unless its stack was full on the way it ends with acceptance if the goal derives the input, and with a syntax error if not. |
| Halting.AloneUncounted | byacc-1.9/mkpar.c:218-230 | A reduction that is alone on its token is counted as no conflict, even if it is on $end in the final state, where it competes with accepting. |
| Halting.GoalLoops | byacc-1.9/skeleton.c:231-257 | Without that condition this is false: a parser that, with the goal alone on the stack, reduces by a rule goal : goal does so for ever if there is a token left, although such a rule alone counts as no conflict. |
| Halting.Overrun | byacc-1.9/skeleton.c:231-257 | A concrete case: with the tables for the rules S : S and S : 'a', the run on two codes of 'a' never ends. |
| Reader.GrammarReader.StartRule | byacc-1.9/reader.c:1083-1093 | A rule is opened for its left-hand side, which becomes a nonterminal; refused exactly if that is a token. |
| Reader.GrammarReader.EndRule | byacc-1.9/reader.c:1096-1112 | The open rule is closed; the flag of a trailing action is cleared. |
| Reader.GrammarReader.InsertEmptyRule | byacc-1.9/reader.c:1115-1141 | Shifting the arrays in place inserts an empty rule for a new symbol before the open rule, and the symbol at its end; nothing else changes. |
| Reader.GrammarReader.AddSymbol | byacc-1.9/reader.c:1144-1172 | Apart from made-up symbols, the open rule grows by just this symbol, whether or not an action came before it. |
| Reader.GrammarReader.CopyAction | byacc-1.9/reader.c:1187-1189 | Apart from made-up symbols, an action changes no rule, even two in a row. |
| Reader.StrippedInsert | byacc-1.9/reader.c:1115-1141 | A made-up symbol with its empty rule leaves no trace once such symbols are stripped. |
| Reader.GrammarReader.MarkSymbol | byacc-1.9/reader.c:1398-1438 | %prec gives the open rule the precedence of the symbol and leaves the rest. |
| Reader.GrammarReader.TakeEvent | byacc-1.9/reader.c:1441-1471 | One item of the grammar section changes the stripped rules just as it changes the source rules; it is refused exactly if it starts a rule for a token. |
| Reader.ReadGrammar | byacc-1.9/reader.c:1441-1471 | The rules read, stripped of made-up symbols, are the source rules with actions erased; reading fails exactly if some left-hand side is a token. |
| Reader.SourceRead | byacc-1.9/reader.c:1441-1471 | Round trip: any list of rules, written out as heads, symbols and %prec clauses, is read as just these rules, with the precedence of the %prec symbol. |
| Reader.SourceShort | byacc-1.9/reader.c:1441-1471 | An action anywhere changes none of the rules meant, and a vertical bar is the same as the last left-hand side written again. |
| Pack.NumberSymbols | byacc-1.9/reader.c:1532-1579 | Symbol numbers are pairwise different: tokens from 1 in the order of the list, the goal right after $accept, then the other variables. |
| Pack.AssignCodes | byacc-1.9/reader.c:1586-1653 | Declared codes are kept, `error` gets 256 unless declared, and every other token gets a new code over 256 that differs from all others. |
| Pack.CodesDistinct | byacc-1.9/reader.c:1586-1653 | The codes are pairwise distinct if and only if the declared ones are, avoid 0, and avoid 256 where `error` has none. |
| Pack.PackGrammar | byacc-1.9/reader.c:1656-1712 | The arrays ritem, rlhs and rrhs satisfy Valid and decode back to the numbered rules; each rule has its %prec precedence, or else that of its last token. |
| Pack.RulePrecIs | byacc-1.9/reader.c:1686-1706 | The precedence of a rule is that of %prec, or else that of the last token of its right-hand side, or else none. |
| Pack.StrippedExpands | byacc-1.9/reader.c:1115-1172 | The rules with made-up symbols are those of the source with symbols put in that have one rule each, the empty one. |
| Productions.StripTree | byacc-1.9/reader.c:1115-1172 | A tree over the expanded rules, stripped of made-up subtrees, is a tree over the source rules with the same root and yield. |
| Productions.FillTree | byacc-1.9/reader.c:1115-1172 | A tree over the source rules, with empty subtrees put in, is a tree over the expanded rules with the same root and yield. |
| Productions.ExpansionDerives | byacc-1.9/reader.c:1115-1172 | Putting in symbols that only derive the empty string changes no language. |
| Productions.PackedDerives | byacc-1.9/reader.c:1656-1712 | Arrays that decode to a list of productions derive the same strings as these productions. |
| Compiler.PackedLanguage | byacc-1.9/reader.c:1656-1712 | The goal derives the same strings in the packed grammar and in the source grammar with its actions erased, wherever these stand. |
| Compiler.ReadAndPack | byacc-1.9/reader.c:1751-1765 | Reading and packing fails exactly if a left-hand side is a token or the start symbol has no rule. What it leaves is that of the source: the grammar decodes to its rules with made-up symbols and has its language; numbers tell symbols apart, and tokens from variables, which are the symbols with rules; codes and precedences are the declared ones, and each rule has that of its %prec clause or last token. |
| Compiler.CodesFit | byacc-1.9/reader.c:1586-1653 | The codes meet what the generator asks of them if and only if the codes declared for the tokens do not clash and all codes fit a short. |
| Compiler.SourceCodes | byacc-1.9/reader.c:1656-1712 | The packed grammar derives the tokens of a string of codes if and only if the goal derives them in the grammar as it is written. |
| Compiler.NoneFor | byacc-1.9/reader.c:1656-1712 | If no declaration gives a precedence, no symbol and no rule of the packed grammar has one. |
| Compiler.Compile | byacc-1.9/main.c:377-382 | From the rules of the grammar file to the parser: refused exactly if a left-hand side is a token or the start symbol has no rule; otherwise, with codes that do not clash and fit, every run of the parser is safe, overflows only on a full stack, and accepts only what the goal derives in the grammar as it is written, actions and all; and if no precedences are declared and no conflicts are counted, some stack lets it accept exactly that, and on none does it report a syntax error for it. |
| Dataflow.BitMeans | src/extract.c:279-335 | A bit is carried along a path exactly if its reading holds: the value was set inside (outside) and not assigned since, and has, for the two leaving bits, been past a block marker in between. |
| Extract.ArrivalStep | src/extract.c:279-335 | One arrival at a node keeps the covering invariant and never raises the potential; at a jump it lowers it, except where the value is out of date. This is why the recursion ends although assignments reset states. |
| Extract.ProgramGraph.AnalyzeVariableDataFlow | src/extract.c:279-335 | The recursive traversal ends from every state it meets; marks only rise, and all that an arrival must bring about is covered. |
| Extract.ProgramGraph.AnalyzeFromStart | src/extract.c:408-420 | Started afresh, it leaves at each node visited exactly the union over all control paths to it of what they carry; at an assignment the node's own side only. |
| Extract.ProgramGraph.SetInOutBlockFields | src/extract.c:467-477 | A node is inside exactly if an odd number of block markers lies up to it. |
| Extract.SideIsParity | src/extract.c:455-477 | The side is inside after an odd number of block markers, outside after an even one. |
| Extract.ProgramGraph.AreThereJumpsInOrOutOfBlock | src/extract.c:479-493 | True exactly if some jump leads from one side of the block to the other. |
| Extract.ProgramGraph.CollectVariableUsages | src/extract.c:358-377 | The two unions hold exactly the bits at uses of the variable inside and outside the block. |
| Extract.ProgramGraph.ClassifyVariableUsingDataFlow | src/extract.c:408-454 | The class is the one specified, which depends only on which bits control paths bring to uses on which side; the next three rows say what that is worth. |
| Extract.ExtractionPassesEnough | src/extract.c:408-454 | For a non-static local defined outside: OUT or IN_OUT if and only if some path brings a value assigned in the block to a use outside, or again to one inside after leaving the block; IN_OUT or VALUE whenever a path brings an outside value to a use inside; OUT only, exactly if moreover no path brings an outside value to a use inside or past the block to one outside; VALUE only if a path brings an outside value in; a local variable exactly if none of these but used inside; and else no class. |
| Extract.StaticsArePassed | src/extract.c:379-448 | For a static local defined outside: IN_OUT if and only if the block writes it and its value from before is read there or it is read anywhere outside, or a path condition holds that makes any variable IN_OUT; OUT or IN_OUT if and only if it is wanted in that sense or a value set in the block is read outside or again inside after leaving; IN_OUT or VALUE whenever an outside value is read inside. |
| Extract.InsidePassedOut | src/extract.c:446-453 | For a variable defined inside: LOCAL_OUT if and only if some path brings a value set on either side to a read outside, or control reaches an assignment to it outside; otherwise no class. |
| Extract.ProgramGraph.ClassifyLocalVariables | src/extract.c:520-526 | Every definition of a local variable gets its class, and no other node changes. |
| Extract.ProgramGraph.Only | src/extract.c:637-681 | The one node of the wanted classes, or -1 exactly if there is not just one. |
| Extract.ProgramGraph.ReclassifyInOutVariables | src/extract.c:637-681 | The classes change to those of the specification: the only out variable, or else the only in-out one, becomes the result. |
| Extract.AtMostOneResult | src/extract.c:637-681 | At most one variable becomes the result value, it was one to be passed out, and all others stay; if just one was to be passed out only, it is the one, else if just one was to be passed both ways, that one, and else none. |
| Extract.ProgramGraph.MakeExtraction | src/extract.c:1036-1094 | Refused exactly if a jump crosses the border of the block and no macro is wanted; otherwise all locals are classified and at most one node is a result. |
| IncludeGraphs.FirstEdgeOf | src/includegraph.c:100-110 | The binary search gives the boundary between edges of smaller includers and the rest. |
| IncludeGraphs.FirstEdgeIncluding | src/includegraph.c:136-146 | The same among the edges ordered by included file. |
| IncludeGraphs.CollectIncludeClosure | src/includegraph.c:124-134 | If the count is at most the size of the array, the array holds each file reached through includes once, and no other; otherwise more files than fit are reached. |
| IncludeGraphs.CollectIncluderClosure | src/includegraph.c:160-167 | The same for the converse relation. |
| IncludeGraphs.ConverseReaches | src/includegraph.c:136-167 | A file is in the includer closure of another exactly if the other is in its include closure. |
| IncludeGraphs.AnswerExact | src/includegraph.c:124-134 | The count is at most n if and only if at most n files are reached. |
| Freshness.TimestampsAreNumbers | src/timestamp.c:7-42 | Comparison, subtraction with borrow and the test for zero agree with the count of nanoseconds. |
| Freshness.LastChangeIsLater | src/freshness.c:39-50 | The change time of a file that exists is the later of its modification time and the change time kept for it; of one that does not, zero. |
| Freshness.Prerequisites.ChangeTimeOf | src/freshness.c:39-50 | The memo never changes the answer: the time asked for is the file's last change, or zero if the file is gone. |
| Freshness.Prerequisites.WhyOutOfDate | src/freshness.c:87-102 | The verdict is "current" only if the unit and every file it reaches through includes still has a change time that is not zero and lies before the knowledge time by the clock gap; every other verdict names a reason that holds. |
| Editor.MarkerKeepsCharacter | src/editor.c:146-217 | A replacement keeps a marker inside the text, on its character if that is not replaced, and at the end if it was there; a marker in the replaced part stays where it is as far as the new text goes, and otherwise goes to its last character, or to the offset if nothing is put in. |
| Editor.MarkersKeepOrder | src/editor.c:146-217 | A replacement never inverts the order of two markers. |
| Editor.UndoAll | src/editor.c:146-217 | After any sequence of replacements, replaying their undo records, newest first, restores the text. |
| EditorBuffers.EditorBuffer.ReplaceString | src/editor.c:146-217 | Text, markers and undo list change as specified, the size deleted being cut at the end of the buffer; the marker list stays well-formed. |
| Editor.BlockPermutes | src/editor.c:219-275 | A block move permutes the characters, and BlockOffset takes each one to where it now stands. |
| Editor.MoveEdits | src/editor.c:219-275 | Inserting a copy of the block and then deleting the shifted original is the block move. |
| Editor.MoveOffsets | src/editor.c:219-275 | A marker that is moved by the insertion, carried along with the block and moved by the deletion comes to where its character is. |
| Editor.LeavingKeepsCharacter | src/editor.c:219-275 | In a move between two buffers, a marker in the block comes to its character in the other buffer, every other one stays on its character, and one at the end at the end. |
| Editor.BlockMovedBack | src/editor.c:219-275 | Within one buffer, the move that the undo record of a block move describes restores the text. |
| Editor.ChangeUndone | src/refactory.c:306-350 | The undo record of an edit, or of a move within one buffer or between two, can be replayed, and then restores all texts, unless the move is empty, between two buffers, and from an offset behind the end of the other; then it cannot be replayed. |
| Editor.ChangesUndone | src/refactory.c:306-350 | After any mixed list of edits and moves in several buffers, the undo records can be replayed newest first exactly if no move is of that kind, and then restore all texts. |
| Editor.EmptyMoveStays | src/editor.c:219-275 | Moving nothing from the end of a text of one character to an empty one leaves a record that cannot be replayed: its offset lies behind the end of the buffer it names. |
| EditorBuffers.EditorBuffer.AttachMarker | src/editormarker.c:25-32 | The marker comes first in the doubly linked list, which stays well-formed; no offset changes. |
| EditorBuffers.RemoveMarker | src/editormarker.c:310-320 | Exactly this marker leaves the doubly linked list, which stays well-formed. |
| EditorBuffers.MoveMarkers | src/editor.c:253-261 | The walk over a list that is changed under it deals with every marker once: those in the block go to the destination's list and to the block's new place, the others stay. |
| EditorBuffers.MoveBlock | src/editor.c:219-275 | Outside the guarded overlap, a block move within a buffer or between two: texts, all markers with their lists, and the undo record are as specified; in the guarded case nothing changes. |
| CharacterReader.CharacterBuffer.GetChar | src/characterreader.c:152-161 | The next character of the file through the refilled buffer, and EOF exactly after the last. |
| CharacterReader.CharacterBuffer.GetString | src/characterreader.c:163-171 | The next characters of the file, as many as asked for, and the character that EOF becomes behind its end. |
| CharacterReader.CharacterBuffer.SkipCharacters | src/characterreader.c:97-122 | What is left is what follows the characters skipped, whether or not they were in the buffer. |
| Records.DecimalRead | src/cxfile.c:622-633 | A number is read back from its decimal digits, whatever follows that is not a digit. |
| Records.ScanOut | src/cxfile.c:252-285 | From the characters written, with their blanks, the scanner makes just the records that were written. |
| Cxfile.StepFile | src/cxfile.c:325-335 | Writing one file keeps writer and reader in step on the last value of every tag, and the reader sees this file with its number, name and times. |
| Cxfile.StepSymbol | src/cxfile.c:288-300 | The same for one symbol. |
| Cxfile.StepReference | src/cxfile.c:310-318 | The same for one reference, whatever parts of it were left out because they had not changed. |
| Cxfile.RecordsRoundTrip | src/cxfile.c:325-427 | What is read from the records of a snapshot is, in order, every file that is not deleted, and every symbol that is not local and has references, with these. |
| Cxfile.CheckNumberRoundTrip | src/cxfile.c:362-373 | The check number decomposes into what it was composed of. |
| Cxfile.CxWriter.WriteOptionalCompactRecord | src/cxfile.c:263-276 | The characters written are read as one record more, or as none if the tag had this value last. |
| Cxfile.CxWriter.WriteReferenceableItem | src/cxfile.c:339-360 | A local symbol or one without references leaves no record; another one comes once, before its references. |
| Cxfile.WriteSnapshot | src/cxfile.c:421-427 | The file as characters scans to the records of the snapshot. |
| Cxfile.ScanInteger | src/cxfile.c:622-633 | Blanks, then a number, from the character stream: its value, and what follows it. |
| Cxfile.ScanCxFile | src/cxfile.c:654-698 | For every file of characters the scanner sees what the records in it say, up to a version record of another format. |
| Cxfile.SaveAndLoad | src/cxfile.c:421-427 | The round trip over characters: writing a snapshot and scanning the file shows exactly what was to be saved. |
| Loading.ReferenceTables.ReadFileName | src/cxfile.c:500-539 | The file is in the table, each of its two times that was zero is that of the snapshot, and its old number stands for it. |
| Loading.ReferenceTables.ReadSymbolName | src/cxfile.c:571-601 | The item is in the table, with the references it had, and is the one that references go to. |
| Loading.ReferenceTables.ReadReference | src/cxfile.c:603-620 | The current item has this usage at this place, in the file that the old number stands for. |
| Loading.NamesTellNumbers | src/cxfile.c:500-539 | Under the renumbering, different old numbers stand for different files. |
| Loading.UsagesAre | src/cxfile.c:603-620 | Where places differ, each place has the usage of its reference, and no other place has one. |
| Loading.SessionRestored | src/cxfile.c:500-620 | Handling what the reader sees restores the session: every file by name, with exactly the times of the snapshot if the file is new to the session, and otherwise with each of the two times that was not zero kept and each that was zero taken from the snapshot; exactly the items that were kept, and in each exactly its references, file numbers being told by names. |
| Loading.SaveAndRestore | src/cxfile.c:421-427 | The same from session to session, character by character. |

## Left out

Of the parser generator:

- Error recovery (`yyinrecovery`) and the special treatment of the `error` token in the driver: a syntax error ends the parse. Semantic values and actions are not run.
- Yyparse.Yyparse: follows the emitted parser for any given number of turns, as a parser with conflicts need not come to an end; `Halting.ParserHalts` says when some number is enough.
- Halting.ParserHalts: where the goal does become itself by a chain of rules, it is not said on which inputs the parser still comes to an end.
- Yyparse.Yyparse: takes `yystacksize` to be at least 2, because the jump to YYFINAL stores on the stack without the test for overflow (byacc-1.9/skeleton.c:238-240).
- Generator.Generate: takes token codes that are pairwise distinct, 0 for $end, positive otherwise and fit for a short. Exactness is stated for grammars without precedences; with them, soundness holds, and what they do to one conflict and to the tree of an accepted input (`Generator.PrecedenceDecides`, `ParseTrees.OperatorsGroup`).
- ParseTrees.OperatorsGroup: asks that, where the rule is complete, no third action competes for the operator.
- Compiler.Compile: checks the codes before the generator starts; the source goes on with codes that clash or do not fit, and what its parser then accepts is not modelled. The symbol table that the declarations leave is an input.
- Digraph.Digraph: asks that `ngotos + 2`, which stands for infinity, fit a short, as the array INDEX has shorts. With 32766 or 32767 gotos the source goes on with a number that has wrapped; `Generator.Generate` then ends with GotosWrap.
- Lalr.BuildEdges: `edge` in `build_relations` is a sequence that grows; the source gives it `ngotos + 1` places.
- Symbol 1 is `error` as in the source; other widths of `short`, allocation, and the memory of `state_set` are not modelled. A 32-bit word is a sequence of 32 booleans.
- The linked lists of states, shifts, reductions and actions, and the lists `derives` and `lookback`, are sequences in the order of the links.
- Packing.Packer.PackTable: the scan for `lowzero` fails here when it runs off the table, where the source reads on. Nothing is printed, so `output_base` and its kin are represented by the tables themselves.
- `unused_rules`, `verbose.c` and the message about expected conflicts are left out; conflict counts per state are represented by their totals.
- Reader.ReadGrammar: starts from the list of symbols, actions, bars and rule heads; the text level of `reader.c`, tags, `$$` checks, warnings and `pack_names` are left out. `plhs`, `rprec` and `rassoc` are one array of records.
- Reader.GrammarReader.AddSymbol: the test for a colon behind the symbol is part of the text level; a symbol with a colon arrives as the start of a new rule.

Of "extract function":

- Extract.ProgramGraph.MakeExtraction: every jump is taken to be resolved to a label definition; the splice of implicit functions, the refusal to return an array, and all text generation are left out. The list of nodes is an array, a `next` or `jump` pointer being a position.

Of the smaller cores:

- The collection of edges in `buildIncludeGraph`: an include graph is taken as two lists of the same edges, one in each order, as `qsort` leaves them; the hash tables of files and items are maps.
- Freshness: modification times are given with the files; the file system and the clock are not modelled, nor is the choice of times in `changeTimeNow`.
- Editor buffers: the growth of text space allocates a new array; the string inserted by `moveBlockInEditorBuffer` is the value it had before the call, where the source passes a pointer into the buffer that it is about to change. Renaming, saving and their undo records, and line and column arithmetic on markers, are left out. `sortEditorRegionsAndRemoveOverlaps` is left out: after a merge it steps past the merged region.
- CharacterReader.CharacterBuffer.RefillBuffer: only as `getChar` calls it, with nothing left unread; `ungetChar`, line and column counting, and reading from a string are left out.
- Cxfile.ScanCxFile: behind the end of a truncated file, text is padded by the character that EOF becomes; the assertions on tags and lengths are not modelled, and the key that `resetIncomingData` marks for include file numbers before the key list is not marked (no such record comes before the key list in a written file). Values are non-negative, as the writer asserts.
- Loading.SessionRestored: asks that every file that a kept item refers to is in the file table and not deleted; for another number the source uses whatever `fileNumberMapping` holds. File names are taken as already normalised, reference lists are maps from places, and duplicates are merged as outside extraction.
- `normalizeFileName` is left out, as are browsing, sessions, completion, options, protocols and the generated parsers under `src`.
