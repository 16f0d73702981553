/** The data-flow analysis behind "extract function" (src/extract.c). */
module Extract {
  import opened Dataflow

  datatype Storage = AutoStorage | RegisterStorage | StaticStorage | ThreadLocalStorage | OtherStorage

  /** The referenceable items that nodes refer to by number. isLocalName: the link name starts with the flag
      of a name declared inside the function. */
  datatype Item = Item(storage: Storage, isLocalName: bool)

  datatype ExtractClassification =
    LocalVar | ValueArgument | LocalOutArgument | OutArgument | InOutArgument | AddressArgument
    | ResultValue | InResultValue | LocalResultValue | NoClassification

  // Node p refers to v in a way that counts (collectVariableUsages).
  predicate Uses(g: Program, v: nat, p: nat) {
    p < |g.nodes| && g.nodes[p].item == v && g.nodes[p].usage != None
  }

  // Node p refers to v and does not give it a new value.
  predicate Reads(g: Program, v: nat, p: nat) {
    Uses(g, v, p) && !Assigns(g, v, p)
  }

  /** Some control path brings this bit of v's value to a reading node on this side. */
  ghost predicate Reaches(g: Program, v: nat, b: Bit, side: Bit)
    requires |g.nodes| == |g.side|
  {
    exists p: nat :: Reads(g, v, p) && g.side[p] == side && Carried(g, v, p, b)
  }

  // Control can reach a use of v on this side.
  ghost predicate IsUsed(g: Program, v: nat, side: Bit)
    requires |g.nodes| == |g.side|
  {
    exists p: nat :: Uses(g, v, p) && g.side[p] == side && Reachable(g, p)
  }

  // Control can reach an assignment to v on this side.
  ghost predicate IsAssigned(g: Program, v: nat, side: Bit)
    requires |g.nodes| == |g.side|
  {
    exists p: nat :: Uses(g, v, p) && Assigns(g, v, p) && g.side[p] == side && Reachable(g, p)
  }

  predicate HasStaticLifetime(item: Item) {
    item.storage == StaticStorage || item.storage == ThreadLocalStorage
  }

  ghost predicate WrittenInBlock(g: Program, v: nat)
    requires |g.nodes| == |g.side|
  {
    exists p: nat :: p < |g.nodes| && g.nodes[p].item == v && g.side[p] == Inside && g.nodes[p].usage in {LvalUsed, AddrUsed}
  }

  ghost predicate ReadOutsideBlock(g: Program, v: nat)
    requires |g.nodes| == |g.side|
  {
    exists p: nat :: p < |g.nodes| && g.nodes[p].item == v && g.side[p] == Outside && g.nodes[p].usage in {Used, AddrUsed}
  }

  /** How the variable that node n defines is to be passed, in terms of the control paths. */
  ghost function Classified(g: Program, items: seq<Item>, n: nat): ExtractClassification
    requires n < |g.nodes| == |g.side| && g.nodes[n].item < |items|
  {
    var v := g.nodes[n].item;
    if g.side[n] == Outside then
      if HasStaticLifetime(items[v]) && WrittenInBlock(g, v) && (Reaches(g, v, Outside, Inside) || ReadOutsideBlock(g, v)) then InOutArgument
      else if Reaches(g, v, Inside, Outside) then
        if Reaches(g, v, Reenter, Inside) || Reaches(g, v, Outside, Inside) || Reaches(g, v, Passing, Outside) then InOutArgument else OutArgument
      else if Reaches(g, v, Reenter, Inside) then InOutArgument
      else if Reaches(g, v, Outside, Inside) then ValueArgument
      else if IsUsed(g, v, Inside) then LocalVar
      else NoClassification
    else if Reaches(g, v, Inside, Outside) || Reaches(g, v, Outside, Outside) || IsAssigned(g, v, Outside) then LocalOutArgument
    else NoClassification
  }

  // The path brings to a reading node on side `to` a value of v that was set on side `from`.
  ghost predicate Brings(g: Program, v: nat, path: seq<nat>, from: Bit, to: Bit)
    requires |g.nodes| == |g.side|
  {
    IsPath(g, path) && Reads(g, v, path[|path| - 1]) && g.side[path[|path| - 1]] == to && SetOn(g, v, path, from)
  }

  // The path brings to a reading node on side `to` a value of v set on side `from` that has left the block since.
  ghost predicate BringsPast(g: Program, v: nat, path: seq<nat>, from: Bit, to: Bit)
    requires |g.nodes| == |g.side|
  {
    IsPath(g, path) && Reads(g, v, path[|path| - 1]) && g.side[path[|path| - 1]] == to && SetAndLeft(g, v, path, from)
  }

  ghost predicate IsBrought(g: Program, v: nat, from: Bit, to: Bit)
    requires |g.nodes| == |g.side|
  {
    exists path :: Brings(g, v, path, from, to)
  }

  ghost predicate IsBroughtPast(g: Program, v: nat, from: Bit, to: Bit)
    requires |g.nodes| == |g.side|
  {
    exists path :: BringsPast(g, v, path, from, to)
  }

  lemma ReachesPath(g: Program, v: nat, b: Bit, side: Bit)
    requires ValidProgram(g) && b != Analyzed
    ensures b == Reenter ==> (Reaches(g, v, b, side) <==> IsBroughtPast(g, v, Inside, side))
    ensures b == Passing ==> (Reaches(g, v, b, side) <==> IsBroughtPast(g, v, Outside, side))
    ensures b == Inside || b == Outside ==> (Reaches(g, v, b, side) <==> IsBrought(g, v, b, side))
  {
    if Reaches(g, v, b, side) {
      var p: nat :| Reads(g, v, p) && g.side[p] == side && Carried(g, v, p, b);
      var path :| PathTo(g, path, p) && b in Along(g, v, path);
      BitMeans(g, v, path, b);
      assert if b == Reenter then BringsPast(g, v, path, Inside, side)
        else if b == Passing then BringsPast(g, v, path, Outside, side) else Brings(g, v, path, b, side);
    }
    forall path | IsPath(g, path)
      ensures b in Along(g, v, path) <==> Means(g, v, path, b)
      ensures PathTo(g, path, path[|path| - 1])
    {
      BitMeans(g, v, path, b);
    }
  }

  /** Extraction passes just enough, of a variable defined outside the block that is not static. It is passed
      out exactly when a value set in the block is read outside, or again in the block after control has left
      it. A value from outside that is read in the block is passed in. It is passed out only, or in only, exactly
      when nothing needs the other direction: no old value is read where a value passed out would replace it. What
      is passed in neither direction becomes a local variable exactly if the block uses it at all. */
  lemma ExtractionPassesEnough(g: Program, items: seq<Item>, n: nat)
    requires ValidProgram(g) && n < |g.nodes| && g.nodes[n].item < |items|
    requires g.side[n] == Outside && !HasStaticLifetime(items[g.nodes[n].item])
    ensures var v, c := g.nodes[n].item, Classified(g, items, n);
            && (c in {OutArgument, InOutArgument} <==> IsBrought(g, v, Inside, Outside) || IsBroughtPast(g, v, Inside, Inside))
            && (IsBrought(g, v, Outside, Inside) ==> c in {InOutArgument, ValueArgument})
            && (c == OutArgument <==> IsBrought(g, v, Inside, Outside) && !IsBrought(g, v, Outside, Inside)
                                      && !IsBroughtPast(g, v, Outside, Outside) && !IsBroughtPast(g, v, Inside, Inside))
            && (c == ValueArgument ==> IsBrought(g, v, Outside, Inside))
            && (c == LocalVar <==> IsUsed(g, v, Inside) && c !in {OutArgument, InOutArgument, ValueArgument})
            && c in {OutArgument, InOutArgument, ValueArgument, LocalVar, NoClassification}
  {
    var v := g.nodes[n].item;
    ReachesPath(g, v, Inside, Outside);
    ReachesPath(g, v, Outside, Inside);
    ReachesPath(g, v, Reenter, Inside);
    ReachesPath(g, v, Passing, Outside);
  }

  /** A variable defined inside the block is passed out exactly when its value is wanted outside: some path brings
      a value set on either side to a read outside, or control reaches an assignment to it there. */
  lemma InsidePassedOut(g: Program, items: seq<Item>, n: nat)
    requires ValidProgram(g) && n < |g.nodes| && g.nodes[n].item < |items| && g.side[n] == Inside
    ensures var v, c := g.nodes[n].item, Classified(g, items, n);
            && (c == LocalOutArgument <==> IsBrought(g, v, Inside, Outside) || IsBrought(g, v, Outside, Outside) || IsAssigned(g, v, Outside))
            && (c == NoClassification <==> c != LocalOutArgument)
  {
    var v := g.nodes[n].item;
    ReachesPath(g, v, Inside, Outside);
    ReachesPath(g, v, Outside, Outside);
  }

  // The block writes the static variable, and its value from before is read there, or it is read outside the
  // block at all, on whatever path: as it outlives the function, that counts as wanting it.
  ghost predicate StaticIsWanted(g: Program, v: nat)
    requires |g.nodes| == |g.side|
  {
    WrittenInBlock(g, v) && (IsBrought(g, v, Outside, Inside) || ReadOutsideBlock(g, v))
  }

  /** How a static variable defined outside the block is passed: both ways exactly when it is wanted in this
      sense, or when any other variable would be; out exactly when it is wanted or a value set in the block is
      read outside, or again in the block after control has left it; and in, only or as well, whenever a value
      from outside is read in the block. */
  lemma StaticsArePassed(g: Program, items: seq<Item>, n: nat)
    requires ValidProgram(g) && n < |g.nodes| && g.nodes[n].item < |items|
    requires g.side[n] == Outside && HasStaticLifetime(items[g.nodes[n].item])
    ensures var v, c := g.nodes[n].item, Classified(g, items, n);
            && (c in {OutArgument, InOutArgument} <==> StaticIsWanted(g, v) || IsBrought(g, v, Inside, Outside) || IsBroughtPast(g, v, Inside, Inside))
            && (c == InOutArgument <==>
                (StaticIsWanted(g, v) || IsBroughtPast(g, v, Inside, Inside)
                 || (IsBrought(g, v, Inside, Outside) && (IsBrought(g, v, Outside, Inside) || IsBroughtPast(g, v, Outside, Outside)))))
            && (IsBrought(g, v, Outside, Inside) ==> c in {InOutArgument, ValueArgument})
            && (c == ValueArgument ==> IsBrought(g, v, Outside, Inside) && !WrittenInBlock(g, v))
            && (c == LocalVar <==> IsUsed(g, v, Inside) && c !in {OutArgument, InOutArgument, ValueArgument})
            && c in {OutArgument, InOutArgument, ValueArgument, LocalVar, NoClassification}
  {
    var v := g.nodes[n].item;
    ReachesPath(g, v, Inside, Outside);
    ReachesPath(g, v, Outside, Inside);
    ReachesPath(g, v, Reenter, Inside);
    ReachesPath(g, v, Passing, Outside);
  }

  /** The list of ProgramGraphNodes. Each array holds one field of the nodes, in list order. */
  class ProgramGraph {
    const nodes: seq<Node>
    const items: seq<Item>
    const regionSide: array<Bit>
    const state: array<set<Bit>>
    const visited: array<bool>
    const classification: array<ExtractClassification>

    ghost predicate Valid() {
      && regionSide.Length == state.Length == visited.Length == classification.Length == |nodes|
      && forall p :: 0 <= p < |nodes| ==> nodes[p].item < |items|
    }

    ghost function Graph(): Program
      reads regionSide
    {
      Program(nodes, regionSide[..])
    }

    ghost function Now(): Marks
      reads state, visited
    {
      Marks(state[..], visited[..])
    }

    constructor (nodes: seq<Node>, items: seq<Item>)
      requires forall p :: 0 <= p < |nodes| ==> nodes[p].item < |items|
      ensures Valid() && this.nodes == nodes && this.items == items
      ensures fresh(regionSide) && fresh(state) && fresh(visited) && fresh(classification)
      ensures forall p :: 0 <= p < |nodes| ==> classification[p] == NoClassification
    {
      this.nodes, this.items := nodes, items;
      regionSide := new Bit[|nodes|](_ => Outside);
      state := new set<Bit>[|nodes|](_ => {});
      visited := new bool[|nodes|](_ => false);
      classification := new ExtractClassification[|nodes|](_ => NoClassification);
    }

    /** One node's share of analyzeVariableDataFlow: what arrives joins the node's state, and what the node
        passes on is the result. */
    method Process(v: nat, p: nat, propagating: set<Bit>) returns (processing: set<Bit>)
      requires Valid() && p < |nodes|
      modifies state, visited
      ensures Now() == Arrive(Graph(), v, old(Now()), p, propagating)
      ensures processing == Out(Graph(), v, p, propagating + old(state[p]))
    {
      visited[p] := true;
      var accumulated := propagating + state[p];
      state[p] := accumulated;
      processing := accumulated;
      var assignedHere := {regionSide[p]};
      if nodes[p].item == v {
        if nodes[p].usage == AddrUsed {
          processing := assignedHere;
        } else if nodes[p].usage == LvalUsed || nodes[p].usage == Defined {
          processing := assignedHere;
          state[p] := processing;
        }
      } else if nodes[p].typ == BlockMarker && regionSide[p] != Inside {
        var reentering := if Inside in processing then {Reenter} else {};
        var passing := if Outside in processing then {Passing} else {};
        processing := processing + reentering + passing;
      }
    }

    /** analyzeVariableDataFlow. It ends, because a jump is only passed when the marks have risen since the last
        time, except for one arrival after each fork, whose value may be out of date. */
    method AnalyzeVariableDataFlow(v: nat, p0: nat, incoming: set<Bit>)
      requires Valid() && Good(Graph(), v, Now()) && p0 <= |nodes| && MayArrive(Graph(), v, Now(), p0, incoming)
      requires p0 < |nodes| && IsJump(nodes[p0]) ==> state[p0] <= incoming
      modifies state, visited
      ensures Good(Graph(), v, Now()) && Rises(old(Now()), Now())
      ensures Progress(Graph(), v, old(Now()), Now(), p0, incoming)
      ensures p0 < |nodes| ==> Covered(Graph(), v, Now(), p0, incoming)
      decreases Potential(Now())
    {
      hide Good, MayArrive, Progress, Turn, Rises, Potential, Arrive, Out, Shaped, Covered, Edge;
      ghost var g, m0 := Graph(), Now();
      var propagating: set<Bit>, p: nat := incoming, p0;
      ghost var stale := false;
      FirstTurn(g, v, m0, p0, incoming);
      while p < |nodes|
        invariant p <= |nodes| && Turn(g, v, m0, p0, incoming, Now(), p, propagating, stale)
        invariant (p == p0 && propagating == incoming) || Covered(g, v, Now(), p0, incoming)
        decreases Potential(Now()), if stale then 1 else 0, |nodes| - p
      {
        ghost var m := Now();
        if visited[p] && state[p] == propagating {
          LastTurn(g, v, m0, p0, incoming, m, p, propagating, stale);
          return;
        }
        ArrivalStep(g, v, m0, p0, incoming, m, p, propagating, stale);
        var processing := Process(v, p, propagating);
        ghost var m1 := Now();
        if nodes[p].typ == Label && nodes[p].usage == Used {
          GotoTurn(g, v, m0, p0, incoming, m1, p, processing);
          stale := false;
          propagating, p := processing, nodes[p].jump;
        } else {
          if nodes[p].typ == Label && nodes[p].usage == Fork {
            IntoFork(g, v, m0, p0, incoming, m1, p, processing);
            AnalyzeVariableDataFlow(v, nodes[p].jump, processing);
            AfterFork(g, v, m0, p0, incoming, m1, Now(), p, processing);
            stale := true;
          } else {
            PlainTurn(g, v, m0, p0, incoming, m1, p, processing);
            stale := false;
          }
          propagating, p := processing, p + 1;
        }
      }
      LastTurn(g, v, m0, p0, incoming, Now(), p, propagating, stale);
    }

    /** setInOutBlockFields: every block marker changes the side. */
    method SetInOutBlockFields()
      requires Valid()
      modifies regionSide
      ensures forall p :: 0 <= p < |nodes| ==> regionSide[p] == SideAfter(nodes[..p + 1])
    {
      var pos := Outside;
      for p := 0 to |nodes|
        invariant pos == SideAfter(nodes[..p])
        invariant forall q :: 0 <= q < p ==> regionSide[q] == SideAfter(nodes[..q + 1])
      {
        assert nodes[..p + 1][..p] == nodes[..p];
        if nodes[p].typ == BlockMarker {
          pos := if pos == Inside then Outside else Inside;
        }
        regionSide[p] := pos;
      }
    }

    /** areThereJumpsInOrOutOfBlock */
    method AreThereJumpsInOrOutOfBlock() returns (found: bool)
      requires Valid() && ValidProgram(Graph())
      ensures found <==> exists p :: 0 <= p < |nodes| && IsJump(nodes[p]) && regionSide[p] != regionSide[nodes[p].jump]
    {
      for p := 0 to |nodes|
        invariant forall q :: 0 <= q < p && IsJump(nodes[q]) ==> regionSide[q] == regionSide[nodes[q].jump]
      {
        assert Graph().nodes == nodes;
        if IsJump(nodes[p]) && regionSide[p] != regionSide[nodes[p].jump] {
          return true;
        }
      }
      found := false;
    }

    /** The first part of classifyVariableUsingDataFlow: afterwards, the marks are exactly what the control paths
        carry to each node. */
    method AnalyzeFromStart(v: nat)
      requires Valid() && ValidProgram(Graph())
      modifies state, visited
      ensures Exact(Graph(), v, Now())
    {
      hide Exact, Good, Progress, MayArrive;
      for p := 0 to |nodes|
        invariant forall q :: 0 <= q < p ==> state[q] == {} && !visited[q]
      {
        state[p], visited[p] := {}, false;
      }
      ghost var g, m := Graph(), Now();
      NothingMarked(g, v, m);
      AnalyzeVariableDataFlow(v, 0, {Analyzed});
      AllRecorded(g, v, m, Now());
    }

    /** collectVariableUsages */
    method CollectVariableUsages(v: nat) returns (inUsages: set<Bit>, outUsages: set<Bit>)
      requires Valid() && ValidProgram(Graph())
      ensures forall b :: b in inUsages <==> InUse(Graph(), v, Now(), b, Inside)
      ensures forall b :: b in outUsages <==> InUse(Graph(), v, Now(), b, Outside)
    {
      inUsages, outUsages := {}, {};
      for p := 0 to |nodes|
        invariant forall b :: b in inUsages <==> exists q: nat :: q < p && Uses(Graph(), v, q) && regionSide[q] == Inside && b in state[q]
        invariant forall b :: b in outUsages <==> exists q: nat :: q < p && Uses(Graph(), v, q) && regionSide[q] == Outside && b in state[q]
      {
        if nodes[p].item == v && nodes[p].usage != None {
          if regionSide[p] == Inside {
            inUsages := inUsages + state[p];
          } else {
            assert Graph().side[p] == Outside;
            outUsages := outUsages + state[p];
          }
        }
      }
    }

    // isStaticWrittenInBlockAndNeededElsewhere
    method IsStaticNeededElsewhere(v: nat, inUsages: set<Bit>) returns (needed: bool)
      requires Valid() && ValidProgram(Graph())
      ensures needed <==> WrittenInBlock(Graph(), v) && (Outside in inUsages || ReadOutsideBlock(Graph(), v))
    {
      var writtenInBlock, readOutsideBlock := false, false;
      for p := 0 to |nodes|
        invariant writtenInBlock <==> exists q: nat :: q < p && nodes[q].item == v && regionSide[q] == Inside && nodes[q].usage in {LvalUsed, AddrUsed}
        invariant readOutsideBlock <==> exists q: nat :: q < p && nodes[q].item == v && regionSide[q] == Outside && nodes[q].usage in {Used, AddrUsed}
      {
        if nodes[p].item == v {
          if regionSide[p] == Inside && nodes[p].usage in {LvalUsed, AddrUsed} {
            writtenInBlock := true;
          }
          if regionSide[p] == Outside && nodes[p].usage in {Used, AddrUsed} {
            readOutsideBlock := true;
          }
        }
      }
      needed := writtenInBlock && (Outside in inUsages || readOutsideBlock);
    }

    /** classifyVariableUsingDataFlow */
    method ClassifyVariableUsingDataFlow(n: nat) returns (c: ExtractClassification)
      requires Valid() && ValidProgram(Graph()) && n < |nodes|
      modifies state, visited
      ensures c == Classified(Graph(), items, n)
    {
      hide Exact, Reaches, IsUsed, IsAssigned, WrittenInBlock, ReadOutsideBlock, InUse;
      var v := nodes[n].item;
      AnalyzeFromStart(v);
      var inUsages, outUsages := CollectVariableUsages(v);
      UsagesMean(Graph(), v, Now(), Inside);
      UsagesMean(Graph(), v, Now(), Outside);
      AnyUsage(Graph(), v, Now());
      if regionSide[n] == Outside {
        if HasStaticLifetime(items[v]) {
          var needed := IsStaticNeededElsewhere(v, inUsages);
          if needed {
            return InOutArgument;
          }
        }
        if Inside in outUsages {
          if Reenter !in inUsages && Outside !in inUsages && Passing !in outUsages {
            return OutArgument;
          } else {
            return InOutArgument;
          }
        }
        if Reenter in inUsages {
          return InOutArgument;
        }
        if Outside in inUsages {
          return ValueArgument;
        }
        if inUsages != {} {
          return LocalVar;
        }
        return NoClassification;
      } else if Inside in outUsages || Outside in outUsages {
        return LocalOutArgument;
      } else {
        return NoClassification;
      }
    }

    /** classifyLocalVariables */
    method ClassifyLocalVariables()
      requires Valid() && ValidProgram(Graph())
      modifies state, visited, classification
      ensures forall p :: 0 <= p < |nodes| ==>
                classification[p] == if IsLocalVariable(nodes[p], items) then Classified(Graph(), items, p) else old(classification[p])
    {
      hide Classified, ValidProgram;
      for p := 0 to |nodes|
        invariant forall q :: 0 <= q < p ==>
                    classification[q] == if IsLocalVariable(nodes[q], items) then Classified(Graph(), items, q) else old(classification[q])
        invariant forall q :: p <= q < |nodes| ==> classification[q] == old(classification[q])
      {
        if IsLocalVariable(nodes[p], items) {
          classification[p] := ClassifyVariableUsingDataFlow(p);
        }
      }
    }

    // The loops of reclassifyInOutVariables: the only node with one of these classifications, if there is just one.
    method Only(wanted: set<ExtractClassification>) returns (op: int)
      requires Valid()
      ensures op >= 0 ==> op < |nodes| && IsOnly(classification[..], wanted, op)
      ensures op < 0 ==> forall p: nat :: !IsOnly(classification[..], wanted, p)
    {
      op := -1;
      var unique := true;
      for p := 0 to |nodes|
        invariant -1 <= op < p
        invariant op < 0 ==> unique && forall q :: 0 <= q < p ==> classification[q] !in wanted
        invariant op >= 0 ==> classification[op] in wanted && (unique <==> forall q :: 0 <= q < p && classification[q] in wanted ==> q == op)
      {
        if classification[p] in wanted {
          if op < 0 {
            op := p;
          } else {
            unique := false;
          }
        }
      }
      if !unique {
        forall p: nat
          ensures !IsOnly(classification[..], wanted, p)
        {
          NotOnly(classification[..], wanted, p, op);
        }
        op := -1;
      } else if op < 0 {
        NoneOnly(classification[..], wanted);
      }
    }

    /** reclassifyInOutVariables */
    method ReclassifyInOutVariables(extractFunction: bool)
      requires Valid()
      modifies classification
      ensures classification[..] == Reclassified(old(classification[..]), extractFunction)
    {
      hide IsOnly;
      if !extractFunction {
        return;
      }
      var op := Only({OutArgument, LocalOutArgument});
      if op >= 0 {
        OnlyOnce(classification[..], {OutArgument, LocalOutArgument}, op);
        classification[op] := if classification[op] == LocalOutArgument then LocalResultValue else ResultValue;
        return;
      }
      op := Only({InOutArgument});
      if op >= 0 {
        OnlyOnce(classification[..], {InOutArgument}, op);
        classification[op] := InResultValue;
      }
    }

    /** makeExtraction, up to the point where it generates text: it refuses a block with jumps into it or out of
        it; otherwise every local variable is classified, and at most one of them becomes the result. */
    method MakeExtraction(extractFunction: bool, extractMacro: bool) returns (refused: bool)
      requires Valid() && JumpsResolved(nodes) && forall p :: 0 <= p < |nodes| ==> classification[p] == NoClassification
      modifies regionSide, state, visited, classification
      ensures ValidProgram(Graph()) && Graph() == Sided(nodes)
      ensures refused <==> !extractMacro && exists p :: 0 <= p < |nodes| && IsJump(nodes[p]) && regionSide[p] != regionSide[nodes[p].jump]
      ensures !refused ==> classification[..] == Reclassified(ClassifiedAll(Graph(), items), extractFunction)
      ensures !refused ==> forall p, q :: 0 <= p < |nodes| && 0 <= q < |nodes| && IsResult(classification[p]) && IsResult(classification[q]) ==> p == q
    {
      hide Classified, Reclassified;
      SetInOutBlockFields();
      assert regionSide[..] == Sided(nodes).side;
      SidedValid(nodes);
      if !extractMacro {
        refused := AreThereJumpsInOrOutOfBlock();
        if refused {
          return;
        }
      }
      ClassifyLocalVariables();
      assert classification[..] == ClassifiedAll(Graph(), items);
      ClassifiedNoResult(Graph(), items);
      AtMostOneResult(classification[..], extractFunction);
      ReclassifyInOutVariables(extractFunction);
      refused := false;
    }
  }

  /** The analysis, started with x0 at p0 and the marks m0, has come to the marks m and is about to reach p with
      x. If x is stale, p comes right after a fork whose jump has been followed. */
  ghost predicate Turn(g: Program, v: nat, m0: Marks, p0: nat, x0: set<Bit>, m: Marks, p: nat, x: set<Bit>, stale: bool) {
    && Good(g, v, m) && Shaped(g, v, m0) && Rises(m0, m) && MayArrive(g, v, m, p, x)
    && Pending(g, v, m0, p0, x0, m, p, x)
    && (p < |g.nodes| && IsJump(g.nodes[p]) && !stale ==> m.state[p] <= x)
    && Potential(m) <= Potential(m0) && (stale ==> Potential(m) < Potential(m0))
  }

  // The arrival of x at p has been recorded.
  ghost predicate Covered(g: Program, v: nat, m: Marks, p: nat, x: set<Bit>) {
    p < |g.nodes| == |g.side| && p < |m.visited| == |m.state| && m.visited[p] && (Assigns(g, v, p) || x <= m.state[p])
  }

  // After the arrival at p: only the edges out of p are to be looked at.
  ghost predicate Stepped(g: Program, v: nat, m0: Marks, p0: nat, x0: set<Bit>, m: Marks, p: nat, x: set<Bit>) {
    && Good(g, v, m) && Shaped(g, v, m0) && Rises(m0, m) && p < |g.nodes| && m.visited[p] && x == Out(g, v, p, m.state[p])
    && Arrived(g, v, m0, p0, x0, m, p) && Potential(m) <= Potential(m0)
    && (forall q: nat :: Edge(g, p, q) ==> MayArrive(g, v, m, q, x))
    && (p + 1 < |g.nodes| && IsJump(g.nodes[p + 1]) ==> m.state[p + 1] <= x)
  }

  lemma FirstTurn(g: Program, v: nat, m: Marks, p: nat, x: set<Bit>)
    requires Good(g, v, m) && MayArrive(g, v, m, p, x) && (p < |g.nodes| && IsJump(g.nodes[p]) ==> m.state[p] <= x)
    ensures Turn(g, v, m, p, x, m, p, x, false) && Rises(m, m)
  {
    hide JumpsFollow, Justified, CarriedAll, Pending, Potential;
    StartPending(g, v, m, p, x);
  }

  lemma LastTurn(g: Program, v: nat, m0: Marks, p0: nat, x0: set<Bit>, m: Marks, p: nat, x: set<Bit>, stale: bool)
    requires Turn(g, v, m0, p0, x0, m, p, x, stale) && (p < |g.nodes| ==> p < |m.visited| == |m.state| && m.visited[p] && m.state[p] == x)
    ensures Good(g, v, m) && Rises(m0, m) && Progress(g, v, m0, m, p0, x0)
    ensures p == p0 && x == x0 && p < |g.nodes| ==> Covered(g, v, m, p0, x0)
  {
    hide Pending, Progress, Potential, JumpsFollow, Justified, CarriedAll;
    NothingPending(g, v, m0, p0, x0, m, p, x);
  }

  /** One arrival. At a jump, the marks rise, unless x is stale. */
  lemma ArrivalStep(g: Program, v: nat, m0: Marks, p0: nat, x0: set<Bit>, m: Marks, p: nat, x: set<Bit>, stale: bool)
    requires Turn(g, v, m0, p0, x0, m, p, x, stale) && p < |g.nodes| == |g.side| == |m.visited| == |m.state|
    requires !(m.visited[p] && m.state[p] == x)
    ensures var m1 := Arrive(g, v, m, p, x);
            && Stepped(g, v, m0, p0, x0, m1, p, Out(g, v, p, x + m.state[p])) && Potential(m1) <= Potential(m)
            && (IsJump(g.nodes[p]) ==> Potential(m1) < Potential(m0)) && (IsJump(g.nodes[p]) && !stale ==> Potential(m1) < Potential(m))
            && (Covered(g, v, m, p0, x0) ==> Covered(g, v, m1, p0, x0)) && Covered(g, v, m1, p, x)
  {
    hide Carried, Reachable, Out, Pending, Arrived, Potential;
    ArriveGood(g, v, m, p, x);
    var m1 := Arrive(g, v, m, p, x);
    RisesTrans(m0, m, m1);
    ArriveCloses(g, v, m0, p0, x0, m, p, x);
    PassedOn(g, v, m, p, x);
    PotentialFalls(m, m1, p);
  }

  lemma GotoTurn(g: Program, v: nat, m0: Marks, p0: nat, x0: set<Bit>, m: Marks, p: nat, x: set<Bit>)
    requires Stepped(g, v, m0, p0, x0, m, p, x) && IsGoto(g.nodes[p])
    ensures g.nodes[p].jump < |g.nodes| && Turn(g, v, m0, p0, x0, m, g.nodes[p].jump, x, false)
  {
    hide Out, Pending, Arrived, MayArrive, Potential, Justified, JumpsFollow;
    OneEdge(g, v, m0, p0, x0, m, p, g.nodes[p].jump, x);
    assert Edge(g, p, g.nodes[p].jump);
  }

  lemma PlainTurn(g: Program, v: nat, m0: Marks, p0: nat, x0: set<Bit>, m: Marks, p: nat, x: set<Bit>)
    requires Stepped(g, v, m0, p0, x0, m, p, x) && !IsJump(g.nodes[p])
    ensures Turn(g, v, m0, p0, x0, m, p + 1, x, false)
  {
    hide Out, Pending, Arrived, Potential, Justified, JumpsFollow, CarriedAll;
    OneEdge(g, v, m0, p0, x0, m, p, p + 1, x);
    assert p + 1 < |g.nodes| ==> Edge(g, p, p + 1);
  }

  // A fork may follow its jump.
  lemma IntoFork(g: Program, v: nat, m0: Marks, p0: nat, x0: set<Bit>, m: Marks, p: nat, x: set<Bit>)
    requires Stepped(g, v, m0, p0, x0, m, p, x) && IsFork(g.nodes[p])
    ensures var q := g.nodes[p].jump; q < |g.nodes| && !IsJump(g.nodes[q]) && Good(g, v, m) && MayArrive(g, v, m, q, x)
  {
    hide Out, Pending, Arrived, MayArrive, Potential, Justified, JumpsFollow;
    assert Edge(g, p, g.nodes[p].jump);
  }

  // The jump of a fork has been followed; x, about to reach the next node, may have become out of date.
  lemma AfterFork(g: Program, v: nat, m0: Marks, p0: nat, x0: set<Bit>, m: Marks, m': Marks, p: nat, x: set<Bit>)
    requires Stepped(g, v, m0, p0, x0, m, p, x) && IsFork(g.nodes[p]) && Potential(m) < Potential(m0)
    requires Good(g, v, m') && Rises(m, m') && Progress(g, v, m, m', g.nodes[p].jump, x)
    ensures Turn(g, v, m0, p0, x0, m', p + 1, x, true) && Potential(m') <= Potential(m)
    ensures Covered(g, v, m, p0, x0) ==> Covered(g, v, m', p0, x0)
  {
    hide Carried, Reachable, Out, Pending, Arrived, Progress, Potential, Justified, JumpsFollow;
    ForkEdge(g, v, m0, p0, x0, m, m', p, x);
    RisesTrans(m0, m, m');
    PotentialFalls(m, m', p);
    OutMonotone(g, v, p, m.state[p], m'.state[p]);
    assert p + 1 < |g.nodes| ==> Edge(g, p, p + 1);
  }

  // The side of the last of these nodes: inside after an odd number of block markers.
  function SideAfter(nodes: seq<Node>): Bit {
    if nodes == [] then Outside else
    var side := SideAfter(nodes[..|nodes| - 1]);
    if nodes[|nodes| - 1].typ != BlockMarker then side else if side == Inside then Outside else Inside
  }

  // The number of block markers among the nodes.
  function MarkersIn(nodes: seq<Node>): nat {
    if nodes == [] then 0 else MarkersIn(nodes[..|nodes| - 1]) + if nodes[|nodes| - 1].typ == BlockMarker then 1 else 0
  }

  /** The code outside the block is what an even number of block markers precedes, and the block is the rest. */
  lemma {:induction false} SideIsParity(nodes: seq<Node>)
    ensures SideAfter(nodes) == if MarkersIn(nodes) % 2 == 0 then Outside else Inside
  {
    if nodes != [] {
      SideIsParity(nodes[..|nodes| - 1]);
    }
  }

  lemma NothingMarked(g: Program, v: nat, m: Marks)
    requires ValidProgram(g) && |m.state| == |m.visited| == |g.nodes|
    requires forall p :: 0 <= p < |g.nodes| ==> m.state[p] == {} && !m.visited[p]
    ensures Good(g, v, m) && MayArrive(g, v, m, 0, {Analyzed})
  {
    if g.nodes != [] {
      var path: seq<nat> := [0];
      assert PathTo(g, path, 0) && Along(g, v, path) == {Analyzed};
      assert Carried(g, v, 0, Analyzed);
    }
  }

  lemma AllRecorded(g: Program, v: nat, m: Marks, m': Marks)
    requires Good(g, v, m) && Good(g, v, m') && Progress(g, v, m, m', 0, {Analyzed})
    requires forall p :: 0 <= p < |g.nodes| ==> !m.visited[p]
    requires |g.nodes| > 0 ==> Covered(g, v, m', 0, {Analyzed})
    ensures Exact(g, v, m')
  {
    hide Exact;
    forall p: nat, q: nat | Edge(g, p, q)
      ensures Closed(g, v, m', p, q)
    {
      assert Closed(g, v, m, p, q);
    }
    ClosedIsExact(g, v, m');
  }

  // Some use of v on this side has recorded the bit.
  ghost predicate InUse(g: Program, v: nat, m: Marks, b: Bit, side: Bit)
    requires |g.nodes| == |g.side| == |m.state|
  {
    exists p: nat :: Uses(g, v, p) && g.side[p] == side && b in m.state[p]
  }

  lemma UsagesMean(g: Program, v: nat, m: Marks, side: Bit)
    requires ValidProgram(g) && Exact(g, v, m) && side in {Inside, Outside}
    ensures forall b :: b != side ==> (InUse(g, v, m, b, side) <==> Reaches(g, v, b, side))
    ensures InUse(g, v, m, side, side) <==> Reaches(g, v, side, side) || IsAssigned(g, v, side)
  {
    hide Carried, Reachable;
    forall b
      ensures b != side ==> (InUse(g, v, m, b, side) <==> Reaches(g, v, b, side))
      ensures b == side ==> (InUse(g, v, m, b, side) <==> Reaches(g, v, b, side) || IsAssigned(g, v, side))
    {
      if InUse(g, v, m, b, side) {
        var p: nat :| Uses(g, v, p) && g.side[p] == side && b in m.state[p];
        UseMeans(g, v, m, b, side, p);
      }
      if Reaches(g, v, b, side) {
        var p: nat :| Reads(g, v, p) && g.side[p] == side && Carried(g, v, p, b);
        assert ExactAt(g, v, p, m.state[p], m.visited[p]);
        assert b in m.state[p];
      }
      if b == side && IsAssigned(g, v, side) {
        var p: nat :| Uses(g, v, p) && Assigns(g, v, p) && g.side[p] == side && Reachable(g, p);
        assert ExactAt(g, v, p, m.state[p], m.visited[p]);
        assert b in m.state[p];
      }
    }
  }

  lemma UseMeans(g: Program, v: nat, m: Marks, b: Bit, side: Bit, p: nat)
    requires ValidProgram(g) && Exact(g, v, m) && Uses(g, v, p) && g.side[p] == side && b in m.state[p]
    ensures Reaches(g, v, b, side) || (b == side && IsAssigned(g, v, side))
  {
    hide Carried, Reachable;
    assert ExactAt(g, v, p, m.state[p], m.visited[p]);
    CarriedReachable(g, v, p, b);
    if !Assigns(g, v, p) {
      assert Reads(g, v, p) && Carried(g, v, p, b);
    }
  }

  // A use in the block that control can reach has recorded something.
  lemma AnyUsage(g: Program, v: nat, m: Marks)
    requires ValidProgram(g) && Exact(g, v, m)
    ensures (exists b :: InUse(g, v, m, b, Inside)) <==> IsUsed(g, v, Inside)
  {
    hide Carried, Reachable;
    if IsUsed(g, v, Inside) {
      var p: nat :| Uses(g, v, p) && g.side[p] == Inside && Reachable(g, p);
      assert ExactAt(g, v, p, m.state[p], m.visited[p]);
      if Assigns(g, v, p) {
        assert InUse(g, v, m, Inside, Inside);
      } else {
        var b := SomethingCarried(g, v, p);
        assert b in m.state[p];
        assert InUse(g, v, m, b, Inside);
      }
    }
    if exists b :: InUse(g, v, m, b, Inside) {
      var b :| InUse(g, v, m, b, Inside);
      var p: nat :| Uses(g, v, p) && g.side[p] == Inside && b in m.state[p];
      assert ExactAt(g, v, p, m.state[p], m.visited[p]);
      CarriedReachable(g, v, p, b);
    }
  }

  lemma CarriedReachable(g: Program, v: nat, p: nat, b: Bit)
    requires |g.nodes| == |g.side|
    ensures Carried(g, v, p, b) ==> Reachable(g, p)
  {
  }

  lemma SomethingCarried(g: Program, v: nat, p: nat) returns (b: Bit)
    requires ValidProgram(g) && Reachable(g, p)
    ensures Carried(g, v, p, b)
  {
    var path :| PathTo(g, path, p);
    b := SomethingAlong(g, v, path);
  }

  lemma {:induction false} SomethingAlong(g: Program, v: nat, path: seq<nat>) returns (b: Bit)
    requires |g.nodes| == |g.side| && path != [] && forall i :: 0 <= i < |path| ==> path[i] < |g.nodes|
    ensures b in Along(g, v, path)
    decreases |path|
  {
    if |path| == 1 {
      b := Analyzed;
    } else {
      b := SomethingAlong(g, v, path[..|path| - 1]);
      if Resets(g, v, path[|path| - 2]) {
        b := g.side[path[|path| - 2]];
      }
    }
  }

  // isLocalVariable; items of other types than TypeDefault are not variables.
  predicate IsLocalVariable(x: Node, items: seq<Item>)
    requires x.item < |items|
  {
    && x.usage == Defined && x.typ == Default && items[x.item].isLocalName
    && items[x.item].storage in {AutoStorage, RegisterStorage, StaticStorage, ThreadLocalStorage}
  }

  // Node p alone has one of these classifications.
  ghost predicate IsOnly(cs: seq<ExtractClassification>, wanted: set<ExtractClassification>, p: nat) {
    p < |cs| && forall q :: 0 <= q < |cs| ==> (cs[q] in wanted <==> q == p)
  }

  lemma NotOnly(cs: seq<ExtractClassification>, wanted: set<ExtractClassification>, p: nat, op: nat)
    requires op < |cs| && cs[op] in wanted && exists q :: 0 <= q < |cs| && cs[q] in wanted && q != op
    ensures !IsOnly(cs, wanted, p)
  {
  }

  lemma NoneOnly(cs: seq<ExtractClassification>, wanted: set<ExtractClassification>)
    requires forall q :: 0 <= q < |cs| ==> cs[q] !in wanted
    ensures forall p: nat :: !IsOnly(cs, wanted, p)
  {
    forall p: nat
      ensures !IsOnly(cs, wanted, p)
    {
      assert p < |cs| ==> cs[p] !in wanted;
    }
  }

  lemma OnlyOnce(cs: seq<ExtractClassification>, wanted: set<ExtractClassification>, p: nat)
    requires IsOnly(cs, wanted, p)
    ensures forall q: nat :: IsOnly(cs, wanted, q) ==> q == p
  {
    forall q: nat | IsOnly(cs, wanted, q)
      ensures q == p
    {
      assert cs[p] in wanted;
    }
  }

  /** The classifications after reclassifyInOutVariables. */
  ghost function Reclassified(cs: seq<ExtractClassification>, extractFunction: bool): seq<ExtractClassification> {
    if !extractFunction then cs
    else if p: nat :| IsOnly(cs, {OutArgument, LocalOutArgument}, p) then
      cs[p := if cs[p] == LocalOutArgument then LocalResultValue else ResultValue]
    else if p: nat :| IsOnly(cs, {InOutArgument}, p) then cs[p := InResultValue]
    else cs
  }

  // Every jump leads to a label definition.
  ghost predicate JumpsResolved(nodes: seq<Node>) {
    forall p :: 0 <= p < |nodes| && IsJump(nodes[p]) ==> nodes[p].jump < |nodes| && !IsJump(nodes[nodes[p].jump])
  }

  // The program with the sides that the block markers give.
  function Sided(nodes: seq<Node>): Program {
    Program(nodes, seq(|nodes|, p requires 0 <= p < |nodes| => SideAfter(nodes[..p + 1])))
  }

  lemma SidedValid(nodes: seq<Node>)
    requires JumpsResolved(nodes)
    ensures ValidProgram(Sided(nodes))
  {
    forall q: seq<Node>
      ensures SideAfter(q) in {Inside, Outside}
    {
      SideIsParity(q);
    }
  }

  ghost function ClassifiedAll(g: Program, items: seq<Item>): seq<ExtractClassification>
    requires |g.nodes| == |g.side| && forall p :: 0 <= p < |g.nodes| ==> g.nodes[p].item < |items|
  {
    seq(|g.nodes|, p requires 0 <= p < |g.nodes| =>
          if IsLocalVariable(g.nodes[p], items) then Classified(g, items, p) else NoClassification)
  }

  predicate IsResult(c: ExtractClassification) {
    c in {ResultValue, InResultValue, LocalResultValue}
  }

  lemma ClassifiedNoResult(g: Program, items: seq<Item>)
    requires |g.nodes| == |g.side| && forall p :: 0 <= p < |g.nodes| ==> g.nodes[p].item < |items|
    ensures forall p :: 0 <= p < |g.nodes| ==> !IsResult(ClassifiedAll(g, items)[p])
  {
  }

  /** At most one variable becomes the result value, it was to be passed out before, and all others stay as
      they were. When just one variable was to be passed out only, it is the one; when not, but just one was to
      be passed both ways, that is; and otherwise there is none. */
  lemma AtMostOneResult(cs: seq<ExtractClassification>, extractFunction: bool)
    requires forall p :: 0 <= p < |cs| ==> !IsResult(cs[p])
    ensures var cs' := Reclassified(cs, extractFunction);
            && |cs'| == |cs|
            && (forall p, q :: 0 <= p < |cs| && 0 <= q < |cs| && IsResult(cs'[p]) && IsResult(cs'[q]) ==> p == q)
            && (forall p :: 0 <= p < |cs| && !IsResult(cs'[p]) ==> cs'[p] == cs[p])
            && (forall p :: 0 <= p < |cs| && IsResult(cs'[p]) ==>
                  extractFunction && cs[p] == match cs'[p] case ResultValue => OutArgument case LocalResultValue => LocalOutArgument case _ => InOutArgument)
            && (forall p: nat :: extractFunction && IsOnly(cs, {OutArgument, LocalOutArgument}, p) ==> IsResult(cs'[p]))
            && (forall p: nat :: extractFunction && IsOnly(cs, {InOutArgument}, p) && (forall q: nat :: !IsOnly(cs, {OutArgument, LocalOutArgument}, q))
                  ==> IsResult(cs'[p]))
            && ((forall p: nat :: !IsOnly(cs, {OutArgument, LocalOutArgument}, p) && !IsOnly(cs, {InOutArgument}, p)) ==> cs' == cs)
  {
    forall wanted, p: nat | IsOnly(cs, wanted, p)
      ensures forall q: nat :: IsOnly(cs, wanted, q) ==> q == p
    {
      OnlyOnce(cs, wanted, p);
    }
  }
}
