/** Control flow of a function as a list of reference nodes, and the values that reach each node
    (src/extract_internal.h, src/extract.c). */
module Dataflow {
  datatype Usage = Defined | Declared | LvalUsed | AddrUsed | Used | Fork | None

  datatype ItemType = Default | Label | BlockMarker | Other

  /** DataFlowBits: the node has been reached; the value was set inside or outside the block; a value set
      inside has left the block; a value set outside has left the block. */
  datatype Bit = Analyzed | Inside | Outside | Reenter | Passing

  /** A node of the program graph: what it refers to and how, and for gotos and forks the node of the label.
      The next node is the one that follows in the list. */
  datatype Node = Node(item: nat, typ: ItemType, usage: Usage, jump: nat)

  datatype Program = Program(nodes: seq<Node>, side: seq<Bit>)

  predicate IsGoto(x: Node) {
    x.typ == Label && x.usage == Used
  }

  predicate IsFork(x: Node) {
    x.typ == Label && x.usage == Fork
  }

  predicate IsJump(x: Node) {
    IsGoto(x) || IsFork(x)
  }

  /** Every node is inside or outside the block, and every jump is resolved to a label definition. */
  ghost predicate ValidProgram(g: Program) {
    && |g.side| == |g.nodes| && (forall p :: 0 <= p < |g.side| ==> g.side[p] in {Inside, Outside})
    && (forall p :: 0 <= p < |g.nodes| && IsJump(g.nodes[p]) ==> g.nodes[p].jump < |g.nodes| && !IsJump(g.nodes[g.nodes[p].jump]))
  }

  // Node p gives variable v a value of its own, and forgets where the old one came from.
  predicate Assigns(g: Program, v: nat, p: nat)
    requires p < |g.nodes|
  {
    g.nodes[p].item == v && (g.nodes[p].usage == LvalUsed || g.nodes[p].usage == Defined)
  }

  // From node p on, the value of v may be one set at p.
  predicate Resets(g: Program, v: nat, p: nat)
    requires p < |g.nodes|
  {
    g.nodes[p].item == v && (g.nodes[p].usage == AddrUsed || g.nodes[p].usage == LvalUsed || g.nodes[p].usage == Defined)
  }

  // Control leaves the block at node p.
  predicate Leaves(g: Program, v: nat, p: nat)
    requires p < |g.nodes| == |g.side|
  {
    g.nodes[p].item != v && g.nodes[p].typ == BlockMarker && g.side[p] != Inside
  }

  // What node p passes on when it is reached with x.
  function Out(g: Program, v: nat, p: nat, x: set<Bit>): set<Bit>
    requires p < |g.nodes| == |g.side|
  {
    if Resets(g, v, p) then {g.side[p]}
    else if Leaves(g, v, p) then x + (if Inside in x then {Reenter} else {}) + (if Outside in x then {Passing} else {})
    else x
  }

  ghost predicate Edge(g: Program, p: nat, q: nat) {
    p < |g.nodes| && q < |g.nodes| &&
    if IsGoto(g.nodes[p]) then q == g.nodes[p].jump else q == p + 1 || (IsFork(g.nodes[p]) && q == g.nodes[p].jump)
  }

  /** A control path from the first node. */
  ghost predicate IsPath(g: Program, path: seq<nat>) {
    && path != [] && path[0] == 0 && (forall i :: 0 <= i < |path| ==> path[i] < |g.nodes|)
    && forall i :: 0 <= i < |path| - 1 ==> Edge(g, path[i], path[i + 1])
  }

  // What arrives at the end of a path.
  ghost function Along(g: Program, v: nat, path: seq<nat>): set<Bit>
    requires |g.nodes| == |g.side| && path != [] && forall i :: 0 <= i < |path| ==> path[i] < |g.nodes|
  {
    if |path| == 1 then {Analyzed} else Out(g, v, path[|path| - 2], Along(g, v, path[..|path| - 1]))
  }

  ghost predicate PathTo(g: Program, path: seq<nat>, p: nat) {
    IsPath(g, path) && path[|path| - 1] == p
  }

  ghost predicate Reachable(g: Program, p: nat) {
    exists path :: PathTo(g, path, p)
  }

  /** Some control path carries the bit to node p. */
  ghost predicate Carried(g: Program, v: nat, p: nat, b: Bit)
    requires |g.nodes| == |g.side|
  {
    exists path :: PathTo(g, path, p) && b in Along(g, v, path)
  }

  ghost predicate CarriedAll(g: Program, v: nat, p: nat, x: set<Bit>)
    requires |g.nodes| == |g.side|
  {
    Reachable(g, p) && forall b :: b in x ==> Carried(g, v, p, b)
  }

  lemma ExtendPath(g: Program, v: nat, path: seq<nat>, p: nat, q: nat)
    requires |g.nodes| == |g.side| && PathTo(g, path, p) && Edge(g, p, q)
    ensures PathTo(g, path + [q], q) && Along(g, v, path + [q]) == Out(g, v, p, Along(g, v, path))
  {
    var path' := path + [q];
    assert path'[..|path'| - 1] == path;
    forall i | 0 <= i < |path'| - 1
      ensures Edge(g, path'[i], path'[i + 1])
    {
      if i < |path| - 1 {
        assert Edge(g, path[i], path[i + 1]);
      }
    }
  }

  /** What is carried to a node is carried on, along every edge. */
  lemma CarriedOn(g: Program, v: nat, p: nat, q: nat, x: set<Bit>)
    requires |g.nodes| == |g.side| && CarriedAll(g, v, p, x) && Edge(g, p, q)
    ensures CarriedAll(g, v, q, Out(g, v, p, x))
  {
    var path0 :| PathTo(g, path0, p);
    ExtendPath(g, v, path0, p, q);
    forall b | b in Out(g, v, p, x)
      ensures Carried(g, v, q, b)
    {
      if Resets(g, v, p) {
        assert b in Along(g, v, path0 + [q]);
      } else {
        var c := if b in x then b else if b == Reenter then Inside else Outside;
        assert Carried(g, v, p, c);
        var path :| PathTo(g, path, p) && c in Along(g, v, path);
        ExtendPath(g, v, path, p, q);
      }
    }
  }

  /** The fields state and visited of all nodes. */
  datatype Marks = Marks(state: seq<set<Bit>>, visited: seq<bool>)

  ghost predicate Shaped(g: Program, v: nat, m: Marks) {
    && |m.state| == |m.visited| == |g.nodes| == |g.side|
    && (forall p: nat :: p < |g.nodes| && !m.visited[p] ==> m.state[p] == {})
    && (forall p: nat :: p < |g.nodes| && m.visited[p] && Assigns(g, v, p) ==> m.state[p] == {g.side[p]})
  }

  // Only what some path carries has been recorded.
  ghost predicate Justified(g: Program, v: nat, m: Marks)
    requires Shaped(g, v, m)
  {
    forall p: nat :: p < |g.nodes| && m.visited[p] ==> Reachable(g, p) && (Assigns(g, v, p) || CarriedAll(g, v, p, m.state[p]))
  }

  // What p passes on has been recorded at q.
  ghost predicate Closed(g: Program, v: nat, m: Marks, p: nat, q: nat)
    requires Shaped(g, v, m) && Edge(g, p, q)
  {
    m.visited[p] ==> m.visited[q] && (Assigns(g, v, q) || Out(g, v, p, m.state[p]) <= m.state[q])
  }

  // m' records all that m does.
  ghost predicate Rises(m: Marks, m': Marks) {
    && |m.state| == |m.visited| == |m'.state| == |m'.visited|
    && forall p :: 0 <= p < |m.state| ==> (m.visited[p] ==> m'.visited[p]) && m.state[p] <= m'.state[p]
  }

  /** A goto or a fork can only be entered from the node before it, and has recorded no more than that passes
      on. */
  ghost predicate JumpsFollow(g: Program, v: nat, m: Marks)
    requires Shaped(g, v, m)
  {
    forall p: nat :: 0 < p < |g.nodes| && IsJump(g.nodes[p]) ==> m.state[p] <= (if m.visited[p - 1] then Out(g, v, p - 1, m.state[p - 1]) else {})
  }

  /** Node p is reached with x. */
  function Arrive(g: Program, v: nat, m: Marks, p: nat, x: set<Bit>): Marks
    requires p < |g.nodes| == |g.side| == |m.state| == |m.visited|
  {
    Marks(m.state[p := if Assigns(g, v, p) then {g.side[p]} else x + m.state[p]], m.visited[p := true])
  }

  lemma OutMonotone(g: Program, v: nat, p: nat, x: set<Bit>, y: set<Bit>)
    requires p < |g.nodes| == |g.side| && x <= y
    ensures Out(g, v, p, x) <= Out(g, v, p, y)
  {
  }

  // An arrival may come from the node before, or by a jump to a node that is not itself a jump.
  ghost predicate MayArrive(g: Program, v: nat, m: Marks, p: nat, x: set<Bit>)
    requires Shaped(g, v, m)
  {
    p < |g.nodes| ==>
      && CarriedAll(g, v, p, x)
      && (0 < p && IsJump(g.nodes[p]) ==> m.visited[p - 1] && x <= Out(g, v, p - 1, m.state[p - 1]))
  }

  ghost predicate Good(g: Program, v: nat, m: Marks) {
    ValidProgram(g) && Shaped(g, v, m) && Justified(g, v, m) && JumpsFollow(g, v, m)
  }

  lemma ArriveGood(g: Program, v: nat, m: Marks, p: nat, x: set<Bit>)
    requires Good(g, v, m) && p < |g.nodes| && MayArrive(g, v, m, p, x)
    ensures Good(g, v, Arrive(g, v, m, p, x)) && Rises(m, Arrive(g, v, m, p, x))
    ensures Out(g, v, p, x + m.state[p]) == Out(g, v, p, Arrive(g, v, m, p, x).state[p])
  {
    hide ValidProgram, Reachable, Carried, Out;
    var m' := Arrive(g, v, m, p, x);
    OutHere(g, v, m, p, x);
    forall q: nat | 0 < q < |g.nodes| && IsJump(g.nodes[q])
      ensures m'.state[q] <= (if m'.visited[q - 1] then Out(g, v, q - 1, m'.state[q - 1]) else {})
    {
      if q - 1 == p && m.visited[p] {
        OutMonotone(g, v, p, m.state[p], m'.state[p]);
      }
    }
  }

  // What p passes on is carried to its successors.
  lemma PassedOn(g: Program, v: nat, m: Marks, p: nat, x: set<Bit>)
    requires Shaped(g, v, m) && Justified(g, v, m) && p < |g.nodes| && CarriedAll(g, v, p, x)
    ensures forall q: nat :: Edge(g, p, q) ==> CarriedAll(g, v, q, Out(g, v, p, x + m.state[p]))
  {
    hide Carried, Reachable, Edge;
    var y := if Assigns(g, v, p) then x else x + m.state[p];
    assert CarriedAll(g, v, p, y) && Out(g, v, p, y) == Out(g, v, p, x + m.state[p]);
    forall q: nat | Edge(g, p, q)
      ensures CarriedAll(g, v, q, Out(g, v, p, x + m.state[p]))
    {
      CarriedOn(g, v, p, q, y);
    }
  }

  lemma OutHere(g: Program, v: nat, m: Marks, p: nat, x: set<Bit>)
    requires Shaped(g, v, m) && Justified(g, v, m) && p < |g.nodes| && CarriedAll(g, v, p, x)
    ensures Out(g, v, p, x + m.state[p]) == Out(g, v, p, Arrive(g, v, m, p, x).state[p])
    ensures m.state[p] <= Arrive(g, v, m, p, x).state[p]
    ensures !m.visited[p] ==> m.state[p] == {}
    ensures Assigns(g, v, p) || CarriedAll(g, v, p, Arrive(g, v, m, p, x).state[p])
  {
    hide Carried, Reachable;
  }

  /** The edge was open in m0, is so still, and is not one that the arrival of x at p closes. */
  ghost predicate Left(g: Program, v: nat, m0: Marks, m: Marks, u: nat, w: nat, p: nat, x: set<Bit>)
    requires Shaped(g, v, m0) && Shaped(g, v, m) && Edge(g, u, w)
  {
    && !Closed(g, v, m0, u, w) && m.state[u] == m0.state[u] && m.visited[u] == m0.visited[u]
    && !(w == p && Out(g, v, u, m0.state[u]) <= x)
  }

  /** What the analysis does when it reaches p with x: it closes every edge that this closes and every edge out
      of a node whose marks it has changed, and leaves no closed edge open. */
  ghost predicate Progress(g: Program, v: nat, m0: Marks, m: Marks, p: nat, x: set<Bit>)
    requires Shaped(g, v, m0) && Shaped(g, v, m)
  {
    forall u: nat, w: nat {:trigger Edge(g, u, w)} :: Edge(g, u, w) ==> Closed(g, v, m, u, w) || Left(g, v, m0, m, u, w, p, x)
  }

  // So far, with x about to reach p.
  ghost predicate Pending(g: Program, v: nat, m0: Marks, p0: nat, x0: set<Bit>, m: Marks, p: nat, x: set<Bit>)
    requires Shaped(g, v, m0) && Shaped(g, v, m)
  {
    forall u: nat, w: nat {:trigger Edge(g, u, w)} :: Edge(g, u, w) ==>
      Closed(g, v, m, u, w) || Left(g, v, m0, m, u, w, p0, x0) || (w == p && Out(g, v, u, m.state[u]) <= x)
  }

  // So far, with only the edges out of p to be looked at.
  ghost predicate Arrived(g: Program, v: nat, m0: Marks, p0: nat, x0: set<Bit>, m: Marks, p: nat)
    requires Shaped(g, v, m0) && Shaped(g, v, m)
  {
    forall u: nat, w: nat {:trigger Edge(g, u, w)} :: Edge(g, u, w) ==>
      Closed(g, v, m, u, w) || Left(g, v, m0, m, u, w, p0, x0) || u == p
  }

  lemma ArriveCloses(g: Program, v: nat, m0: Marks, p0: nat, x0: set<Bit>, m: Marks, p: nat, x: set<Bit>)
    requires Shaped(g, v, m0) && Shaped(g, v, m) && p < |g.nodes| && Pending(g, v, m0, p0, x0, m, p, x)
    requires Shaped(g, v, Arrive(g, v, m, p, x)) && Rises(m, Arrive(g, v, m, p, x))
    ensures Arrived(g, v, m0, p0, x0, Arrive(g, v, m, p, x), p)
  {
    hide Out;
    var m' := Arrive(g, v, m, p, x);
    forall u: nat, w: nat | Edge(g, u, w)
      ensures Closed(g, v, m', u, w) || Left(g, v, m0, m', u, w, p0, x0) || u == p
    {
      if u != p && !Closed(g, v, m, u, w) && !Left(g, v, m0, m, u, w, p0, x0) {
        assert w == p && Out(g, v, u, m.state[u]) <= x;
      }
    }
  }

  // A plain node or a goto: only one edge is left to be looked at.
  lemma OneEdge(g: Program, v: nat, m0: Marks, p0: nat, x0: set<Bit>, m: Marks, p: nat, q: nat, x: set<Bit>)
    requires Shaped(g, v, m0) && Shaped(g, v, m) && p < |g.nodes| && Arrived(g, v, m0, p0, x0, m, p) && Out(g, v, p, m.state[p]) <= x
    requires if IsGoto(g.nodes[p]) then q == g.nodes[p].jump else q == p + 1 && !IsFork(g.nodes[p])
    ensures Pending(g, v, m0, p0, x0, m, q, x)
  {
    hide Out, Closed, Left;
  }

  // A fork, after the jump has been followed: the edge to the next node may be left.
  lemma ForkEdge(g: Program, v: nat, m0: Marks, p0: nat, x0: set<Bit>, m: Marks, m': Marks, p: nat, x: set<Bit>)
    requires Shaped(g, v, m0) && Shaped(g, v, m) && Shaped(g, v, m') && p < |g.nodes| && IsFork(g.nodes[p])
    requires Arrived(g, v, m0, p0, x0, m, p) && Out(g, v, p, m.state[p]) == x && Progress(g, v, m, m', g.nodes[p].jump, x)
    ensures Pending(g, v, m0, p0, x0, m', p + 1, x)
  {
    hide Out;
  }

  lemma NothingPending(g: Program, v: nat, m0: Marks, p0: nat, x0: set<Bit>, m: Marks, p: nat, x: set<Bit>)
    requires Shaped(g, v, m0) && Shaped(g, v, m) && Pending(g, v, m0, p0, x0, m, p, x)
    requires p < |g.nodes| ==> m.visited[p] && (Assigns(g, v, p) || x <= m.state[p])
    ensures Progress(g, v, m0, m, p0, x0)
  {
    hide Out, Left;
  }

  lemma StartPending(g: Program, v: nat, m: Marks, p: nat, x: set<Bit>)
    requires Shaped(g, v, m)
    ensures Pending(g, v, m, p, x, m, p, x)
  {
    hide Out;
  }

  /** How much the marks can still rise: nodes not visited and bits not set. */
  function Missing(s: set<Bit>): nat {
    (if Analyzed in s then 0 else 1) + (if Inside in s then 0 else 1) + (if Outside in s then 0 else 1)
    + (if Reenter in s then 0 else 1) + (if Passing in s then 0 else 1)
  }

  function Potential(m: Marks): nat
    requires |m.state| == |m.visited|
    decreases |m.state|
  {
    if m.state == [] then 0 else
    var n := |m.state| - 1;
    Potential(Marks(m.state[..n], m.visited[..n])) + Missing(m.state[n]) + if m.visited[n] then 0 else 1
  }

  lemma MissingLess(s: set<Bit>, t: set<Bit>)
    requires s <= t
    ensures Missing(t) <= Missing(s) && (s != t ==> Missing(t) < Missing(s))
  {
    if Missing(t) == Missing(s) {
      forall b: Bit
        ensures b in s <==> b in t
      {
        match b
        case Analyzed =>
        case Inside =>
        case Outside =>
        case Reenter =>
        case Passing =>
      }
    }
  }

  lemma {:induction false} PotentialFalls(m: Marks, m': Marks, p: nat)
    requires Rises(m, m')
    ensures Potential(m') <= Potential(m)
    ensures p < |m.state| && (m.state[p] != m'.state[p] || m.visited[p] != m'.visited[p]) ==> Potential(m') < Potential(m)
    decreases |m.state|
  {
    hide Missing;
    if m.state != [] {
      var n := |m.state| - 1;
      MissingLess(m.state[n], m'.state[n]);
      PotentialFalls(Marks(m.state[..n], m.visited[..n]), Marks(m'.state[..n], m'.visited[..n]), p);
    }
  }

  lemma RisesTrans(m: Marks, m': Marks, m'': Marks)
    requires Rises(m, m') && Rises(m', m'')
    ensures Rises(m, m'')
  {
  }

  /** The marks are the meet over all paths: a node is visited if and only if control can reach it, and then
      its state is the union of what the control paths carry to it; at an assignment, it is the assignment's
      own side. */
  ghost predicate Exact(g: Program, v: nat, m: Marks) {
    && |m.state| == |m.visited| == |g.nodes| == |g.side|
    && forall p: nat :: p < |g.nodes| ==> ExactAt(g, v, p, m.state[p], m.visited[p])
  }

  ghost predicate ExactAt(g: Program, v: nat, p: nat, state: set<Bit>, visited: bool)
    requires p < |g.nodes| == |g.side|
  {
    && (visited <==> Reachable(g, p))
    && if Assigns(g, v, p) && visited then state == {g.side[p]} else forall b: Bit {:trigger b in state} :: b in state <==> Carried(g, v, p, b)
  }

  ghost predicate AllClosed(g: Program, v: nat, m: Marks)
    requires Shaped(g, v, m)
  {
    forall p: nat, q: nat {:trigger Edge(g, p, q)} :: Edge(g, p, q) ==> Closed(g, v, m, p, q)
  }

  lemma {:induction false} PathRecorded(g: Program, v: nat, m: Marks, path: seq<nat>, p: nat)
    requires Shaped(g, v, m) && AllClosed(g, v, m) && PathTo(g, path, p) && m.visited[0] && (Assigns(g, v, 0) || Analyzed in m.state[0])
    ensures m.visited[p] && (Assigns(g, v, p) || Along(g, v, path) <= m.state[p])
    decreases |path|
  {
    if |path| > 1 {
      var path', q := path[..|path| - 1], path[|path| - 2];
      assert forall i :: 0 <= i < |path'| ==> path'[i] == path[i];
      PathRecorded(g, v, m, path', q);
      assert Edge(g, path[|path| - 2], path[|path| - 1]);
      assert Closed(g, v, m, q, p);
      if !Assigns(g, v, q) {
        OutMonotone(g, v, q, Along(g, v, path'), m.state[q]);
      }
    }
  }

  lemma ClosedIsExact(g: Program, v: nat, m: Marks)
    requires Good(g, v, m) && AllClosed(g, v, m)
    requires |g.nodes| > 0 ==> m.visited[0] && (Assigns(g, v, 0) || Analyzed in m.state[0])
    ensures Exact(g, v, m)
  {
    hide Along, Closed, AllClosed, Out;
    forall p: nat | p < |g.nodes|
      ensures ExactAt(g, v, p, m.state[p], m.visited[p])
    {
      if Reachable(g, p) {
        var path :| PathTo(g, path, p);
        PathRecorded(g, v, m, path, p);
      }
      forall b: Bit | Carried(g, v, p, b)
        ensures m.visited[p] && (Assigns(g, v, p) || b in m.state[p])
      {
        var path :| PathTo(g, path, p) && b in Along(g, v, path);
        PathRecorded(g, v, m, path, p);
      }
    }
  }

  /** The path carries, from its i-th node, a value of v set on this side: nothing on the way resets v. */
  ghost predicate SetAt(g: Program, v: nat, path: seq<nat>, i: nat, b: Bit)
    requires |g.nodes| == |g.side| && forall k :: 0 <= k < |path| ==> path[k] < |g.nodes|
  {
    && i < |path| - 1 && Resets(g, v, path[i]) && g.side[path[i]] == b
    && forall j :: i < j < |path| - 1 ==> !Resets(g, v, path[j])
  }

  // After its i-th node, the path leaves the block.
  ghost predicate LeavesAfter(g: Program, v: nat, path: seq<nat>, i: nat)
    requires |g.nodes| == |g.side| && forall k :: 0 <= k < |path| ==> path[k] < |g.nodes|
  {
    exists j :: i < j < |path| - 1 && Leaves(g, v, path[j])
  }

  // The path carries a value of v set on this side.
  ghost predicate SetOn(g: Program, v: nat, path: seq<nat>, b: Bit)
    requires |g.nodes| == |g.side| && forall k :: 0 <= k < |path| ==> path[k] < |g.nodes|
  {
    exists i: nat :: SetAt(g, v, path, i, b)
  }

  // The path carries a value of v set on this side, and has left the block since.
  ghost predicate SetAndLeft(g: Program, v: nat, path: seq<nat>, b: Bit)
    requires |g.nodes| == |g.side| && forall k :: 0 <= k < |path| ==> path[k] < |g.nodes|
  {
    exists i: nat :: SetAt(g, v, path, i, b) && LeavesAfter(g, v, path, i)
  }

  // What the bits of a value say about the path that carries it.
  ghost predicate Means(g: Program, v: nat, path: seq<nat>, b: Bit)
    requires |g.nodes| == |g.side| && forall k :: 0 <= k < |path| ==> path[k] < |g.nodes|
  {
    match b
    case Analyzed => forall j :: 0 <= j < |path| - 1 ==> !Resets(g, v, path[j])
    case Inside => SetOn(g, v, path, Inside)
    case Outside => SetOn(g, v, path, Outside)
    case Reenter => SetAndLeft(g, v, path, Inside)
    case Passing => SetAndLeft(g, v, path, Outside)
  }

  lemma SetAtPrefix(g: Program, v: nat, path: seq<nat>, i: nat, b: Bit)
    requires ValidProgram(g) && |path| > 1 && (forall k :: 0 <= k < |path| ==> path[k] < |g.nodes|) && i < |path| - 2
    ensures !Resets(g, v, path[|path| - 2]) ==> (SetAt(g, v, path, i, b) <==> SetAt(g, v, path[..|path| - 1], i, b))
    ensures Resets(g, v, path[|path| - 2]) ==> !SetAt(g, v, path, i, b)
    ensures LeavesAfter(g, v, path, i) <==> LeavesAfter(g, v, path[..|path| - 1], i) || Leaves(g, v, path[|path| - 2])
  {
    var n, path' := |path| - 2, path[..|path| - 1];
    assert forall k :: 0 <= k < |path'| ==> path'[k] == path[k];
    if LeavesAfter(g, v, path, i) {
      var j :| i < j < |path| - 1 && Leaves(g, v, path[j]);
      assert j == n || Leaves(g, v, path'[j]);
    }
    if LeavesAfter(g, v, path', i) {
      var j :| i < j < |path'| - 1 && Leaves(g, v, path'[j]);
      assert Leaves(g, v, path[j]);
    }
  }

  lemma SetOnStep(g: Program, v: nat, path: seq<nat>, path': seq<nat>, n: nat, b: Bit)
    requires ValidProgram(g) && |path| == n + 2 && path' == path[..n + 1] && forall k :: 0 <= k < |path| ==> path[k] < |g.nodes|
    ensures SetOn(g, v, path, b) <==> if Resets(g, v, path[n]) then g.side[path[n]] == b else SetOn(g, v, path', b)
    ensures SetAndLeft(g, v, path, b) <==> !Resets(g, v, path[n]) && (if Leaves(g, v, path[n]) then SetOn(g, v, path', b) else SetAndLeft(g, v, path', b))
  {
    hide ValidProgram, LeavesAfter;
    SetLast(g, v, path, path', n, b);
    forall i: nat | i < n
      ensures !Resets(g, v, path[n]) ==> (SetAt(g, v, path, i, b) <==> SetAt(g, v, path', i, b))
      ensures Resets(g, v, path[n]) ==> !SetAt(g, v, path, i, b)
      ensures LeavesAfter(g, v, path, i) <==> LeavesAfter(g, v, path', i) || Leaves(g, v, path[n])
    {
      SetAtPrefix(g, v, path, i, b);
    }
    if SetOn(g, v, path', b) {
      var i: nat :| SetAt(g, v, path', i, b);
      assert i < n;
    }
    if SetAndLeft(g, v, path', b) {
      var i: nat :| SetAt(g, v, path', i, b) && LeavesAfter(g, v, path', i);
      assert i < n && LeavesAfter(g, v, path, i);
    }
  }

  // The last node that can set the value, and the ones behind it, which cannot.
  lemma SetLast(g: Program, v: nat, path: seq<nat>, path': seq<nat>, n: nat, b: Bit)
    requires ValidProgram(g) && |path| == n + 2 && path' == path[..n + 1] && forall k :: 0 <= k < |path| ==> path[k] < |g.nodes|
    ensures |g.nodes| == |g.side| && (g.side[path[n]] == Inside || g.side[path[n]] == Outside)
    ensures SetAt(g, v, path, n, b) <==> Resets(g, v, path[n]) && g.side[path[n]] == b
    ensures forall i: nat :: i > n ==> !SetAt(g, v, path, i, b)
    ensures forall i: nat :: i >= n ==> !SetAt(g, v, path', i, b)
    ensures !LeavesAfter(g, v, path, n)
  {
  }

  /** A bit arrives at the end of a path just if the value was set on that side, and has or has not left the
      block since, as the bit says. */
  lemma {:induction false} BitMeans(g: Program, v: nat, path: seq<nat>, b: Bit)
    requires ValidProgram(g) && path != [] && forall k :: 0 <= k < |path| ==> path[k] < |g.nodes|
    ensures b in Along(g, v, path) <==> Means(g, v, path, b)
    decreases |path|
  {
    if |path| > 1 {
      var n, path' := |path| - 2, path[..|path| - 1];
      assert forall k :: 0 <= k < |path'| ==> path'[k] == path[k];
      BitMeans(g, v, path', b);
      BitMeans(g, v, path', Inside);
      BitMeans(g, v, path', Outside);
      SetLast(g, v, path, path', n, b);
      SetOnStep(g, v, path, path', n, Inside);
      SetOnStep(g, v, path, path', n, Outside);
    }
  }
}
