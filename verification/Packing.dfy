/** Comb packing of the action rows and goto columns into one table and its check (byacc-1.9/output.c). */
module Packing {
  import opened Wrappers
  import opened Seqs
  import opened Driver

  const MAXTABLE := 32500

  /** Vector i has the entry tos[i][k] at column froms[i][k]. The first nrows vectors are rows of shifts and
      of reductions over tokens, the others are columns of gotos over a nonterminal. */
  datatype Vectors = Vectors(nrows: nat, froms: seq<seq<int>>, tos: seq<seq<int>>, tally: seq<nat>, width: seq<int>)

  function Least(q: seq<int>): int
    requires q != []
  {
    if |q| == 1 then q[0] else var m := Least(q[..|q| - 1]); if q[|q| - 1] < m then q[|q| - 1] else m
  }

  function Greatest(q: seq<int>): int
    requires q != []
  {
    if |q| == 1 then q[0] else var m := Greatest(q[..|q| - 1]); if m < q[|q| - 1] then q[|q| - 1] else m
  }

  // The number of columns from the first entry of a vector to its last.
  function Span(q: seq<int>): int {
    if q == [] then 0 else Greatest(q) - Least(q) + 1
  }

  ghost predicate ValidVector(v: Vectors, i: nat)
    requires i < |v.froms| == |v.tos| == |v.tally| == |v.width|
  {
    && |v.froms[i]| == |v.tos[i]| == v.tally[i] && v.width[i] == Span(v.froms[i])
    && Distinct(v.froms[i]) && forall k :: 0 <= k < |v.froms[i]| ==> v.froms[i][k] >= 0
  }

  ghost predicate ValidVectors(v: Vectors) {
    && |v.froms| == |v.tos| == |v.tally| == |v.width|
    && forall i: nat :: i < |v.froms| ==> ValidVector(v, i)
  }

  // The entry of a vector in column c.
  function Find(from: seq<int>, to: seq<int>, c: int): Option<int>
    requires |from| == |to|
  {
    if from == [] then None
    else if from[|from| - 1] == c then Some(to[|to| - 1])
    else Find(from[..|from| - 1], to[..|to| - 1], c)
  }

  lemma {:induction false} FindExact(from: seq<int>, to: seq<int>, c: int)
    requires |from| == |to| && Distinct(from)
    ensures forall k :: 0 <= k < |from| && from[k] == c ==> Find(from, to, c) == Some(to[k])
    ensures Find(from, to, c).None? <==> c !in from
    ensures Find(from, to, c).Some? ==> exists k :: 0 <= k < |from| && from[k] == c && to[k] == Find(from, to, c).value
  {
    if from != [] {
      var from', to' := from[..|from| - 1], to[..|to| - 1];
      FindExact(from', to', c);
      assert from == from' + [from[|from| - 1]];
      if Find(from', to', c).Some? {
        var k :| 0 <= k < |from'| && from'[k] == c && to'[k] == Find(from', to', c).value;
        assert from[k] == c && to[k] == to'[k];
      }
    }
  }

  lemma {:induction false} LeastIs(q: seq<int>)
    requires q != []
    ensures Least(q) in q && forall k :: 0 <= k < |q| ==> Least(q) <= q[k]
  {
    if |q| > 1 {
      LeastIs(q[..|q| - 1]);
      assert q == q[..|q| - 1] + [q[|q| - 1]];
    }
  }

  lemma {:induction false} GreatestIs(q: seq<int>)
    requires q != []
    ensures Greatest(q) in q && forall k :: 0 <= k < |q| ==> q[k] <= Greatest(q)
  {
    if |q| > 1 {
      GreatestIs(q[..|q| - 1]);
      assert q == q[..|q| - 1] + [q[|q| - 1]];
    }
  }

  // Vector i is packed before vector j: wider ones first, then fuller ones, then earlier ones.
  predicate Ahead(v: Vectors, i: nat, j: nat)
    requires i < |v.tally| == |v.width| && j < |v.tally|
  {
    v.width[i] > v.width[j] ||
    (v.width[i] == v.width[j] && (v.tally[i] > v.tally[j] || (v.tally[i] == v.tally[j] && i < j)))
  }

  ghost predicate Sorted(v: Vectors, order: seq<nat>)
    requires |v.tally| == |v.width|
  {
    (forall k :: 0 <= k < |order| ==> order[k] < |v.tally|) &&
    forall j, k :: 0 <= j < k < |order| ==> Ahead(v, order[j], order[k])
  }

  // The order of the vectors that have entries.
  ghost predicate IsOrder(v: Vectors, order: seq<nat>)
    requires |v.tally| == |v.width|
  {
    Sorted(v, order) && forall i: nat :: i in order <==> i < |v.tally| && v.tally[i] > 0
  }

  lemma SortedInsert(v: Vectors, order: seq<nat>, n: nat, i: nat, q: seq<nat>)
    requires |v.tally| == |v.width| && Sorted(v, order) && n <= |order| && i < |v.tally|
    requires n > 0 ==> Ahead(v, order[n - 1], i)
    requires n < |order| ==> Ahead(v, i, order[n])
    requires |q| == |order| + 1 && q[n] == i
    requires (forall k :: 0 <= k < n ==> q[k] == order[k]) && forall k :: n < k < |q| ==> q[k] == order[k - 1]
    ensures Sorted(v, q) && forall j :: j in q <==> j in order || j == i
  {
    hide Ahead;
    assert forall k :: 0 <= k < |order| ==> order[k] == q[if k < n then k else k + 1];
    forall j, k | 0 <= j < k < |q|
      ensures Ahead(v, q[j], q[k])
    {
      if k == n {
        if j < n - 1 {
          AheadTrans(v, order[j], order[n - 1], i);
        }
      } else if j == n {
        if n < k - 1 {
          AheadTrans(v, i, order[n], order[k - 1]);
        }
      }
    }
  }

  lemma AheadTrans(v: Vectors, i: nat, j: nat, k: nat)
    requires |v.tally| == |v.width| && i < |v.tally| && j < |v.tally| && k < |v.tally|
    requires Ahead(v, i, j) && Ahead(v, j, k)
    ensures Ahead(v, i, k)
  {
  }

  /** sort_actions: an insertion sort, in place, of the vectors that have entries. */
  method SortActions(v: Vectors) returns (order: array<nat>, nentries: nat)
    requires |v.tally| == |v.width|
    ensures fresh(order) && nentries <= order.Length == |v.tally| && IsOrder(v, order[..nentries])
  {
    order, nentries := new nat[|v.tally|], 0;
    for i := 0 to |v.tally|
      invariant nentries <= i && Sorted(v, order[..nentries])
      invariant forall h: nat :: h in order[..nentries] <==> h < i && v.tally[h] > 0
    {
      if v.tally[i] > 0 {
        nentries := InsertVector(v, order, nentries, i);
      }
    }
  }

  // Where vector i belongs: behind position j.
  method SlotFor(v: Vectors, order: array<nat>, nentries: nat, i: nat) returns (j: int)
    requires |v.tally| == |v.width| == order.Length && nentries <= i < |v.tally|
    requires Sorted(v, order[..nentries]) && forall h: nat :: h in order[..nentries] ==> h < i
    ensures -1 <= j < nentries && (j >= 0 ==> order[j] < |v.tally| && Ahead(v, order[j], i))
    ensures j + 1 < nentries ==> order[j + 1] < |v.tally| && Ahead(v, i, order[j + 1])
  {
    hide Sorted, Ahead;
    ghost var was := order[..nentries];
    SortedFacts(v, was);
    assert forall h :: 0 <= h < nentries ==> order[h] == was[h] && was[h] in was;
    var t, w := v.tally[i], v.width[i];
    j := nentries - 1;
    while j >= 0 && v.width[order[j]] < w
      invariant -1 <= j < nentries && (j + 1 < nentries ==> Ahead(v, i, order[j + 1]))
    {
      AheadNow(v, i, order[j]);
      j := j - 1;
    }
    while j >= 0 && v.width[order[j]] == w && v.tally[order[j]] < t
      invariant -1 <= j < nentries && (j >= 0 ==> v.width[order[j]] >= w)
      invariant j + 1 < nentries ==> Ahead(v, i, order[j + 1])
    {
      AheadNow(v, i, order[j]);
      if j > 0 {
        assert Ahead(v, was[j - 1], was[j]);
        AheadNow(v, order[j - 1], order[j]);
      }
      j := j - 1;
    }
    if j >= 0 {
      AheadNow(v, order[j], i);
    }
  }

  // One turn of the outer loop of sort_actions.
  method InsertVector(v: Vectors, order: array<nat>, nentries0: nat, i: nat) returns (nentries: nat)
    requires |v.tally| == |v.width| == order.Length && nentries0 <= i < |v.tally|
    requires Sorted(v, order[..nentries0]) && forall h: nat :: h in order[..nentries0] ==> h < i
    modifies order
    ensures nentries == nentries0 + 1 && Sorted(v, order[..nentries])
    ensures forall h: nat :: h in order[..nentries] <==> h in old(order[..nentries0]) || h == i
  {
    hide Sorted, Ahead;
    nentries := nentries0;
    ghost var was := order[..nentries];
    SortedFacts(v, was);
    var j := SlotFor(v, order, nentries, i);
    var k := nentries - 1;
    while k > j
      invariant j <= k < nentries
      invariant forall h :: 0 <= h <= k ==> order[h] == was[h]
      invariant forall h :: k + 1 < h <= nentries ==> order[h] == was[h - 1]
    {
      order[k + 1] := order[k];
      k := k - 1;
    }
    order[j + 1] := i;
    nentries := nentries + 1;
    SortedInsert(v, was, j + 1, i, order[..nentries]);
  }

  lemma SortedFacts(v: Vectors, order: seq<nat>)
    requires |v.tally| == |v.width| && Sorted(v, order)
    ensures forall k :: 0 <= k < |order| ==> order[k] < |v.tally|
    ensures forall j, k :: 0 <= j < k < |order| ==> Ahead(v, order[j], order[k])
  {
  }

  lemma AheadNow(v: Vectors, i: nat, j: nat)
    requires |v.tally| == |v.width| && i < |v.tally| && j < |v.tally|
    ensures Ahead(v, i, j) <==> (v.width[i] > v.width[j] ||
                                 (v.width[i] == v.width[j] && (v.tally[i] > v.tally[j] || (v.tally[i] == v.tally[j] && i < j))))
  {
  }

  ghost predicate SameVector(v: Vectors, i: nat, j: nat)
    requires i < |v.froms| == |v.tos| && j < |v.froms|
  {
    v.froms[i] == v.froms[j] && v.tos[i] == v.tos[j]
  }

  /** matching_vector: an earlier vector of the order with the same entries, or -1. For a row, -1 says that
      there is none; columns are never compared. The early return is right because vectors with the same
      entries have the same width and tally, and the order keeps those together. */
  method MatchingVector(v: Vectors, order: seq<nat>, vector: nat) returns (j: int)
    requires ValidVectors(v) && IsOrder(v, order) && vector < |order|
    ensures j >= 0 ==> j in order[..vector] && SameVector(v, j, order[vector])
    ensures j < 0 && order[vector] < v.nrows ==> forall k :: 0 <= k < vector ==> !SameVector(v, order[k], order[vector])
    ensures order[vector] >= v.nrows ==> j == -1
  {
    var i := order[vector];
    if i >= v.nrows {
      return -1;
    }
    var t, w := v.tally[i], v.width[i];
    var prev := vector - 1;
    while prev >= 0
      invariant -1 <= prev < vector
      invariant forall k :: prev < k < vector ==> !SameVector(v, order[k], i)
    {
      j := order[prev];
      if v.width[j] != w || v.tally[j] != t {
        forall k | 0 <= k <= prev
          ensures !SameVector(v, order[k], i)
        {
          EarlierDiffers(v, order, k, prev, vector);
        }
        return -1;
      }
      assert ValidVector(v, i) && ValidVector(v, j);
      var same, k := true, 0;
      while same && k < t
        invariant 0 <= k <= t
        invariant same <==> v.froms[j][..k] == v.froms[i][..k] && v.tos[j][..k] == v.tos[i][..k]
      {
        same := v.tos[j][k] == v.tos[i][k] && v.froms[j][k] == v.froms[i][k];
        k := k + 1;
      }
      if same {
        assert v.froms[j][..t] == v.froms[j] && v.froms[i][..t] == v.froms[i];
        assert v.tos[j][..t] == v.tos[j] && v.tos[i][..t] == v.tos[i];
        return;
      }
      prev := prev - 1;
    }
    j := -1;
  }

  // Width and tally have changed on the way from order[p] to order[n]: so they differ before p, too.
  lemma EarlierDiffers(v: Vectors, order: seq<nat>, k: nat, p: nat, n: nat)
    requires ValidVectors(v) && IsOrder(v, order) && k <= p < n < |order|
    requires v.width[order[p]] != v.width[order[n]] || v.tally[order[p]] != v.tally[order[n]]
    ensures !SameVector(v, order[k], order[n])
  {
    assert ValidVector(v, order[k]) && ValidVector(v, order[n]);
    assert Ahead(v, order[p], order[n]);
    assert k == p || Ahead(v, order[k], order[p]);
  }

  // Entry m of vector i, placed at p, is in the tables.
  ghost predicate EntryAt(v: Vectors, i: nat, m: nat, p: int, table: seq<int>, check: seq<int>, high: int)
    requires i < |v.froms| == |v.tos| && m < |v.froms[i]| == |v.tos[i]|
  {
    var loc := p + v.froms[i][m];
    0 <= loc <= high && loc < |check| && loc < |table| && check[loc] == v.froms[i][m] && table[loc] == v.tos[i][m]
  }

  ghost predicate PlacedAt(v: Vectors, i: nat, p: int, table: seq<int>, check: seq<int>, high: int)
    requires ValidVectors(v) && i < |v.froms|
  {
    && p != 0
    && assert ValidVector(v, i); forall m: nat :: m < |v.froms[i]| ==> EntryAt(v, i, m, p, table, check, high)
  }

  // Vector i, placed at p, has an entry at loc.
  ghost predicate Owns(from: seq<int>, p: int, loc: int) {
    exists m :: 0 <= m < |from| && from[m] == loc - p
  }

  ghost predicate Owned(v: Vectors, order: seq<nat>, pos: seq<int>, loc: int)
    requires |pos| <= |order| && forall k :: 0 <= k < |order| ==> order[k] < |v.froms|
  {
    exists k :: 0 <= k < |pos| && Owns(v.froms[order[k]], pos[k], loc)
  }

  /** The first |pos| vectors of the order are in the tables, and nothing else is. Vectors at the same place
      are the same vector. */
  ghost predicate Packed(v: Vectors, order: seq<nat>, pos: seq<int>, table: seq<int>, check: seq<int>, high: int)
    requires ValidVectors(v) && IsOrder(v, order)
  {
    && |pos| <= |order| && |table| == |check| && 0 <= high < |check|
    && (forall k :: 0 <= k < |pos| ==> PlacedAt(v, order[k], pos[k], table, check, high))
    && (forall loc :: 0 <= loc < |check| && check[loc] != -1 ==> Owned(v, order, pos, loc))
    && (forall j, k :: 0 <= j < k < |pos| && pos[j] == pos[k] ==> SameVector(v, order[j], order[k]))
  }

  // Every entry of the vector would go to an unused slot; what lies behind the end of check is unused.
  ghost predicate Free(from: seq<int>, check: seq<int>, p: int) {
    forall m: nat :: m < |from| ==> FreeSlot(check, p + from[m])
  }

  ghost predicate FreeSlot(check: seq<int>, loc: int) {
    0 <= loc && (loc < |check| ==> check[loc] == -1)
  }

  ghost predicate Candidate(from: seq<int>, pos: seq<int>, check: seq<int>, p: int) {
    p != 0 && Free(from, check, p) && p !in pos
  }

  // q is s, lengthened with x.
  ghost predicate Lengthened(s: seq<int>, q: seq<int>, x: int) {
    |s| <= |q| && q[..|s|] == s && forall i :: |s| <= i < |q| ==> q[i] == x
  }

  lemma LengthenedFree(from: seq<int>, check: seq<int>, check': seq<int>, p: int)
    requires Lengthened(check, check', -1)
    ensures Free(from, check, p) <==> Free(from, check', p)
  {
    forall loc
      ensures FreeSlot(check, loc) <==> FreeSlot(check', loc)
    {
      if 0 <= loc < |check| {
        assert check'[..|check|][loc] == check'[loc];
      }
    }
  }

  // q is s with the first n of the values vals written at the places p + from[m].
  ghost predicate Written(s: seq<int>, q: seq<int>, from: seq<int>, vals: seq<int>, p: int, n: nat) {
    && |q| == |s| && n <= |from| && n <= |vals|
    && (forall m :: 0 <= m < n ==> 0 <= p + from[m] < |q| && q[p + from[m]] == vals[m])
    && (forall loc :: 0 <= loc < |s| && !Owns(from[..n], p, loc) ==> q[loc] == s[loc])
  }

  datatype Place = At(place: int) | TooLarge | Overrun(place: int)

  // At p, vector i meets no entry of the vectors at the places pos, and p is not one of these.
  ghost predicate Clear(v: Vectors, order: seq<nat>, pos: seq<int>, i: nat, p: int)
    requires i < |v.froms| && |pos| <= |order| && forall k :: 0 <= k < |order| ==> order[k] < |v.froms|
  {
    p != 0 && p !in pos && forall m: nat :: m < |v.froms[i]| ==> 0 <= p + v.froms[i][m] && !Owned(v, order, pos, p + v.froms[i][m])
  }

  // p is the least such place.
  ghost predicate FirstClear(v: Vectors, order: seq<nat>, pos: seq<int>, i: nat, p: int)
    requires i < |v.froms| && |pos| <= |order| && forall k :: 0 <= k < |order| ==> order[k] < |v.froms|
  {
    Clear(v, order, pos, i, p) && forall q :: q < p ==> !Clear(v, order, pos, i, q)
  }

  // A row with the same entries as a vector before it in the order.
  ghost predicate Repeats(v: Vectors, order: seq<nat>, k: nat)
    requires ValidVectors(v) && IsOrder(v, order) && k < |order|
  {
    order[k] < v.nrows && exists n :: 0 <= n < k && SameVector(v, order[n], order[k])
  }

  // Vector k of the order has gone where it must: a repetition to the place of a vector with its entries, any
  // other vector to the first place that is clear of those before it.
  ghost predicate InTurn(v: Vectors, order: seq<nat>, pos: seq<int>, k: nat)
    requires ValidVectors(v) && IsOrder(v, order) && k < |pos| <= |order|
  {
    OrderInside(v, order);
    if Repeats(v, order, k) then exists n :: 0 <= n < k && SameVector(v, order[n], order[k]) && pos[n] == pos[k]
    else FirstClear(v, order, pos[..k], order[k], pos[k])
  }

  ghost predicate PlacedInTurn(v: Vectors, order: seq<nat>, pos: seq<int>)
    requires ValidVectors(v) && IsOrder(v, order) && |pos| <= |order|
  {
    forall k: nat :: k < |pos| ==> InTurn(v, order, pos, k)
  }

  lemma TurnMore(v: Vectors, order: seq<nat>, pos: seq<int>, p: int)
    requires ValidVectors(v) && IsOrder(v, order) && |pos| < |order| && PlacedInTurn(v, order, pos) && InTurn(v, order, pos + [p], |pos|)
    ensures PlacedInTurn(v, order, pos + [p])
  {
    hide IsOrder, ValidVectors, Repeats, FirstClear;
    forall k: nat | k < |pos|
      ensures InTurn(v, order, pos + [p], k)
    {
      assert InTurn(v, order, pos, k);
      assert (pos + [p])[..k] == pos[..k];
      assert forall n :: 0 <= n < |pos| ==> (pos + [p])[n] == pos[n];
    }
  }

  // The places that fit are those that are clear.
  lemma CandidateClear(v: Vectors, order: seq<nat>, pos: seq<int>, table: seq<int>, check: seq<int>, high: int)
    requires ValidVectors(v) && IsOrder(v, order) && Packed(v, order, pos, table, check, high) && |pos| < |order|
    ensures forall k :: 0 <= k < |order| ==> order[k] < |v.froms|
    ensures forall p :: Candidate(v.froms[order[|pos|]], pos, check, p) <==> Clear(v, order, pos, order[|pos|], p)
  {
    hide IsOrder, ValidVectors, Packed;
    OrderInside(v, order);
    forall loc
      ensures FreeSlot(check, loc) <==> 0 <= loc && !Owned(v, order, pos, loc)
    {
      FreeUnowned(v, order, pos, table, check, high, loc);
    }
  }

  lemma FreeUnowned(v: Vectors, order: seq<nat>, pos: seq<int>, table: seq<int>, check: seq<int>, high: int, loc: int)
    requires ValidVectors(v) && IsOrder(v, order) && Packed(v, order, pos, table, check, high)
    ensures forall k :: 0 <= k < |order| ==> order[k] < |v.froms|
    ensures FreeSlot(check, loc) <==> 0 <= loc && !Owned(v, order, pos, loc)
  {
    hide IsOrder, ValidVectors;
    OrderInside(v, order);
    if Owned(v, order, pos, loc) {
      var k :| 0 <= k < |pos| && Owns(v.froms[order[k]], pos[k], loc);
      var m: nat :| m < |v.froms[order[k]]| && v.froms[order[k]][m] == loc - pos[k];
      assert PlacedAt(v, order[k], pos[k], table, check, high);
      VectorFacts(v, order[k]);
      assert EntryAt(v, order[k], m, pos[k], table, check, high);
    }
  }

  lemma FirstFitClear(v: Vectors, order: seq<nat>, pos: seq<int>, table: seq<int>, check: seq<int>, high: int, p: int)
    requires ValidVectors(v) && IsOrder(v, order) && Packed(v, order, pos, table, check, high) && |pos| < |order|
    requires FirstFit(v.froms[order[|pos|]], pos, check, p)
    ensures forall k :: 0 <= k < |order| ==> order[k] < |v.froms|
    ensures FirstClear(v, order, pos, order[|pos|], p)
  {
    hide IsOrder, ValidVectors, Packed, Candidate, Clear;
    CandidateClear(v, order, pos, table, check, high);
  }

  /** Packing cannot go on. The first vectors have been placed in turn, in a table that has grown from 1000 slots
      and, step by step, to MAXTABLE at most; and either every slot of it is used, or the next vector, which
      repeats no other, has no place in it before an entry would come to lie behind MAXTABLE. */
  ghost predicate StuckAt(v: Vectors, order: seq<nat>, pos: seq<int>, table: seq<int>, check: seq<int>, high: int)
    requires ValidVectors(v) && IsOrder(v, order)
  {
    && Packed(v, order, pos, table, check, high) && PlacedInTurn(v, order, pos) && 1000 <= |check| < MAXTABLE + 200
    && (Full(check) || (|pos| < |order| && !Repeats(v, order, |pos|) && NoRoom(v.froms[order[|pos|]], pos, check)))
  }

  ghost predicate Stuck(v: Vectors, order: seq<nat>)
    requires ValidVectors(v) && IsOrder(v, order)
  {
    exists pos, table, check, high :: StuckAt(v, order, pos, table, check, high)
  }

  ghost predicate Full(check: seq<int>) {
    forall loc :: 0 <= loc < |check| ==> check[loc] != -1
  }

  lemma OwnedMore(v: Vectors, order: seq<nat>, pos: seq<int>, p: int, loc: int)
    requires |pos| < |order| && forall k :: 0 <= k < |order| ==> order[k] < |v.froms|
    ensures Owned(v, order, pos, loc) || Owns(v.froms[order[|pos|]], p, loc) ==> Owned(v, order, pos + [p], loc)
  {
    hide Owns;
    var pos' := pos + [p];
    if Owned(v, order, pos, loc) {
      var k :| 0 <= k < |pos| && Owns(v.froms[order[k]], pos[k], loc);
      assert pos'[k] == pos[k];
    }
    assert pos'[|pos|] == p;
  }

  // A placed vector stays where it is while another one is written to free slots.
  lemma PlacedKept(v: Vectors, i: nat, p: int, from: seq<int>, vals: seq<int>, p': int, table: seq<int>, check: seq<int>, high: int,
                   table': seq<int>, check': seq<int>, high': int)
    requires ValidVectors(v) && i < |v.froms| && PlacedAt(v, i, p, table, check, high) && high <= high' && |table| == |check|
    requires Free(from, check, p')
    requires Written(check, check', from, from, p', |from|) && Written(table, table', from, vals, p', |from|)
    ensures PlacedAt(v, i, p, table', check', high')
  {
    assert ValidVector(v, i);
    forall m: nat | m < |v.froms[i]|
      ensures EntryAt(v, i, m, p, table', check', high')
    {
      assert EntryAt(v, i, m, p, table, check, high);
      assert !Owns(from[..|from|], p', p + v.froms[i][m]);
    }
  }

  lemma PackedMore(v: Vectors, order: seq<nat>, pos: seq<int>, table: seq<int>, check: seq<int>, high: int,
                   p: int, table': seq<int>, check': seq<int>, high': int)
    requires ValidVectors(v) && IsOrder(v, order) && Packed(v, order, pos, table, check, high) && |pos| < |order|
    requires Candidate(v.froms[order[|pos|]], pos, check, p)
    requires var from := v.froms[order[|pos|]];
             && Written(check, check', from, from, p, |from|) && Written(table, table', from, v.tos[order[|pos|]], p, |from|)
             && high <= high' < |check'| && forall m :: 0 <= m < |from| ==> p + from[m] <= high'
    ensures Packed(v, order, pos + [p], table', check', high')
  {
    hide IsOrder, ValidVectors, Owns, PlacedAt;
    OrderInside(v, order);
    var i, pos' := order[|pos|], pos + [p];
    VectorFacts(v, i);
    forall k | 0 <= k < |pos'|
      ensures PlacedAt(v, order[k], pos'[k], table', check', high')
    {
      if k < |pos| {
        PlacedKept(v, order[k], pos[k], v.froms[i], v.tos[i], p, table, check, high, table', check', high');
      } else {
        PlacedNow(v, i, p, table', check', high');
      }
    }
    forall loc | 0 <= loc < |check'| && check'[loc] != -1
      ensures Owned(v, order, pos', loc)
    {
      OwnedMore(v, order, pos, p, loc);
      assert v.froms[i][..|v.froms[i]|] == v.froms[i];
    }
    forall j, k | 0 <= j < k < |pos'| && pos'[j] == pos'[k]
      ensures SameVector(v, order[j], order[k])
    {
      assert pos'[j] == pos[j] && pos[j] in pos;
    }
  }

  lemma PlacedNow(v: Vectors, i: nat, p: int, table: seq<int>, check: seq<int>, high: int)
    requires ValidVectors(v) && i < |v.froms| && |v.froms[i]| == |v.tos[i]| && p != 0 && high < |check| == |table|
    requires forall m :: 0 <= m < |v.froms[i]| ==>
               0 <= p + v.froms[i][m] <= high && check[p + v.froms[i][m]] == v.froms[i][m] && table[p + v.froms[i][m]] == v.tos[i][m]
    ensures PlacedAt(v, i, p, table, check, high)
  {
  }

  lemma OrderInside(v: Vectors, order: seq<nat>)
    requires ValidVectors(v) && IsOrder(v, order)
    ensures |v.froms| == |v.tos| == |v.tally| == |v.width|
    ensures forall k :: 0 <= k < |order| ==> order[k] < |v.froms| && |v.froms[order[k]]| > 0
  {
    forall k | 0 <= k < |order|
      ensures order[k] < |v.froms| && |v.froms[order[k]]| > 0
    {
      assert order[k] in order;
      assert ValidVector(v, order[k]);
    }
  }

  lemma VectorFacts(v: Vectors, i: nat)
    requires ValidVectors(v) && i < |v.froms|
    ensures |v.froms[i]| == |v.tos[i]| == v.tally[i] && Distinct(v.froms[i])
    ensures forall k :: 0 <= k < |v.froms[i]| ==> v.froms[i][k] >= 0
  {
    assert ValidVector(v, i);
  }

  // A vector that matches a placed one needs no place of its own.
  lemma PackedAgain(v: Vectors, order: seq<nat>, pos: seq<int>, table: seq<int>, check: seq<int>, high: int, n: nat)
    requires ValidVectors(v) && IsOrder(v, order) && Packed(v, order, pos, table, check, high) && n < |pos| < |order|
    requires SameVector(v, order[n], order[|pos|])
    ensures Packed(v, order, pos + [pos[n]], table, check, high)
  {
    hide IsOrder, ValidVectors, Owns;
    OrderInside(v, order);
    var i, pos' := order[|pos|], pos + [pos[n]];
    VectorFacts(v, i);
    forall k | 0 <= k < |pos'|
      ensures PlacedAt(v, order[k], pos'[k], table, check, high)
    {
      if k == |pos| {
        assert PlacedAt(v, order[n], pos[n], table, check, high);
        forall m: nat | m < |v.froms[i]|
          ensures EntryAt(v, i, m, pos[n], table, check, high)
        {
          assert EntryAt(v, order[n], m, pos[n], table, check, high);
        }
      }
    }
    forall loc | 0 <= loc < |check| && check[loc] != -1
      ensures Owned(v, order, pos', loc)
    {
      OwnedMore(v, order, pos, pos[n], loc);
    }
    forall j, k | 0 <= j < k < |pos'| && pos'[j] == pos'[k]
      ensures SameVector(v, order[j], order[k])
    {
      if k == |pos| && j != n {
        assert if j < n then SameVector(v, order[j], order[n]) else SameVector(v, order[n], order[j]);
      }
    }
  }

  lemma PackedLonger(v: Vectors, order: seq<nat>, pos: seq<int>, table: seq<int>, check: seq<int>, high: int, table': seq<int>, check': seq<int>)
    requires ValidVectors(v) && IsOrder(v, order) && Packed(v, order, pos, table, check, high)
    requires |table'| == |check'| && Lengthened(table, table', 0) && Lengthened(check, check', -1)
    ensures Packed(v, order, pos, table', check', high)
  {
    hide IsOrder, ValidVectors, Owns;
    OrderInside(v, order);
    assert forall loc :: 0 <= loc < |check| ==> check'[loc] == check'[..|check|][loc] && table'[loc] == table'[..|check|][loc];
    forall k | 0 <= k < |pos|
      ensures PlacedAt(v, order[k], pos[k], table', check', high)
    {
      assert PlacedAt(v, order[k], pos[k], table, check, high);
      VectorFacts(v, order[k]);
      forall m: nat | m < |v.froms[order[k]]|
        ensures EntryAt(v, order[k], m, pos[k], table', check', high)
      {
        assert EntryAt(v, order[k], m, pos[k], table, check, high);
      }
    }
  }

  /** A lookup finds exactly the entries of the vector: no entry is lost, and no other vector's is hit. */
  lemma Lossless(v: Vectors, order: seq<nat>, pos: seq<int>, table: seq<int>, check: seq<int>, high: int, base: seq<int>, t: Tables, i: nat, c: int)
    requires ValidVectors(v) && IsOrder(v, order) && Packed(v, order, pos, table, check, high) && |pos| == |order|
    requires BasesFor(v, order, pos, base) && i < |v.froms| && c >= 0
    requires t.tablesize == high && t.table == table[..high + 1] && t.check == check[..high + 1]
    ensures |v.froms[i]| == |v.tos[i]| && Lookup(t, base[i], c) == Find(v.froms[i], v.tos[i], c)
  {
    hide Owns, Sorted;
    VectorFacts(v, i);
    var from, to := v.froms[i], v.tos[i];
    FindExact(from, to, c);
    if i in order {
      var k :| 0 <= k < |order| && order[k] == i;
      assert PlacedAt(v, order[k], pos[k], table, check, high);
      assert base[order[k]] == pos[k];
      if c in from {
        var m: nat :| m < |from| && from[m] == c;
        assert EntryAt(v, i, m, pos[k], table, check, high);
      } else if Lookup(t, base[i], c).Some? {
        NoOthersEntry(v, order, pos, table, check, high, k, c);
      }
    }
  }

  // base[i] is the place of vector i, or 0 if it has no entries.
  ghost predicate BasesFor(v: Vectors, order: seq<nat>, pos: seq<int>, base: seq<int>) {
    && |base| == |v.froms| && |pos| <= |order|
    && (forall k :: 0 <= k < |pos| ==> order[k] < |base| && base[order[k]] == pos[k])
    && (forall i: nat :: i < |base| && i !in order[..|pos|] ==> base[i] == 0)
  }

  lemma NoOthersEntry(v: Vectors, order: seq<nat>, pos: seq<int>, table: seq<int>, check: seq<int>, high: int, k: nat, c: int)
    requires ValidVectors(v) && IsOrder(v, order) && Packed(v, order, pos, table, check, high) && k < |pos| && c >= 0
    requires 0 <= pos[k] + c < |check| && check[pos[k] + c] == c
    ensures order[k] < |v.froms| && c in v.froms[order[k]]
  {
    hide IsOrder, ValidVectors;
    OrderInside(v, order);
    var loc := pos[k] + c;
    assert Owned(v, order, pos, loc);
    var k' :| 0 <= k' < |pos| && Owns(v.froms[order[k']], pos[k'], loc);
    var m: nat :| m < |v.froms[order[k']]| && v.froms[order[k']][m] == loc - pos[k'];
    assert PlacedAt(v, order[k'], pos[k'], table, check, high);
    VectorFacts(v, order[k']);
    assert EntryAt(v, order[k'], m, pos[k'], table, check, high);
    assert pos[k'] == pos[k];
    assert k' == k || (if k' < k then SameVector(v, order[k'], order[k]) else SameVector(v, order[k], order[k']));
  }

  // Every slot below lowzero is used.
  ghost predicate UsedBelow(check: seq<int>, lowzero: nat) {
    lowzero <= |check| && forall loc :: 0 <= loc < lowzero ==> check[loc] != -1
  }

  // p is the least place for the vector.
  ghost predicate FirstFit(from: seq<int>, pos: seq<int>, check: seq<int>, p: int) {
    Candidate(from, pos, check, p) && forall q :: q < p ==> !Candidate(from, pos, check, q)
  }

  // At p, an entry of the vector falls behind the table and on or behind MAXTABLE, and those before it fit.
  ghost predicate Exceeds(from: seq<int>, check: seq<int>, p: int) {
    exists k :: 0 <= k < |from| && p + from[k] >= MAXTABLE && p + from[k] >= |check| && Free(from[..k], check, p)
  }

  // No place fits, up to one where the table would become too large.
  ghost predicate NoRoom(from: seq<int>, pos: seq<int>, check: seq<int>) {
    exists p :: p != 0 && Exceeds(from, check, p) && forall q :: q < p ==> !Candidate(from, pos, check, q)
  }

  // At p, every entry has a slot number, and some entry would go below lowzero at every place before p.
  ghost predicate IsStart(from: seq<int>, lowzero: nat, p: int) {
    (forall k :: 0 <= k < |from| ==> p + from[k] >= lowzero) && exists k :: 0 <= k < |from| && from[k] == lowzero - p
  }

  lemma StartFits(from: seq<int>, pos: seq<int>, check: seq<int>, lowzero: nat, p: int)
    requires UsedBelow(check, lowzero) && IsStart(from, lowzero, p)
    ensures forall q :: q < p ==> !Candidate(from, pos, check, q)
    ensures forall k :: 0 <= k < |from| ==> p + from[k] >= 0
  {
    forall q | q < p
      ensures !Candidate(from, pos, check, q)
    {
      NoneBeforeStart(from, pos, check, lowzero, p, q);
    }
  }

  lemma NoRoomLonger(from: seq<int>, pos: seq<int>, check: seq<int>, check': seq<int>, p: int)
    requires Lengthened(check, check', -1) && p != 0 && Exceeds(from, check', p) && forall q :: q < p ==> !Candidate(from, pos, check, q)
    ensures NoRoom(from, pos, check')
  {
    hide Lengthened, Exceeds, Free;
    forall q | q < p
      ensures !Candidate(from, pos, check', q)
    {
      LengthenedFree(from, check, check', q);
      assert !Candidate(from, pos, check, q);
    }
  }

  lemma NoneBeforeStart(from: seq<int>, pos: seq<int>, check: seq<int>, lowzero: nat, p: int, q: int)
    requires UsedBelow(check, lowzero) && IsStart(from, lowzero, p) && q < p
    ensures !Candidate(from, pos, check, q)
  {
    var k: nat :| k < |from| && from[k] == lowzero - p;
    assert !FreeSlot(check, q + from[k]);
  }

  lemma LengthenedTrans(s: seq<int>, q: seq<int>, r: seq<int>, x: int)
    requires Lengthened(s, q, x) && Lengthened(q, r, x)
    ensures Lengthened(s, r, x)
  {
    assert r[..|s|] == q[..|s|];
    assert forall i :: |s| <= i < |q| ==> r[i] == r[..|q|][i];
  }

  lemma LengthenedSlot(s: seq<int>, q: seq<int>, loc: int)
    requires Lengthened(s, q, -1)
    ensures FreeSlot(q, loc) == FreeSlot(s, loc)
  {
    if 0 <= loc < |s| {
      assert q[loc] == q[..|s|][loc];
    }
  }

  /** The variables of pack_table: base, pos, table and check, lowzero and high. maxtable is the length of
      table and check. */
  class Packer {
    const v: Vectors
    const order: seq<nat>
    var base: array<int>
    var pos: array<int>
    var table: array<int>
    var check: array<int>
    var lowzero: nat
    var high: nat

    // n vectors of the order are packed.
    ghost predicate Valid(n: nat)
      reads this, base, pos, table, check
    {
      && ValidVectors(v) && IsOrder(v, order) && n <= |order|
      && base != pos && base != table && base != check && pos != table && pos != check && table != check
      && base.Length == |v.froms| && pos.Length == |order| && 1000 <= table.Length == check.Length < MAXTABLE + 200
      && Packed(v, order, pos[..n], table[..], check[..], high) && PlacedInTurn(v, order, pos[..n]) && BasesFor(v, order, pos[..n], base[..])
      && UsedBelow(check[..], lowzero)
    }

    constructor (v: Vectors, order: seq<nat>)
      requires ValidVectors(v) && IsOrder(v, order)
      ensures this.v == v && this.order == order && Valid(0)
      ensures fresh(base) && fresh(pos) && fresh(table) && fresh(check)
    {
      this.v, this.order := v, order;
      base := new int[|v.froms|](_ => 0);
      pos := new int[|order|](_ => 0);
      table := new int[1000](_ => 0);
      check := new int[1000](_ => -1);
      lowzero, high := 0, 0;
    }

    /** The growth of table and check, so that loc lies inside. */
    method Grow(loc: nat)
      requires table.Length == check.Length && table.Length <= loc < MAXTABLE
      modifies `table, `check
      ensures fresh(table) && fresh(check) && table != check && loc < table.Length == check.Length <= loc + 200
      ensures Lengthened(old(table[..]), table[..], 0) && Lengthened(old(check[..]), check[..], -1)
    {
      var newmax := table.Length + 200;
      while newmax <= loc
        invariant newmax <= loc + 200
      {
        newmax := newmax + 200;
      }
      var table', check' := new int[newmax], new int[newmax];
      forall l | 0 <= l < newmax {
        table'[l] := if l < table.Length then table[l] else 0;
      }
      forall l | 0 <= l < newmax {
        check'[l] := if l < check.Length then check[l] else -1;
      }
      assert table'[..table.Length] == table[..];
      assert check'[..check.Length] == check[..];
      table, check := table', check';
    }

    // table and check have, perhaps, grown.
    twostate predicate Grown()
      reads this, table, check
    {
      && table.Length == check.Length < MAXTABLE + 200 && table != check
      && ((table == old(table) && check == old(check)) || (fresh(table) && fresh(check)))
      && Lengthened(old(table[..]), table[..], 0) && Lengthened(old(check[..]), check[..], -1)
    }

    /** The loop that tries the entries of a vector at j; None when the table would become too large. */
    method Fits(from: seq<int>, j: int) returns (ok: Option<bool>)
      requires table.Length == check.Length < MAXTABLE + 200 && table != check
      requires forall k :: 0 <= k < |from| ==> j + from[k] >= 0
      modifies `table, `check
      ensures Grown()
      ensures ok.None? ==> Exceeds(from, check[..], j)
      ensures ok.Some? ==> (ok.value <==> Free(from, old(check[..]), j)) && (from != [] ==> j + from[0] < MAXTABLE + 200)
      ensures ok == Some(true) ==> forall k :: 0 <= k < |from| ==> j + from[k] < check.Length
    {
      hide Lengthened;
      ghost var table0, check0 := table[..], check[..];
      SameLength(table0, 0);
      SameLength(check0, -1);
      var fits, k := true, 0;
      while fits && k < |from|
        invariant 0 <= k <= |from| && Grown()
        invariant fits ==> forall m: nat :: m < k ==> FreeSlot(check0, j + from[m]) && j + from[m] < check.Length
        invariant !fits ==> k > 0 && !FreeSlot(check0, j + from[k - 1])
        invariant k > 0 ==> j + from[0] < MAXTABLE + 200
      {
        var loc := j + from[k];
        if loc >= table.Length {
          if loc >= MAXTABLE {
            LengthenedFree(from[..k], check0, check[..], j);
            assert forall m: nat :: m < k ==> from[..k][m] == from[m];
            return None;
          }
          ghost var table1, check1 := table[..], check[..];
          Grow(loc);
          LengthenedTrans(table0, table1, table[..], 0);
          LengthenedTrans(check0, check1, check[..], -1);
        }
        LengthenedSlot(check0, check[..], loc);
        if check[loc] != -1 {
          fits := false;
        }
        k := k + 1;
      }
      ok := Some(fits);
    }

    // The first j that pack_vector tries.
    method StartAt(from: seq<int>) returns (j: int)
      requires from != []
      ensures IsStart(from, lowzero, j)
    {
      j := lowzero - from[0];
      var k := 1;
      while k < |from|
        invariant 1 <= k <= |from|
        invariant forall m :: 0 <= m < k ==> j >= lowzero - from[m]
        invariant exists m :: 0 <= m < k && from[m] == lowzero - j
      {
        if lowzero - from[k] > j {
          j := lowzero - from[k];
        }
        k := k + 1;
      }
    }

    // Whether one of the first `vector` vectors was placed at j.
    method Taken(vector: nat, j: int) returns (taken: bool)
      requires vector <= pos.Length
      ensures taken <==> j in pos[..vector]
    {
      taken := false;
      var k := 0;
      while !taken && k < vector
        invariant 0 <= k <= vector
        invariant taken <==> j in pos[..k]
      {
        taken := pos[k] == j;
        k := k + 1;
      }
      if taken {
        assert j in pos[..k];
      } else {
        assert pos[..k] == pos[..vector];
      }
    }

    /** The entries of a vector go into table and check; high is the last slot in use. */
    method WriteVector(from: seq<int>, to: seq<int>, j: int)
      requires |from| == |to| && Distinct(from) && table != check && table.Length == check.Length
      requires forall k :: 0 <= k < |from| ==> 0 <= j + from[k] < check.Length
      requires high < check.Length
      modifies table, check, `high
      ensures Written(old(table[..]), table[..], from, to, j, |from|)
      ensures Written(old(check[..]), check[..], from, from, j, |from|)
      ensures old(high) <= high < check.Length && forall k :: 0 <= k < |from| ==> j + from[k] <= high
    {
      hide Owns;
      NothingWritten(table[..], from, to, j);
      NothingWritten(check[..], from, from, j);
      var k := 0;
      while k < |from|
        invariant 0 <= k <= |from|
        invariant Written(old(table[..]), table[..], from, to, j, k) && Written(old(check[..]), check[..], from, from, j, k)
        invariant old(high) <= high < check.Length && forall m :: 0 <= m < k ==> j + from[m] <= high
      {
        var loc := j + from[k];
        WriteOne(old(table[..]), table[..], from, to, j, k);
        WriteOne(old(check[..]), check[..], from, from, j, k);
        table[loc] := to[k];
        check[loc] := from[k];
        if loc > high {
          high := loc;
        }
        k := k + 1;
      }
    }

    /** The scan for the first slot that is not used; false when it runs off the table. */
    method ScanLow() returns (found: bool)
      requires UsedBelow(check[..], lowzero)
      modifies `lowzero
      ensures UsedBelow(check[..], lowzero) && (found ==> lowzero < check.Length && check[lowzero] == -1)
      ensures !found ==> lowzero == check.Length
    {
      while lowzero < check.Length && check[lowzero] != -1
        invariant UsedBelow(check[..], lowzero)
        decreases check.Length - lowzero
      {
        lowzero := lowzero + 1;
      }
      found := lowzero < check.Length;
    }

    /** The search of pack_vector: the least place that fits. It ends, because before long an entry would go
        behind MAXTABLE. */
    method FindPlace(vector: nat) returns (place: Option<int>)
      requires Valid(vector) && vector < |order|
      modifies `table, `check
      ensures Grown()
      ensures place.None? ==> NoRoom(v.froms[order[vector]], pos[..vector], check[..])
      ensures place.Some? ==> FirstFit(v.froms[order[vector]], pos[..vector], old(check[..]), place.value)
      ensures place.Some? ==> forall k :: 0 <= k < |v.froms[order[vector]]| ==> place.value + v.froms[order[vector]][k] < check.Length
    {
      hide Lengthened, Packed, BasesFor, IsOrder, ValidVectors, Free, FreeSlot, Exceeds;
      OrderInside(v, order);
      ghost var table0, check0, pos0 := table[..], check[..], pos[..vector];
      SameLength(table0, 0);
      SameLength(check0, -1);
      var from := v.froms[order[vector]];
      var j := StartAt(from);
      StartFits(from, pos0, check0, lowzero, j);
      ghost var start := j;
      while true
        invariant start <= j && Grown()
        invariant forall q :: q < j ==> !Candidate(from, pos0, check0, q)
        decreases if j <= 0 then 1 - j else 0, MAXTABLE + 200 - j - from[0]
      {
        if j != 0 {
          ghost var table1, check1 := table[..], check[..];
          var ok := Fits(from, j);
          LengthenedTrans(table0, table1, table[..], 0);
          LengthenedTrans(check0, check1, check[..], -1);
          LengthenedFree(from, check0, check1, j);
          if ok.None? {
            NoRoomLonger(from, pos0, check0, check[..], j);
            return None;
          }
          if ok.value {
            var taken := Taken(vector, j);
            if !taken {
              return Some(j);
            }
          }
        }
        j := j + 1;
      }
    }

    /** pack_vector: the vector goes to the least place where it fits. It fails if the table would become too
        large, or if no slot is left for lowzero. */
    method PackVector(vector: nat) returns (place: Place)
      requires Valid(vector) && vector < |order| && !Repeats(v, order, vector)
      modifies `table, `check, table, check, `high, `lowzero
      ensures (table == old(table) && check == old(check)) || (fresh(table) && fresh(check))
      ensures table != check && 1000 <= table.Length == check.Length < MAXTABLE + 200
      ensures place.At? ==> UsedBelow(check[..], lowzero) && InTurn(v, order, pos[..vector] + [place.place], vector)
      ensures place.At? ==> Packed(v, order, pos[..vector] + [place.place], table[..], check[..], high)
      ensures place.TooLarge? ==> StuckAt(v, order, pos[..vector], table[..], check[..], high)
      ensures place.Overrun? ==> StuckAt(v, order, pos[..vector] + [place.place], table[..], check[..], high)
    {
      hide Lengthened, Packed, BasesFor, IsOrder, ValidVectors, FirstFit, NoRoom, Written, Candidate, FirstClear, Repeats, PlacedInTurn;
      OrderInside(v, order);
      VectorFacts(v, order[vector]);
      ghost var table0, check0, pos0, high0 := table[..], check[..], pos[..vector], high;
      var from, to := v.froms[order[vector]], v.tos[order[vector]];
      var j := FindPlace(vector);
      ghost var table1, check1 := table[..], check[..];
      PackedLonger(v, order, pos0, table0, check0, high, table1, check1);
      LengthOf(check0, check1, -1);
      if j.None? {
        return TooLarge;
      }
      FirstFitClear(v, order, pos0, table0, check0, high0, j.value);
      assert (pos0 + [j.value])[..vector] == pos0;
      TurnMore(v, order, pos0, j.value);
      LengthenedUsed(check0, check1, lowzero);
      LengthenedFits(from, pos0, check0, check1, j.value);
      HighInside(v, order, pos0, table1, check1, high);
      WriteVector(from, to, j.value);
      PackedMore(v, order, pos0, table1, check1, high0, j.value, table[..], check[..], high);
      StillUsed(from, check1, check[..], pos0, j.value, lowzero);
      var found := ScanLow();
      place := if found then At(j.value) else Overrun(j.value);
    }

    /** pack_table: packs every vector, or finds that it cannot. */
    method PackTable() returns (ok: bool, ghost placed: seq<int>)
      requires Valid(0)
      modifies this, base, pos, table, check
      ensures ok ==> Valid(|order|) && placed == pos[..]
      ensures !ok ==> StuckAt(v, order, placed, table[..], check[..], high)
    {
      hide Packed, StuckAt, BasesFor, IsOrder, ValidVectors, UsedBelow, Repeats, PlacedInTurn;
      ghost var table0, check0 := table, check;
      var i := 0;
      while i < |order|
        invariant 0 <= i <= |order| && Valid(i)
        invariant base == old(base) && pos == old(pos)
        invariant (table == table0 && check == check0) || (fresh(table) && fresh(check))
      {
        OrderInside(v, order);
        var state := MatchingVector(v, order, i);
        var place;
        ghost var pos0 := pos[..i];
        if state < 0 {
          NoRepetition(v, order, i);
          var found := PackVector(i);
          if !found.At? {
            return false, if found.Overrun? then pos0 + [found.place] else pos0;
          }
          place := found.place;
        } else {
          place := base[state];
          ghost var n :| 0 <= n < i && order[n] == state;
          PlaceOf(v, order, pos0, base[..], n);
          PackedAgain(v, order, pos0, table[..], check[..], high, n);
          RepeatsThere(v, order, pos0, n);
        }
        TurnMore(v, order, pos0, place);
        pos[i] := place;
        BasesMore(v, order, pos0, base[..], place);
        assert pos[..i + 1] == pos0 + [place];
        base[order[i]] := place;
        i := i + 1;
      }
      ok, placed := true, pos[..];
    }
  }

  lemma NoRepetition(v: Vectors, order: seq<nat>, k: nat)
    requires ValidVectors(v) && IsOrder(v, order) && k < |order|
    requires order[k] < v.nrows ==> forall n :: 0 <= n < k ==> !SameVector(v, order[n], order[k])
    ensures !Repeats(v, order, k)
  {
  }

  lemma RepeatsThere(v: Vectors, order: seq<nat>, pos: seq<int>, n: nat)
    requires ValidVectors(v) && IsOrder(v, order) && n < |pos| < |order|
    requires order[|pos|] < v.nrows && SameVector(v, order[n], order[|pos|])
    ensures InTurn(v, order, pos + [pos[n]], |pos|)
  {
    OrderInside(v, order);
    assert (pos + [pos[n]])[n] == pos[n];
  }

  lemma SameLength(s: seq<int>, x: int)
    ensures Lengthened(s, s, x)
  {
  }

  lemma LengthOf(s: seq<int>, q: seq<int>, x: int)
    requires Lengthened(s, q, x)
    ensures |s| <= |q|
  {
  }

  lemma NothingWritten(s: seq<int>, from: seq<int>, vals: seq<int>, p: int)
    ensures Written(s, s, from, vals, p, 0)
  {
  }

  lemma WriteOne(s: seq<int>, q: seq<int>, from: seq<int>, vals: seq<int>, p: int, n: nat)
    requires Written(s, q, from, vals, p, n) && n < |from| && n < |vals| && Distinct(from) && 0 <= p + from[n] < |q|
    ensures Written(s, q[p + from[n] := vals[n]], from, vals, p, n + 1)
  {
    var q' := q[p + from[n] := vals[n]];
    forall loc | 0 <= loc < |s| && !Owns(from[..n + 1], p, loc)
      ensures q'[loc] == s[loc]
    {
      assert from[..n + 1][n] == from[n];
      assert forall m :: 0 <= m < n ==> from[..n + 1][m] == from[..n][m];
    }
  }

  lemma LengthenedUsed(check: seq<int>, check': seq<int>, lowzero: nat)
    requires Lengthened(check, check', -1) && UsedBelow(check, lowzero)
    ensures UsedBelow(check', lowzero)
  {
    assert forall loc :: 0 <= loc < lowzero ==> check'[loc] == check'[..|check|][loc];
  }

  lemma LengthenedFits(from: seq<int>, pos: seq<int>, check: seq<int>, check': seq<int>, p: int)
    requires Lengthened(check, check', -1) && FirstFit(from, pos, check, p)
    ensures Candidate(from, pos, check', p) && forall k :: 0 <= k < |from| ==> p + from[k] >= 0
  {
    LengthenedFree(from, check, check', p);
    forall k: nat | k < |from|
      ensures p + from[k] >= 0
    {
      assert FreeSlot(check, p + from[k]);
    }
  }

  lemma HighInside(v: Vectors, order: seq<nat>, pos: seq<int>, table: seq<int>, check: seq<int>, high: int)
    requires ValidVectors(v) && IsOrder(v, order) && Packed(v, order, pos, table, check, high)
    ensures 0 <= high < |check|
  {
  }

  lemma StillUsed(from: seq<int>, check: seq<int>, check': seq<int>, pos: seq<int>, p: int, lowzero: nat)
    requires UsedBelow(check, lowzero) && Candidate(from, pos, check, p) && Written(check, check', from, from, p, |from|)
    ensures UsedBelow(check', lowzero)
  {
    forall loc | 0 <= loc < lowzero
      ensures check'[loc] != -1
    {
      assert !Owns(from[..|from|], p, loc);
    }
  }

  lemma PlaceOf(v: Vectors, order: seq<nat>, pos: seq<int>, base: seq<int>, n: nat)
    requires BasesFor(v, order, pos, base) && n < |pos|
    ensures n < |order| && order[n] < |base| && base[order[n]] == pos[n]
  {
  }

  lemma BasesMore(v: Vectors, order: seq<nat>, pos: seq<int>, base: seq<int>, p: int)
    requires ValidVectors(v) && IsOrder(v, order) && BasesFor(v, order, pos, base) && |pos| < |order|
    ensures order[|pos|] < |base| && BasesFor(v, order, pos + [p], base[order[|pos|] := p])
  {
    OrderInside(v, order);
    forall k | 0 <= k < |pos|
      ensures order[k] != order[|pos|]
    {
      assert Ahead(v, order[k], order[|pos|]);
    }
    assert order[..|pos| + 1] == order[..|pos|] + [order[|pos|]];
  }
}
