/** Edits of an editor buffer and the markers that live through them (src/editor.c, src/editormarker.c). */
module Editor {
  import opened Seqs

  /** text with `size` characters from offset on replaced by s. */
  function Splice(text: seq<char>, offset: nat, size: nat, s: seq<char>): seq<char>
    requires offset + size <= |text|
  {
    text[..offset] + s + text[offset + size..]
  }

  // Splice, character by character.
  lemma SpliceIs(text: seq<char>, offset: nat, size: nat, s: seq<char>, q: seq<char>)
    requires offset + size <= |text| && |q| == |text| - size + |s|
    requires forall i :: 0 <= i < offset ==> q[i] == text[i]
    requires forall i :: 0 <= i < |s| ==> q[offset + i] == s[i]
    requires forall i :: offset + |s| <= i < |q| ==> q[i] == text[i - |s| + size]
    ensures q == Splice(text, offset, size, s)
  {
    assert q[..offset] == text[..offset] && q[offset..offset + |s|] == s && q[offset + |s|..] == text[offset + size..];
    assert q == q[..offset] + q[offset..offset + |s|] + q[offset + |s|..];
  }

  // Deleting goes to the end of the text at most.
  function Deletable(total: nat, offset: nat, deleteSize: nat): nat
    requires offset <= total
  {
    if deleteSize + offset > total then total - offset else deleteSize
  }

  /** Where a marker at m goes when `size` characters at offset are replaced by `length` others. */
  function MovedOffset(offset: nat, size: nat, length: nat, m: nat): nat {
    if size > length then
      var attractor := if length > 0 then offset + length - 1 else offset + length;
      if m >= offset + length then if m < offset + size then attractor else m - size + length else m
    else if m >= offset + size then m - size + length else m
  }

  /** A marker stays inside the text. One outside of the replaced part stays on its character, and one at the
      end stays at the end. One inside stays where it is as far as the new characters go, and otherwise goes to
      the last of them, or to where they would be. */
  lemma MarkerKeepsCharacter(text: seq<char>, offset: nat, size: nat, s: seq<char>, m: nat)
    requires offset + size <= |text| && m <= |text|
    ensures var text', m' := Splice(text, offset, size, s), MovedOffset(offset, size, |s|, m);
            && m' <= |text'|
            && (m < offset || offset + size <= m < |text| ==> m' < |text'| && text'[m'] == text[m])
            && (m == |text| ==> m' == |text'|)
            && (offset <= m < offset + size ==>
                  m' == if m < offset + |s| then m else if |s| > 0 then offset + |s| - 1 else offset)
  {
  }

  lemma StaysInside(offset: nat, size: nat, length: nat, total: nat, m: nat)
    requires offset + size <= total && m <= total
    ensures MovedOffset(offset, size, length, m) <= total + length - size
  {
  }

  /** An edit never inverts the order of two markers. */
  lemma MarkersKeepOrder(offset: nat, size: nat, length: nat, m1: nat, m2: nat)
    requires m1 <= m2
    ensures MovedOffset(offset, size, length, m1) <= MovedOffset(offset, size, length, m2)
  {
  }

  /** A request to replace deleteSize characters at offset by s; and a record of what undoes one. */
  datatype Edit = Edit(offset: nat, deleteSize: nat, s: seq<char>)

  function Apply(text: seq<char>, e: Edit): seq<char>
    requires e.offset <= |text|
  {
    Splice(text, e.offset, Deletable(|text|, e.offset, e.deleteSize), e.s)
  }

  // newUndoReplace: put back what is deleted in the place of what is inserted.
  function UndoOf(text: seq<char>, e: Edit): Edit
    requires e.offset <= |text|
  {
    var size := Deletable(|text|, e.offset, e.deleteSize);
    Edit(e.offset, |e.s|, text[e.offset..e.offset + size])
  }

  lemma UndoOne(text: seq<char>, e: Edit)
    requires e.offset <= |text|
    ensures UndoOf(text, e).offset <= |Apply(text, e)| && Apply(Apply(text, e), UndoOf(text, e)) == text
  {
    var size := Deletable(|text|, e.offset, e.deleteSize);
    var text' := Apply(text, e);
    assert text'[..e.offset] == text[..e.offset];
    assert text'[e.offset + |e.s|..] == text[e.offset + size..];
    assert text == text[..e.offset] + text[e.offset..e.offset + size] + text[e.offset + size..];
  }

  // Every edit starts inside the text that the edits before it have left.
  ghost predicate Applicable(text: seq<char>, edits: seq<Edit>)
    decreases |edits|
  {
    edits == [] || (edits[0].offset <= |text| && Applicable(Apply(text, edits[0]), edits[1..]))
  }

  function ApplyAll(text: seq<char>, edits: seq<Edit>): seq<char>
    requires Applicable(text, edits)
    decreases |edits|
  {
    if edits == [] then text else ApplyAll(Apply(text, edits[0]), edits[1..])
  }

  // The undo records of the edits, newest first.
  function UndosOf(text: seq<char>, edits: seq<Edit>): seq<Edit>
    requires Applicable(text, edits)
    decreases |edits|
  {
    if edits == [] then [] else UndosOf(Apply(text, edits[0]), edits[1..]) + [UndoOf(text, edits[0])]
  }

  lemma {:induction false} ApplyAppend(text: seq<char>, p: seq<Edit>, e: Edit)
    requires Applicable(text, p) && e.offset <= |ApplyAll(text, p)|
    ensures Applicable(text, p + [e]) && ApplyAll(text, p + [e]) == Apply(ApplyAll(text, p), e)
    decreases |p|
  {
    if p == [] {
      assert [e][1..] == [];
      assert p + [e] == [e];
    } else {
      assert (p + [e])[1..] == p[1..] + [e];
      ApplyAppend(Apply(text, p[0]), p[1..], e);
    }
  }

  /** Replaying the undo records, newest first, restores the text. */
  lemma {:induction false} UndoAll(text: seq<char>, edits: seq<Edit>)
    requires Applicable(text, edits)
    ensures Applicable(ApplyAll(text, edits), UndosOf(text, edits))
    ensures ApplyAll(ApplyAll(text, edits), UndosOf(text, edits)) == text
    decreases |edits|
  {
    if edits != [] {
      var text' := Apply(text, edits[0]);
      UndoAll(text', edits[1..]);
      UndoOne(text, edits[0]);
      ApplyAppend(ApplyAll(text, edits), UndosOf(text', edits[1..]), UndoOf(text, edits[0]));
    }
  }

  // The parts text[i..j] and text[j..k] change places.
  function Swapped(text: seq<char>, i: nat, j: nat, k: nat): seq<char>
    requires i <= j <= k <= |text|
  {
    text[..i] + text[j..k] + text[i..j] + text[k..]
  }

  lemma FourParts(a: seq<char>, b: seq<char>, c: seq<char>, d: seq<char>)
    ensures var text := a + b + c + d; var i, j, k := |a|, |a| + |b|, |a| + |b| + |c|;
            text[..i] == a && text[i..j] == b && text[j..k] == c && text[k..] == d
  {
  }

  lemma IsFourParts(text: seq<char>, i: nat, j: nat, k: nat)
    requires i <= j <= k <= |text|
    ensures text == text[..i] + text[i..j] + text[j..k] + text[k..]
  {
  }

  lemma SwappedParts(text: seq<char>, i: nat, j: nat, k: nat)
    requires i <= j <= k <= |text|
    ensures var q := Swapped(text, i, j, k); var j' := i + k - j;
            |q| == |text| && q[..i] == text[..i] && q[i..j'] == text[j..k] && q[j'..k] == text[i..j] && q[k..] == text[k..]
  {
    FourParts(text[..i], text[j..k], text[i..j], text[k..]);
  }

  lemma SwappedBack(text: seq<char>, i: nat, j: nat, k: nat)
    requires i <= j <= k <= |text|
    ensures |Swapped(text, i, j, k)| == |text| && Swapped(Swapped(text, i, j, k), i, i + k - j, k) == text
  {
    SwappedParts(text, i, j, k);
    IsFourParts(text, i, j, k);
  }

  lemma SwappedAt(text: seq<char>, i: nat, j: nat, k: nat, m: nat)
    requires i <= j <= k <= |text| && m < |text|
    ensures var m' := if i <= m < j then m + k - j else if j <= m < k then m - (j - i) else m;
            |Swapped(text, i, j, k)| == |text| && m' < |text| && Swapped(text, i, j, k)[m'] == text[m]
    ensures multiset(Swapped(text, i, j, k)) == multiset(text)
  {
    SwappedMultiset(text, i, j, k);
    SwappedParts(text, i, j, k);
    var q, j' := Swapped(text, i, j, k), i + k - j;
    hide Swapped;
    if m < i {
      assert q[..i][m] == text[..i][m];
    } else if m < j {
      assert q[j'..k][m - i] == text[i..j][m - i];
    } else if m < k {
      assert q[i..j'][m - j] == text[j..k][m - j];
    } else {
      assert q[k..][m - k] == text[k..][m - k];
    }
  }

  lemma SwappedMultiset(text: seq<char>, i: nat, j: nat, k: nat)
    requires i <= j <= k <= |text|
    ensures multiset(Swapped(text, i, j, k)) == multiset(text)
  {
    IsFourParts(text, i, j, k);
    calc {
      multiset(text);
      multiset(text[..i] + text[i..j] + text[j..k] + text[k..]);
      multiset(text[..i]) + multiset(text[i..j]) + multiset(text[j..k]) + multiset(text[k..]);
      multiset(Swapped(text, i, j, k));
    }
  }

  /** The text after a block of n characters has moved from offset s to before the one at offset d. */
  function BlockMoved(text: seq<char>, s: nat, n: nat, d: nat): seq<char>
    requires s + n <= |text| && d <= |text| && (d <= s || s + n <= d)
  {
    if d <= s then Swapped(text, d, s, s + n) else Swapped(text, s, s + n, d)
  }

  /** Where the character at m goes then. */
  function BlockOffset(s: nat, n: nat, d: nat, m: nat): nat
    requires d <= s || s + n <= d
  {
    if d <= s then
      if s <= m < s + n then m - s + d else if d <= m < s then m + n else m
    else
      if s <= m < s + n then m - s + d - n else if s + n <= m < d then m - n else m
  }

  /** A block move is a permutation of the characters, and takes each to its new offset. */
  lemma BlockPermutes(text: seq<char>, s: nat, n: nat, d: nat, m: nat)
    requires s + n <= |text| && d <= |text| && (d <= s || s + n <= d) && m <= |text|
    ensures |BlockMoved(text, s, n, d)| == |text| && multiset(BlockMoved(text, s, n, d)) == multiset(text)
    ensures m < |text| ==> BlockOffset(s, n, d, m) < |text| && BlockMoved(text, s, n, d)[BlockOffset(s, n, d, m)] == text[m]
    ensures m == |text| ==> BlockOffset(s, n, d, m) == |text|
  {
    hide BlockMoved;
    BlockCounts(text, s, n, d);
    if m < |text| {
      BlockAt(text, s, n, d, m);
    }
  }

  lemma BlockCounts(text: seq<char>, s: nat, n: nat, d: nat)
    requires s + n <= |text| && d <= |text| && (d <= s || s + n <= d)
    ensures |BlockMoved(text, s, n, d)| == |text| && multiset(BlockMoved(text, s, n, d)) == multiset(text)
  {
    hide Swapped;
    if d <= s {
      SwappedParts(text, d, s, s + n);
      SwappedMultiset(text, d, s, s + n);
    } else {
      SwappedParts(text, s, s + n, d);
      SwappedMultiset(text, s, s + n, d);
    }
  }

  lemma BlockAt(text: seq<char>, s: nat, n: nat, d: nat, m: nat)
    requires s + n <= |text| && d <= |text| && (d <= s || s + n <= d) && m < |text|
    ensures |BlockMoved(text, s, n, d)| == |text|
    ensures BlockOffset(s, n, d, m) < |text| && BlockMoved(text, s, n, d)[BlockOffset(s, n, d, m)] == text[m]
  {
    hide Swapped;
    if d <= s {
      SwappedParts(text, d, s, s + n);
      SwappedAt(text, d, s, s + n, m);
    } else {
      SwappedParts(text, s, s + n, d);
      SwappedAt(text, s, s + n, d, m);
    }
  }

  // The text edits of moveBlockInEditorBuffer within one buffer: room for the block and its characters, and
  // then the removal of the old ones.
  lemma MoveEdits(text: seq<char>, s: nat, n: nat, d: nat)
    requires s + n <= |text| && d <= |text| && (d <= s || s + n <= d)
    ensures var s' := MovedOffset(d, 0, n, s);
            var text1 := Splice(text, d, 0, text[s..s + n]);
            && s' + n <= |text1| && text1[s'..s' + n] == text[s..s + n]
            && Splice(text1, s', n, []) == BlockMoved(text, s, n, d)
  {
    hide Splice;
    IsFourParts(text, if d <= s then d else s, if d <= s then s else s + n, if d <= s then s + n else d);
    if d <= s {
      EditsBack(text[..d], text[d..s], text[s..s + n], text[s + n..]);
    } else {
      EditsForth(text[..s], text[s..s + n], text[s + n..d], text[d..]);
    }
  }

  lemma EditsBack(a: seq<char>, x: seq<char>, y: seq<char>, e: seq<char>)
    ensures var text1 := Splice(a + x + y + e, |a|, 0, y); var s := |a| + |y| + |x|;
            s + |y| <= |text1| && text1[s..s + |y|] == y && Splice(text1, s, |y|, []) == a + y + x + e
  {
    FourParts(a, x, y, e);
    var text := a + x + y + e;
    assert text[|a|..] == x + y + e;
    var text1 := Splice(text, |a|, 0, y);
    assert text1 == (a + y) + x + y + e;
    FourParts(a + y, x, y, e);
    var s := |a| + |y| + |x|;
    assert text1[..s] == (a + y) + x;
  }

  lemma EditsForth(a: seq<char>, y: seq<char>, x: seq<char>, e: seq<char>)
    ensures var text1 := Splice(a + y + x + e, |a| + |y| + |x|, 0, y); var s := |a|;
            s + |y| <= |text1| && text1[s..s + |y|] == y && Splice(text1, s, |y|, []) == a + x + y + e
  {
    FourParts(a, y, x, e);
    var text := a + y + x + e;
    var d := |a| + |y| + |x|;
    assert text[..d] == a + y + x;
    var text1 := Splice(text, d, 0, y);
    assert text1 == a + y + (x + y) + e;
    FourParts(a, y, x + y, e);
    assert text1[|a| + |y|..] == (x + y) + e;
  }

  // The offset lies in the block.
  predicate InBlock(offset: nat, offset1: nat, offset2: nat) {
    offset1 <= offset < offset2
  }

  // Where a marker at m goes when the block at offset1 goes to d.
  function Carried(offset1: nat, n: nat, d: nat, m: nat): nat {
    if InBlock(m, offset1, offset1 + n) then d + (m - offset1) else m
  }

  lemma NotCarried(s: nat, n: nat, d: nat)
    ensures forall m: nat :: !InBlock(m, s, s + n) ==> Carried(s, n, d, m) == m
  {
  }

  // What the steps of the move do to the offset of a marker of the same buffer.
  lemma MoveOffsets(s: nat, n: nat, d: nat, m: nat)
    requires d <= s || s + n <= d
    ensures var s' := MovedOffset(d, 0, n, s);
            MovedOffset(s', n, 0, Carried(s', n, d, MovedOffset(d, 0, n, m))) == BlockOffset(s, n, d, m)
  {
  }

  /** Moving the block back to where it came from restores the text. */
  lemma BlockMovedBack(text: seq<char>, s: nat, n: nat, d: nat)
    requires s + n <= |text| && d <= |text| && (d <= s || s + n <= d)
    ensures var at, back := BlockOffset(s, n, d, s), MovedOffset(d, 0, n, s);
            n > 0 ==> at + n <= |text| && back <= |text| && (back <= at || at + n <= back)
                      && BlockMoved(BlockMoved(text, s, n, d), at, n, back) == text
  {
    hide Swapped;
    if n > 0 {
      if d <= s { SwappedBack(text, d, s, s + n); } else { SwappedBack(text, s, s + n, d); }
    }
  }

  // Where a marker of a buffer goes when the block is inserted in the destination buffer.
  function Inserted(same: bool, d: nat, n: nat, m: nat): nat {
    if same then MovedOffset(d, 0, n, m) else m
  }

  // The block would be moved into itself.
  predicate IntoItself(same: bool, s: nat, n: nat, d: nat) {
    same && s < d < s + n
  }

  /** Where a marker of the source buffer goes in a move to another buffer. */
  function LeavingOffset(s: nat, n: nat, d: nat, m: nat): nat {
    if InBlock(m, s, s + n) then d + (m - s) else MovedOffset(s, n, 0, m)
  }

  /** A move between two buffers takes every marker of the source along with its character: into the destination,
      if it is in the block; and otherwise it stays in the source, at the end if it was there. */
  lemma LeavingKeepsCharacter(a: seq<char>, s: nat, n: nat, b: seq<char>, d: nat, m: nat)
    requires s + n <= |a| && d <= |b| && m <= |a|
    ensures var a', b', m' := Splice(a, s, n, []), Splice(b, d, 0, a[s..s + n]), LeavingOffset(s, n, d, m);
            && (s <= m < s + n ==> m' < |b'| && b'[m'] == a[m])
            && (m < s || s + n <= m < |a| ==> m' < |a'| && a'[m'] == a[m])
            && (m == |a| ==> m' == |a'|)
  {
    var block := a[s..s + n];
    if s <= m < s + n {
      assert block[m - s] == a[m];
    } else {
      MarkerKeepsCharacter(a, s, n, [], m);
    }
  }

  /** A change of the texts of several buffers: an edit of one, or the move of n characters at s of one to d of
      one; and a record of what undoes one. */
  datatype Change = ReplaceIn(b: nat, e: Edit) | MoveFrom(src: nat, s: nat, n: nat, dst: nat, d: nat)

  ghost predicate CanChange(texts: seq<seq<char>>, c: Change) {
    match c
    case ReplaceIn(b, e) => b < |texts| && e.offset <= |texts[b]|
    case MoveFrom(src, s, n, dst, d) => src < |texts| && dst < |texts| && s + n <= |texts[src]| && d <= |texts[dst]|
  }

  /** What the change does to the texts. The move of a block into itself is refused. */
  function Changed(texts: seq<seq<char>>, c: Change): seq<seq<char>>
    requires CanChange(texts, c)
  {
    match c
    case ReplaceIn(b, e) => texts[b := Apply(texts[b], e)]
    case MoveFrom(src, s, n, dst, d) =>
      if IntoItself(src == dst, s, n, d) then texts
      else if src == dst then texts[src := BlockMoved(texts[src], s, n, d)]
      else texts[src := Splice(texts[src], s, n, [])][dst := Splice(texts[dst], d, 0, texts[src][s..s + n])]
  }

  // The undo record, if there is one. That of a move is where a marker at its start has gone, and where it was
  // when the block had been inserted.
  function Record(texts: seq<seq<char>>, c: Change): seq<Change>
    requires CanChange(texts, c)
  {
    match c
    case ReplaceIn(b, e) => [ReplaceIn(b, UndoOf(texts[b], e))]
    case MoveFrom(src, s, n, dst, d) =>
      if IntoItself(src == dst, s, n, d) then []
      else [MoveFrom(dst, if src == dst then BlockOffset(s, n, d, s) else LeavingOffset(s, n, d, s), n, src, Inserted(src == dst, d, n, s))]
  }

  // All changes but one can be taken back: of an empty move to another buffer, the record has the offset in the
  // buffer that it came from, and this may lie behind the end of the other.
  predicate LeavesRecord(texts: seq<seq<char>>, c: Change) {
    c.MoveFrom? && c.n == 0 && c.src != c.dst && c.dst < |texts| ==> c.s <= |texts[c.dst]|
  }

  /** Replaying the record of a change restores all texts, if it can be replayed at all. */
  lemma ChangeUndone(texts: seq<seq<char>>, c: Change)
    requires CanChange(texts, c) && Record(texts, c) != []
    ensures CanChange(Changed(texts, c), Record(texts, c)[0]) <==> LeavesRecord(texts, c)
    ensures LeavesRecord(texts, c) ==> Changed(Changed(texts, c), Record(texts, c)[0]) == texts
  {
    hide Splice, BlockMoved;
    match c
    case ReplaceIn(b, e) =>
      UndoOne(texts[b], e);
    case MoveFrom(src, s, n, dst, d) =>
      if src != dst {
        MovedBack(texts, src, s, n, dst, d);
      } else if n > 0 {
        BlockMovedBack(texts[src], s, n, d);
        BlockCounts(texts[src], s, n, d);
      } else {
        NothingMoved(texts[src], s, d);
        NothingMoved(texts[src], s, s);
      }
  }

  lemma MovedBack(texts: seq<seq<char>>, src: nat, s: nat, n: nat, dst: nat, d: nat)
    requires CanChange(texts, MoveFrom(src, s, n, dst, d)) && src != dst
    ensures var texts1, at := Changed(texts, MoveFrom(src, s, n, dst, d)), if n > 0 then d else s;
            && (CanChange(texts1, MoveFrom(dst, at, n, src, s)) <==> n > 0 || s <= |texts[dst]|)
            && (n > 0 || s <= |texts[dst]| ==> Changed(texts1, MoveFrom(dst, at, n, src, s)) == texts)
  {
    hide Splice;
    var a, b := texts[src], texts[dst];
    SplicedBack(a, s, n, b, d);
    var a', b', at := Splice(a, s, n, []), Splice(b, d, 0, a[s..s + n]), if n > 0 then d else s;
    assert n == 0 ==> a[s..s + n] == [];
    if n > 0 || s <= |b| {
      assert b'[at..at + n] == a[s..s + n];
      assert texts[src := a'][dst := b'][dst := b][src := a] == texts;
    }
  }

  lemma NothingMoved(text: seq<char>, s: nat, d: nat)
    requires s <= |text| && d <= |text|
    ensures BlockMoved(text, s, 0, d) == text
  {
  }

  // A block that is taken out of one text and put into another, and back.
  lemma SplicedBack(a: seq<char>, s: nat, n: nat, b: seq<char>, d: nat)
    requires s + n <= |a| && d <= |b|
    ensures var a', b' := Splice(a, s, n, []), Splice(b, d, 0, a[s..s + n]);
            && |a'| == |a| - n && |b'| == |b| + n
            && b'[d..d + n] == a[s..s + n] && Splice(b', d, n, []) == b && Splice(a', s, 0, a[s..s + n]) == a
    ensures forall x: nat :: x <= |b| ==> Splice(b, x, 0, []) == b
  {
    var block := a[s..s + n];
    var a', b' := Splice(a, s, n, []), Splice(b, d, 0, block);
    assert b'[..d] == b[..d] && b'[d + n..] == b[d..] && b[..d] + b[d..] == b;
    assert a'[..s] == a[..s] && a'[s..] == a[s + n..];
    assert a == a[..s] + block + a[s + n..];
  }

  ghost predicate CanChangeAll(texts: seq<seq<char>>, cs: seq<Change>)
    decreases |cs|
  {
    cs == [] || (CanChange(texts, cs[0]) && CanChangeAll(Changed(texts, cs[0]), cs[1..]))
  }

  function ChangedAll(texts: seq<seq<char>>, cs: seq<Change>): seq<seq<char>>
    requires CanChangeAll(texts, cs)
    decreases |cs|
  {
    if cs == [] then texts else ChangedAll(Changed(texts, cs[0]), cs[1..])
  }

  // The undo records, newest first.
  function Records(texts: seq<seq<char>>, cs: seq<Change>): seq<Change>
    requires CanChangeAll(texts, cs)
    decreases |cs|
  {
    if cs == [] then [] else Records(Changed(texts, cs[0]), cs[1..]) + Record(texts, cs[0])
  }

  ghost predicate AllLeaveRecords(texts: seq<seq<char>>, cs: seq<Change>)
    requires CanChangeAll(texts, cs)
    decreases |cs|
  {
    cs == [] || (LeavesRecord(texts, cs[0]) && AllLeaveRecords(Changed(texts, cs[0]), cs[1..]))
  }

  lemma {:induction false} ChangedAppend(texts: seq<seq<char>>, p: seq<Change>, c: Change)
    ensures CanChangeAll(texts, p + [c]) <==> CanChangeAll(texts, p) && CanChange(ChangedAll(texts, p), c)
    ensures CanChangeAll(texts, p + [c]) ==> ChangedAll(texts, p + [c]) == Changed(ChangedAll(texts, p), c)
    decreases |p|
  {
    hide CanChange, Changed;
    if p == [] {
      assert [c][1..] == [];
      assert p + [c] == [c];
    } else {
      assert (p + [c])[1..] == p[1..] + [c] && (p + [c])[0] == p[0];
      if CanChange(texts, p[0]) {
        ChangedAppend(Changed(texts, p[0]), p[1..], c);
      }
    }
  }

  /** After any list of edits and moves in several buffers, the undo records can be replayed, newest first, exactly
      if none of the moves is empty, to another buffer, and from an offset behind its end; and then they restore
      all texts. */
  lemma {:induction false} ChangesUndone(texts: seq<seq<char>>, cs: seq<Change>)
    requires CanChangeAll(texts, cs)
    ensures CanChangeAll(ChangedAll(texts, cs), Records(texts, cs)) <==> AllLeaveRecords(texts, cs)
    ensures AllLeaveRecords(texts, cs) ==> ChangedAll(ChangedAll(texts, cs), Records(texts, cs)) == texts
    decreases |cs|
  {
    hide CanChange, Changed, Record, LeavesRecord;
    if cs != [] {
      var c, texts1 := cs[0], Changed(texts, cs[0]);
      var records, last := Records(texts1, cs[1..]), Record(texts, c);
      ChangesUndone(texts1, cs[1..]);
      RecordIs(texts, c);
      if last == [] {
        assert records + last == records;
      } else {
        assert last == [last[0]];
        ChangeUndone(texts, c);
        ChangedAppend(ChangedAll(texts, cs), records, last[0]);
      }
    }
  }

  lemma RecordIs(texts: seq<seq<char>>, c: Change)
    requires CanChange(texts, c)
    ensures |Record(texts, c)| <= 1
    ensures Record(texts, c) == [] ==> Changed(texts, c) == texts && LeavesRecord(texts, c)
  {
  }

  /** An empty move whose record cannot be replayed. */
  lemma EmptyMoveStays()
    ensures var texts, c := ["a", ""], MoveFrom(0, 1, 0, 1, 0);
            CanChange(texts, c) && Changed(texts, c) == texts && Record(texts, c) == [MoveFrom(1, 1, 0, 0, 1)] && !CanChange(texts, Record(texts, c)[0])
  {
    var texts := ["a", ""];
    assert Splice(texts[0], 1, 0, []) == texts[0] && Splice(texts[1], 0, 0, texts[0][1..1]) == texts[1];
  }
}
