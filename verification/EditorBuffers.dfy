/** Editor buffers, their lists of markers, and the edits on them (src/editor.c, src/editormarker.c). */
module EditorBuffers {
  import opened Wrappers
  import opened Editor

  const EDITOR_ALLOCATION_RESERVE := 1024
  const EDITOR_FREE_PREFIX_SIZE := 16

  /** A marker, in the doubly linked list of the markers of its buffer. */
  class EditorMarker {
    var buffer: EditorBuffer
    var offset: nat
    var previous: EditorMarker?
    var next: EditorMarker?

    constructor (buffer: EditorBuffer, offset: nat)
      ensures this.buffer == buffer && this.offset == offset && previous == null && next == null
    {
      this.buffer, this.offset, previous, next := buffer, offset, null, null;
    }
  }

  ghost predicate EachOnce(list: seq<EditorMarker>) {
    forall i, j :: 0 <= i < j < |list| ==> list[i] != list[j]
  }

  /** What an undo list consists of. */
  datatype EditorUndo =
    | UndoReplace(buffer: EditorBuffer, edit: Edit)
    | UndoMove(buffer: EditorBuffer, offset: nat, size: nat, dbuffer: EditorBuffer, doffset: nat)

  /** A buffer: its text, with room to grow, and its markers; list is the linked list as a sequence. */
  class EditorBuffer {
    var text: array<char>
    var bufferSize: nat
    var markers: EditorMarker?
    var modified: bool
    ghost var list: seq<EditorMarker>

    constructor ()
      ensures Valid() && fresh(text) && Text() == [] && list == []
    {
      text := new char[2048 - EDITOR_FREE_PREFIX_SIZE](_ => ' ');
      bufferSize, markers, modified, list := 0, null, false, [];
    }

    // The list is doubly linked, and its markers are those of this buffer.
    ghost predicate Linked()
      reads `markers, `list, list
    {
      && markers == (if list == [] then null else list[0]) && EachOnce(list)
      && forall i: nat :: i < |list| ==> LinkedAt(i)
    }

    ghost predicate LinkedAt(i: nat)
      requires i < |list|
      reads `list, list
    {
      && list[i].buffer == this
      && list[i].next == (if i + 1 < |list| then list[i + 1] else null)
      && list[i].previous == (if i > 0 then list[i - 1] else null)
    }

    ghost predicate Valid()
      reads this, list, text
    {
      bufferSize < text.Length && Linked() && forall m :: m in list ==> m.offset <= bufferSize
    }

    function Text(): seq<char>
      requires bufferSize <= text.Length
      reads this, text
    {
      text[..bufferSize]
    }

    /** attachMarkerToBuffer: the marker becomes the first of the list. */
    method AttachMarker(marker: EditorMarker)
      requires Linked() && marker !in list
      modifies this`markers, this`list, marker, list
      ensures Linked() && list == [marker] + old(list) && marker.offset == old(marker.offset)
      ensures forall m :: m in old(list) ==> m.offset == old(m.offset)
    {
      ghost var was := list;
      marker.buffer := this;
      marker.next := markers;
      markers := marker;
      marker.previous := null;
      if marker.next != null {
        assert was != [] && marker.next == was[0];
        marker.next.previous := marker;
      }
      list := [marker] + list;
      forall i: nat | i < |list|
        ensures LinkedAt(i)
      {
        if i > 0 {
          assert old(LinkedAt(i - 1)) && list[i] == was[i - 1];
        }
      }
    }

    // allocateNewEditorBufferTextSpace, and the copying of the old text
    method AllocateTextSpace(size: nat)
      requires bufferSize < text.Length && bufferSize <= size
      modifies `text
      ensures fresh(text) && size < text.Length && Text() == old(Text())
    {
      var minSize := size + EDITOR_ALLOCATION_RESERVE + EDITOR_FREE_PREFIX_SIZE;
      var allocatedSize := 2048;
      while allocatedSize < minSize
      {
        allocatedSize := 2 * allocatedSize;
      }
      var space := new char[allocatedSize - EDITOR_FREE_PREFIX_SIZE](_ => ' ');
      forall i | 0 <= i < bufferSize {
        space[i] := text[i];
      }
      text := space;
    }

    // The text edit of replaceStringInEditorBuffer: the memmove of what follows, and the memcpy of the string.
    method EditText(offset: nat, deleteSize: nat, s: seq<char>)
      requires bufferSize < text.Length && offset + deleteSize <= bufferSize && bufferSize + |s| - deleteSize < text.Length
      modifies text, `bufferSize
      ensures bufferSize == old(bufferSize) + |s| - deleteSize && Text() == Splice(old(Text()), offset, deleteSize, s)
    {
      hide Splice;
      ghost var was := Text();
      forall i | offset + |s| <= i < bufferSize + |s| - deleteSize {
        text[i] := text[i - |s| + deleteSize];
      }
      forall i | 0 <= i < |s| {
        text[offset + i] := s[i];
      }
      bufferSize := bufferSize - deleteSize + |s|;
      assert forall i :: 0 <= i < offset ==> text[i] == was[i];
      assert forall i :: offset + |s| <= i < bufferSize ==> text[i] == was[i - |s| + deleteSize];
      SpliceIs(was, offset, deleteSize, s, Text());
    }

    /** The loops of replaceStringInEditorBuffer that update the markers. */
    method UpdateMarkers(offset: nat, deleteSize: nat, length: nat)
      requires Linked()
      modifies list
      ensures Linked()
      ensures forall m :: m in list ==> m.offset == MovedOffset(offset, deleteSize, length, old(m.offset)) && m.buffer == old(m.buffer)
    {
      var m := markers;
      ghost var k := 0;
      while m != null
        invariant 0 <= k <= |list| && Linked() && m == if k < |list| then list[k] else null
        invariant forall j :: 0 <= j < k ==> list[j].offset == MovedOffset(offset, deleteSize, length, old(list[j].offset))
        invariant forall j :: k <= j < |list| ==> list[j].offset == old(list[j].offset)
        invariant forall x :: x in list ==> x.buffer == old(x.buffer) && x.next == old(x.next) && x.previous == old(x.previous)
        decreases |list| - k
      {
        assert LinkedAt(k);
        if deleteSize > length {
          var attractor := if length > 0 then offset + length - 1 else offset + length;
          if m.offset >= offset + length {
            if m.offset < offset + deleteSize {
              m.offset := attractor;
            } else {
              m.offset := m.offset - deleteSize + length;
            }
          }
        } else if m.offset >= offset + deleteSize {
          m.offset := m.offset - deleteSize + length;
        }
        LinksKept();
        m := m.next;
        k := k + 1;
      }
    }

    // A new offset does not touch the links.
    twostate lemma LinksKept()
      requires old(Linked()) && list == old(list) && markers == old(markers)
      requires forall m :: m in list ==> m.buffer == old(m.buffer) && m.next == old(m.next) && m.previous == old(m.previous)
      ensures Linked()
    {
      forall i: nat | i < |list|
        ensures LinkedAt(i)
      {
        assert old(LinkedAt(i));
      }
    }

    /** replaceStringInEditorBuffer. With an undo list, a record of what undoes the edit is put in front. */
    method ReplaceString(offset: nat, deleteSize0: nat, s: seq<char>, undo: Option<seq<EditorUndo>>) returns (undo': Option<seq<EditorUndo>>)
      requires Valid() && offset <= bufferSize
      modifies this`text, this`bufferSize, this`modified, text, list
      ensures Valid() && list == old(list) && (text == old(text) || fresh(text)) && modified
      ensures Text() == Apply(old(Text()), Edit(offset, deleteSize0, s))
      ensures var size := Deletable(old(bufferSize), offset, deleteSize0);
              forall m :: m in list ==> m.offset == MovedOffset(offset, size, |s|, old(m.offset)) && m.buffer == old(m.buffer)
      ensures undo' == match undo
                       case Some(us) => Some([UndoReplace(this, UndoOf(old(Text()), Edit(offset, deleteSize0, s)))] + us)
                       case None => None
    {
      hide Linked, LinkedAt, MovedOffset, Splice;
      ghost var was, size0 := Text(), bufferSize;
      var deleteSize := deleteSize0;
      if deleteSize + offset > bufferSize {
        deleteSize := bufferSize - offset;
      }
      var newSize := bufferSize + |s| - deleteSize;
      if newSize >= text.Length {
        AllocateTextSpace(newSize);
      }
      undo' := match undo
        case Some(us) => Some([UndoReplace(this, Edit(offset, |s|, Text()[offset..offset + deleteSize]))] + us)
        case None => None;
      EditText(offset, deleteSize, s);
      UpdateMarkers(offset, deleteSize, |s|);
      forall m: nat | m <= size0
        ensures MovedOffset(offset, deleteSize, |s|, m) <= newSize
      {
        StaysInside(offset, deleteSize, |s|, size0, m);
      }
      modified := true;
    }
  }

  /** removeEditorMarkerFromBufferWithoutFreeing */
  method RemoveMarker(marker: EditorMarker, ghost k: nat)
    requires marker.buffer.Linked() && k < |marker.buffer.list| && marker.buffer.list[k] == marker
    modifies marker.buffer`markers, marker.buffer`list, marker.buffer.list
    ensures marker.buffer == old(marker.buffer) && marker.buffer.Linked()
    ensures marker.buffer.list == old(marker.buffer.list[..k] + marker.buffer.list[k + 1..])
    ensures forall m :: m in old(marker.buffer.list) ==> m.offset == old(m.offset)
  {
    ghost var buffer := marker.buffer;
    ghost var was := buffer.list;
    assert buffer.LinkedAt(k);
    if marker.next != null {
      marker.next.previous := marker.previous;
    }
    if marker.previous == null {
      marker.buffer.markers := marker.next;
    } else {
      marker.previous.next := marker.next;
    }
    buffer.list := was[..k] + was[k + 1..];
    assert forall i :: 0 <= i < |buffer.list| ==> buffer.list[i] == was[if i < k then i else i + 1];
    forall i: nat | i < |buffer.list|
      ensures buffer.LinkedAt(i)
    {
      var j := if i < k then i else i + 1;
      assert old(marker.buffer.LinkedAt(j)) && buffer.list[i] == was[j] && was[j] != marker;
    }
  }

  /** A move of the block from offset1 up to offset2 of the source buffer to `target` in the destination buffer:
      the markers of both, and the offsets that they had. */
  datatype Move = Move(source: EditorBuffer, dest: EditorBuffer, offset1: nat, offset2: nat, target: nat,
                       ms: set<EditorMarker>, ds: set<EditorMarker>, was: map<EditorMarker, nat>)

  // The marker of the source buffer has moved along with the block, or it has stayed.
  ghost predicate DealtWith(v: Move, m: EditorMarker)
    requires m in v.was
    reads m, v.source`list, v.dest`list
  {
    if InBlock(v.was[m], v.offset1, v.offset2) then m.offset == v.target + (v.was[m] - v.offset1) && m in v.dest.list
    else m.offset == v.was[m] && m in v.source.list
  }

  // The markers in `done` have been dealt with, those of `rest` not yet.
  ghost predicate Moving(v: Move, done: set<EditorMarker>, front: seq<EditorMarker>, rest: seq<EditorMarker>)
    reads v.source`list, v.dest`list, v.ms, v.ds
  {
    && v.source.list == front + rest && (forall m :: m in front ==> m in done)
    && v.ms + v.ds <= v.was.Keys && v.ms == done + (set m | m in rest)
    && (forall m :: m in v.dest.list ==> m in v.ms || m in v.ds)
    && (forall m :: m in done && m in v.was ==> DealtWith(v, m))
    && (forall m :: m in rest ==> m !in done && m in v.was && m.offset == v.was[m])
    && (v.source != v.dest ==> forall m :: m in v.ds && m in v.was ==> m.offset == v.was[m] && m in v.dest.list)
  }

  // One marker goes to another list, or to the front of its own.
  method TakeOver(mm: EditorMarker, ghost k: nat, source: EditorBuffer, dest: EditorBuffer, offset: nat, ghost all: set<EditorMarker>)
    requires source.Linked() && dest.Linked() && k < |source.list| && source.list[k] == mm
    requires forall m :: m in source.list || m in dest.list ==> m in all
    modifies source`markers, source`list, dest`markers, dest`list, all
    ensures source.Linked() && dest.Linked() && mm.offset == offset
    ensures source.list == (if source == dest then [mm] else []) + old(source.list[..k] + source.list[k + 1..])
    ensures source != dest ==> dest.list == [mm] + old(dest.list)
    ensures forall m :: m in old(source.list) && m != mm ==> m.offset == old(m.offset)
    ensures source != dest ==> forall m :: m in old(dest.list) ==> m.offset == old(m.offset) && m != mm
  {
    Apart(source, dest, k);
    ghost var rest := source.list[..k] + source.list[k + 1..];
    assert forall m :: m in rest ==> m in source.list;
    if source == dest {
      RemoveMarker(mm, k);
      label Removed: mm.offset := offset;
      source.LinksKept@Removed();
      dest.AttachMarker(mm);
    } else {
      RemoveMarker(mm, k);
      dest.LinksKept();
      label Taken: mm.offset := offset;
      source.LinksKept@Taken();
      dest.LinksKept@Taken();
      label Before: dest.AttachMarker(mm);
      source.LinksKept@Before();
    }
  }

  lemma Owned(b: EditorBuffer)
    requires b.Linked()
    ensures forall m :: m in b.list ==> m.buffer == b
  {
    forall m | m in b.list
      ensures m.buffer == b
    {
      var i: nat :| i < |b.list| && b.list[i] == m;
      assert b.LinkedAt(i);
    }
  }

  // A marker is in the list of its own buffer only.
  lemma Apart(source: EditorBuffer, dest: EditorBuffer, k: nat)
    requires source.Linked() && dest.Linked() && k < |source.list|
    ensures source.list[k].buffer == source && source.list[k] !in source.list[..k] + source.list[k + 1..]
    ensures source != dest ==> forall m :: m in source.list ==> m !in dest.list
  {
    Owned(source);
    Owned(dest);
  }

  // A marker outside of the block stays.
  lemma Stays(v: Move, done: set<EditorMarker>, front: seq<EditorMarker>, rest: seq<EditorMarker>)
    requires v.source.Linked() && Moving(v, done, front, rest) && rest != [] && !InBlock(rest[0].offset, v.offset1, v.offset2)
    ensures Moving(v, done + {rest[0]}, front + [rest[0]], rest[1..])
  {
    hide EditorBuffer.Linked;
    NextOf(v.source, front, rest);
    assert rest == [rest[0]] + rest[1..];
    assert (front + [rest[0]]) + rest[1..] == front + rest;
  }

  // A marker in the block goes to another buffer.
  method Leave(mm: EditorMarker, ghost v: Move, source: EditorBuffer, dest: EditorBuffer, offset1: nat, target: nat,
               ghost done: set<EditorMarker>, ghost front: seq<EditorMarker>, ghost rest: seq<EditorMarker>)
    requires v.source == source && v.dest == dest && v.offset1 == offset1 && v.target == target && source != dest
    requires source.Linked() && dest.Linked() && Moving(v, done, front, rest) && rest != [] && rest[0] == mm
    requires InBlock(mm.offset, v.offset1, v.offset2)
    modifies source`markers, source`list, dest`markers, dest`list, v.ms, v.ds
    ensures source.Linked() && dest.Linked() && Moving(v, done + {mm}, front, rest[1..])
  {
    hide EditorBuffer.Linked, EachOnce;
    NextOf(source, front, rest);
    assert rest == [mm] + rest[1..];
    TakeOver(mm, |front|, source, dest, target + (mm.offset - offset1), v.ms + v.ds);
    assert source.list == front + rest[1..];
    forall m | m in done + {mm} && m in v.was
      ensures DealtWith(v, m)
    {
      assert m in old(source.list) || m in old(dest.list);
    }
  }

  // A marker in the block goes to the front of its own list.
  method ToFront(mm: EditorMarker, ghost v: Move, source: EditorBuffer, offset1: nat, target: nat,
                 ghost done: set<EditorMarker>, ghost front: seq<EditorMarker>, ghost rest: seq<EditorMarker>)
    requires v.source == source && v.dest == source && v.offset1 == offset1 && v.target == target
    requires source.Linked() && Moving(v, done, front, rest) && rest != [] && rest[0] == mm
    requires InBlock(mm.offset, v.offset1, v.offset2)
    modifies source`markers, source`list, v.ms, v.ds
    ensures source.Linked() && Moving(v, done + {mm}, [mm] + front, rest[1..])
  {
    hide EditorBuffer.Linked, EachOnce;
    NextOf(source, front, rest);
    assert rest == [mm] + rest[1..];
    TakeOver(mm, |front|, source, source, target + (mm.offset - offset1), v.ms + v.ds);
    assert source.list == ([mm] + front) + rest[1..];
    forall m | m in done + {mm} && m in v.was
      ensures DealtWith(v, m)
    {
    }
  }

  /** The loop of moveBlockInEditorBuffer over the markers of the source buffer: those in the block go to the
      list of the destination buffer, which may be the same, and to the offset that the block has there. */
  method MoveMarkers(ghost v: Move, source: EditorBuffer, dest: EditorBuffer, offset1: nat, offset2: nat, target: nat)
    requires v.source == source && v.dest == dest && v.offset1 == offset1 && v.offset2 == offset2 && v.target == target
    requires source.Linked() && dest.Linked() && Moving(v, {}, [], source.list)
    modifies source`markers, source`list, dest`markers, dest`list, v.ms, v.ds
    ensures source.Linked() && dest.Linked() && Moving(v, v.ms, source.list, [])
  {
    hide EditorBuffer.Linked, EachOnce, Moving;
    ghost var done: set<EditorMarker>, front: seq<EditorMarker>, rest: seq<EditorMarker> := {}, [], source.list;
    var mm := source.markers;
    FirstOf(source);
    while mm != null
      invariant mm == if rest == [] then null else rest[0]
      invariant source.Linked() && dest.Linked() && Moving(v, done, front, rest)
      decreases |rest|
    {
      MovingList(v, done, front, rest);
      NextOf(source, front, rest);
      var tmp := mm.next;
      if offset1 <= mm.offset < offset2 {
        if source == dest {
          ToFront(mm, v, source, offset1, target, done, front, rest);
          front := [mm] + front;
        } else {
          Leave(mm, v, source, dest, offset1, target, done, front, rest);
        }
      } else {
        Stays(v, done, front, rest);
        front := front + [mm];
      }
      done, rest := done + {mm}, rest[1..];
      mm := tmp;
    }
    MovingList(v, done, front, rest);
  }

  lemma MovingList(v: Move, done: set<EditorMarker>, front: seq<EditorMarker>, rest: seq<EditorMarker>)
    requires Moving(v, done, front, rest)
    ensures v.source.list == front + rest && (rest == [] ==> done == v.ms && front == v.source.list)
  {
  }

  lemma FirstOf(b: EditorBuffer)
    requires b.Linked()
    ensures b.markers == (if b.list == [] then null else b.list[0]) && EachOnce(b.list)
  {
  }

  lemma NextOf(b: EditorBuffer, front: seq<EditorMarker>, rest: seq<EditorMarker>)
    requires b.Linked() && b.list == front + rest && rest != []
    ensures b.list[|front|] == rest[0] && b.list[..|front|] == front && b.list[|front| + 1..] == rest[1..]
    ensures rest[0].next == (if |rest| > 1 then rest[1] else null)
    ensures rest[0] !in front && rest[0] !in rest[1..] && forall m :: m in rest[1..] ==> m in rest
  {
    assert b.LinkedAt(|front|);
    assert forall i :: 0 <= i < |rest| ==> rest[i] == b.list[|front| + i];
    assert forall i :: 0 <= i < |front| ==> front[i] == b.list[i];
  }

  // Two buffers share neither text nor markers.
  ghost predicate Separate(source: EditorBuffer, dest: EditorBuffer)
    reads source, dest
  {
    source != dest ==> source.text != dest.text
  }

  // The block over itself: nothing changes.
  method OverwriteBlock(dest: EditorBuffer, d: nat, block: seq<char>, ghost t0: seq<char>)
    requires dest.Valid() && d <= |t0| && dest.Text() == Splice(t0, d, 0, block) && |dest.Text()| == |t0| + |block|
    modifies dest`text, dest`bufferSize, dest`modified, dest.text, dest.list
    ensures dest.Valid() && dest.list == old(dest.list) && (dest.text == old(dest.text) || fresh(dest.text))
    ensures dest.Text() == old(dest.Text()) && forall m :: m in dest.list ==> m.offset == old(m.offset) && m.buffer == old(m.buffer)
  {
    hide EditorBuffer.Linked, Splice, MovedOffset;
    SpliceTwice(t0, d, block);
    Overwritten(d, |block|);
    var ignored := dest.ReplaceString(d, |block|, block, None);
  }

  lemma Overwritten(d: nat, n: nat)
    ensures forall m: nat :: MovedOffset(d, n, n, m) == m
  {
  }

  // Room for the block in the destination; in the source the block is still where its marker is.
  method MakeRoom(sourceMarker: EditorMarker, source: EditorBuffer, dest: EditorBuffer, d: nat, size: nat)
    requires sourceMarker.buffer == source && source.Valid() && dest.Valid() && Separate(source, dest)
    requires sourceMarker in source.list && sourceMarker.offset + size <= source.bufferSize && d <= dest.bufferSize
    requires source == dest ==> d <= sourceMarker.offset || sourceMarker.offset + size <= d
    modifies dest`text, dest`bufferSize, dest`modified, dest.text, dest.list
    ensures source.Valid() && dest.Valid() && Separate(source, dest) && source.list == old(source.list) && dest.list == old(dest.list)
    ensures dest.text == old(dest.text) || fresh(dest.text)
    ensures dest.Text() == Splice(old(dest.Text()), d, 0, old(source.Text()[sourceMarker.offset..sourceMarker.offset + size]))
    ensures forall m :: m in dest.list ==> m.offset == MovedOffset(d, 0, size, old(m.offset)) && m.buffer == old(m.buffer)
    ensures source != dest ==> source.Text() == old(source.Text()) && forall m :: m in source.list ==> m.offset == old(m.offset)
    ensures sourceMarker.offset == Inserted(source == dest, d, size, old(sourceMarker.offset))
    ensures sourceMarker.offset + size <= source.bufferSize && dest.bufferSize == old(dest.bufferSize) + size
    ensures source.Text()[sourceMarker.offset..sourceMarker.offset + size] == old(source.Text()[sourceMarker.offset..sourceMarker.offset + size])
  {
    hide EditorBuffer.Linked, Splice, MovedOffset, BlockMoved, EachOnce;
    if source != dest {
      Disjoint(source, dest);
    }
    ghost var t0, s := dest.Text(), sourceMarker.offset;
    ghost var block := source.Text()[s..s + size];
    var ignored := dest.ReplaceString(d, 0, source.Text()[sourceMarker.offset..sourceMarker.offset + size], None);
    BlockInserted(t0, s, size, d, block, source == dest);
    if source != dest {
      source.LinksKept();
    }
  }

  /** The first two steps of moveBlockInEditorBuffer: room for the block, and then the block itself, which is
      looked up again because the source may have moved. */
  method InsertBlock(sourceMarker: EditorMarker, source: EditorBuffer, dest: EditorBuffer, d: nat, size: nat)
    returns (offset1: nat)
    requires sourceMarker.buffer == source && source.Valid() && dest.Valid() && Separate(source, dest)
    requires sourceMarker in source.list && sourceMarker.offset + size <= source.bufferSize && d <= dest.bufferSize
    requires source == dest ==> d <= sourceMarker.offset || sourceMarker.offset + size <= d
    modifies dest`text, dest`bufferSize, dest`modified, dest.text, dest.list
    ensures source.Valid() && dest.Valid() && Separate(source, dest) && source.list == old(source.list) && dest.list == old(dest.list)
    ensures dest.text == old(dest.text) || fresh(dest.text)
    ensures dest.Text() == Splice(old(dest.Text()), d, 0, old(source.Text()[sourceMarker.offset..sourceMarker.offset + size]))
    ensures forall m :: m in dest.list ==> m.offset == MovedOffset(d, 0, size, old(m.offset)) && m.buffer == old(m.buffer)
    ensures source != dest ==> source.Text() == old(source.Text()) && forall m :: m in source.list ==> m.offset == old(m.offset)
    ensures offset1 == sourceMarker.offset == Inserted(source == dest, d, size, old(sourceMarker.offset))
    ensures offset1 + size <= source.bufferSize && dest.bufferSize == old(dest.bufferSize) + size
  {
    hide EditorBuffer.Linked, Splice, MovedOffset, BlockMoved, EachOnce;
    if source != dest {
      Disjoint(source, dest);
    }
    ghost var t0 := dest.Text();
    MakeRoom(sourceMarker, source, dest, d, size);
    offset1 := sourceMarker.offset;
    label Room:
    OverwriteBlock(dest, d, source.Text()[offset1..offset1 + size], t0);
    if source != dest {
      source.LinksKept@Room();
    }
  }

  // Writing the block over itself changes nothing; within one buffer, the source is still the block.
  lemma BlockInserted(text: seq<char>, s: nat, n: nat, d: nat, block: seq<char>, same: bool)
    requires d <= |text| && |block| == n
    requires same ==> s + n <= |text| && (d <= s || s + n <= d) && block == text[s..s + n]
    ensures var text1 := Splice(text, d, 0, block);
            && |text1| == |text| + n
            && (same ==> MovedOffset(d, 0, n, s) + n <= |text1| && text1[MovedOffset(d, 0, n, s)..MovedOffset(d, 0, n, s) + n] == block)
  {
    if same {
      MoveEdits(text, s, n, d);
    }
    SpliceTwice(text, d, block);
  }

  lemma SpliceTwice(text: seq<char>, d: nat, block: seq<char>)
    requires d <= |text|
    ensures var text1 := Splice(text, d, 0, block);
            |text1| == |text| + |block| && Splice(text1, d, |block|, block) == text1
  {
    var text1 := Splice(text, d, 0, block);
    assert text1[..d] == text[..d] && text1[d + |block|..] == text[d..];
  }

  lemma Disjoint(source: EditorBuffer, dest: EditorBuffer)
    requires source.Linked() && dest.Linked() && source != dest
    ensures forall m :: m in source.list ==> m !in dest.list
  {
    Owned(source);
    Owned(dest);
  }

  /** moveBlockInEditorBuffer. Within one buffer the block changes places with what lies between, and every
      marker stays on its character; between two buffers the markers of the block go along with it. The undo
      record says where the block lies now, and where to move it back to. */
  method MoveBlock(sourceMarker: EditorMarker, destinationMarker: EditorMarker, source: EditorBuffer, dest: EditorBuffer, size: nat,
                   undo: Option<seq<EditorUndo>>)
    returns (moved: bool, undo': Option<seq<EditorUndo>>)
    requires sourceMarker.buffer == source && destinationMarker.buffer == dest && sourceMarker in source.list && destinationMarker in dest.list
    requires source.Valid() && dest.Valid() && Separate(source, dest) && sourceMarker.offset + size <= source.bufferSize
    modifies source`text, source`bufferSize, source`modified, source`markers, source`list, source.text, source.list
    modifies dest`text, dest`bufferSize, dest`modified, dest`markers, dest`list, dest.text, dest.list
    ensures source.Valid() && dest.Valid() && Separate(source, dest)
    ensures moved <==> !IntoItself(source == dest, old(sourceMarker.offset), size, old(destinationMarker.offset))
    ensures !moved ==> source.Text() == old(source.Text()) && dest.Text() == old(dest.Text()) && undo' == undo
    ensures !moved ==> forall m :: m in old(source.list) || m in old(dest.list) ==> m.offset == old(m.offset)
    ensures moved && source == dest ==>
              && source.Text() == BlockMoved(old(source.Text()), old(sourceMarker.offset), size, old(destinationMarker.offset))
              && forall m :: m in old(source.list) ==>
                   m in source.list && m.offset == BlockOffset(old(sourceMarker.offset), size, old(destinationMarker.offset), old(m.offset))
    ensures moved && source != dest ==>
              && dest.Text() == Splice(old(dest.Text()), old(destinationMarker.offset), 0, old(source.Text()[sourceMarker.offset..sourceMarker.offset + size]))
              && source.Text() == Splice(old(source.Text()), old(sourceMarker.offset), size, [])
              && (forall m :: m in old(dest.list) ==> m in dest.list && m.offset == MovedOffset(old(destinationMarker.offset), 0, size, old(m.offset)))
              && forall m :: m in old(source.list) ==>
                   && (if InBlock(old(m.offset), old(sourceMarker.offset), old(sourceMarker.offset) + size) then m in dest.list else m in source.list)
                   && m.offset == LeavingOffset(old(sourceMarker.offset), size, old(destinationMarker.offset), old(m.offset))
    ensures moved ==> undo' == match undo
              case Some(us) => Some([UndoMove(dest, sourceMarker.offset, size, source, Inserted(source == dest, old(destinationMarker.offset), size, old(sourceMarker.offset)))] + us)
              case None => None
  {
    hide EditorBuffer.Linked, Splice, MovedOffset, BlockMoved, BlockOffset, Moving, Carried, Apply, EachOnce;
    if destinationMarker.buffer == sourceMarker.buffer && destinationMarker.offset > sourceMarker.offset
       && destinationMarker.offset < sourceMarker.offset + size {
      return false, undo;
    }
    var destinationOffset := destinationMarker.offset;
    ghost var t, s, d := source.Text(), sourceMarker.offset, destinationMarker.offset;
    var offset1 := InsertBlock(sourceMarker, source, dest, destinationOffset, size);
    CarryMarkers(source, dest, offset1, size, destinationOffset);
    NotCarried(s, size, d);
    if source == dest {
      MoveEdits(t, s, size, d);
      forall m: nat
        ensures MovedOffset(offset1, size, 0, Carried(offset1, size, d, MovedOffset(d, 0, size, m))) == BlockOffset(s, size, d, m)
      {
        MoveOffsets(s, size, d, m);
      }
    }
    source.modified, dest.modified := true, true;
    moved := true;
    undo' := match undo
      case Some(us) => Some([UndoMove(dest, sourceMarker.offset, size, source, offset1)] + us)
      case None => None;
  }

  /** The last two steps of moveBlockInEditorBuffer: the markers of the block go to where the block is now, and
      the block is removed from its old place. */
  method CarryMarkers(source: EditorBuffer, dest: EditorBuffer, offset1: nat, size: nat, target: nat)
    requires source.Valid() && dest.Valid() && Separate(source, dest)
    requires offset1 + size <= source.bufferSize && target + size <= dest.bufferSize
    modifies source`text, source`bufferSize, source`modified, source`markers, source`list, source.text, source.list
    modifies dest`markers, dest`list, dest.list
    ensures source.Valid() && dest.Valid() && Separate(source, dest)
    ensures source.Text() == Splice(old(source.Text()), offset1, size, [])
    ensures source != dest ==> dest.Text() == old(dest.Text())
    ensures forall m :: m in old(source.list) ==>
              if source == dest || !InBlock(old(m.offset), offset1, offset1 + size)
              then m in source.list && m.offset == MovedOffset(offset1, size, 0, Carried(offset1, size, target, old(m.offset)))
              else m in dest.list && m.offset == target + (old(m.offset) - offset1)
    ensures source != dest ==> forall m :: m in old(dest.list) ==> m in dest.list && m.offset == old(m.offset)
  {
    hide EditorBuffer.Linked, Splice, MovedOffset, Moving, InBlock, Carried, MoveOf;
    ghost var v := MoveOf(source, dest, offset1, offset1 + size, target);
    MoveMarkers(v, source, dest, offset1, offset1 + size, target);
    AllMoved(v);
    StillInside(v);
    label Here: var ignored := source.ReplaceString(offset1, size, [], None);
    if source != dest {
      dest.LinksKept@Here();
    }
  }

  // After the markers have moved, they lie inside their buffers.
  lemma StillInside(v: Move)
    requires v.source.Linked() && v.dest.Linked() && Moving(v, v.ms, v.source.list, [])
    requires (forall m :: m in v.ms && m in v.was ==> v.was[m] <= v.source.bufferSize)
    requires (forall m :: m in v.ds && m in v.was ==> v.was[m] <= v.dest.bufferSize)
    requires v.offset1 <= v.offset2 && v.target + (v.offset2 - v.offset1) <= v.dest.bufferSize
    ensures forall m :: m in v.source.list ==> m.offset <= v.source.bufferSize
    ensures forall m :: m in v.dest.list ==> m.offset <= v.dest.bufferSize
    ensures v.source != v.dest ==> forall m :: m in v.source.list ==> m !in v.dest.list
  {
    hide EditorBuffer.Linked;
    AllMoved(v);
    if v.source != v.dest {
      Disjoint(v.source, v.dest);
    }
    forall m | m in v.source.list
      ensures m.offset <= v.source.bufferSize
    {
    }
    forall m | m in v.dest.list
      ensures m.offset <= v.dest.bufferSize
    {
    }
  }

  lemma AllMoved(v: Move)
    requires Moving(v, v.ms, v.source.list, []) && v.offset1 <= v.offset2
    ensures v.ms + v.ds <= v.was.Keys
    ensures forall m :: m in v.ms ==>
              if v.source == v.dest || !InBlock(v.was[m], v.offset1, v.offset2)
              then m in v.source.list && m.offset == Carried(v.offset1, v.offset2 - v.offset1, v.target, v.was[m])
              else m in v.dest.list && m.offset == v.target + (v.was[m] - v.offset1)
    ensures forall m :: m in v.source.list ==> m in v.ms
    ensures forall m :: m in v.dest.list ==> m in v.ms || m in v.ds
    ensures v.source != v.dest ==> forall m :: m in v.ds ==> m.offset == v.was[m] && m in v.dest.list
  {
  }

  // The move that begins with the markers as they are.
  ghost function MoveOf(source: EditorBuffer, dest: EditorBuffer, offset1: nat, offset2: nat, target: nat): (v: Move)
    reads source`list, dest`list, source.list, dest.list
    ensures v.source == source && v.dest == dest && v.offset1 == offset1 && v.offset2 == offset2 && v.target == target
    ensures Moving(v, {}, [], source.list)
    ensures v.ms == (set m | m in source.list) && v.ds == (set m | m in dest.list) && forall m :: m in v.was ==> v.was[m] == m.offset
  {
    var ms, ds := (set m | m in source.list), (set m | m in dest.list);
    Move(source, dest, offset1, offset2, target, ms, ds, map m | m in ms + ds :: m.offset)
  }
}
