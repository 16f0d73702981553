/** The delta-coded snapshot of references: its writer, its reader, and what survives the round trip (src/cxfile.c). */
module Cxfile {
  import opened Wrappers
  import opened CharacterReader
  import opened Records

  const MAX_FILES := 50000
  const XFILE_HASH_MAX := 3
  const FORMAT_VERSION := " file format: C-xrefactory 1.15.0 "
  const KEYS := "wxyzftulcsrdgk"

  datatype Times = Times(knowledgeSec: nat, knowledgeNsec: nat, changeSec: nat, changeNsec: nat)

  datatype FileEntry = FileEntry(number: nat, name: string, times: Times, isDeleted: bool)

  datatype Reference = Reference(usage: nat, file: nat, line: nat, col: nat)

  datatype Symbol = Symbol(linkName: string, typ: nat, storage: nat, includeFile: nat, isLocal: bool, references: seq<Reference>)

  /** What the file table and the table of referenceable items hold. */
  datatype Snapshot = Snapshot(files: seq<FileEntry>, symbols: seq<Symbol>)

  /** What the reader's handlers are called for. */
  datatype Event =
    | FileSeen(number: nat, name: string, times: Times)
    | SymbolSeen(linkName: string, typ: nat, storage: nat, includeFile: nat)
    | ReferenceSeen(reference: Reference)

  // The tags of the key list.
  ghost function Keys(): set<char> {
    set c | c in KEYS
  }

  // ---- the reader

  /** The reader's last value for each tag (0 at first), the tags that go with numbers, and what it has seen.
      It stops at the version record of another format. */
  datatype Reading = Reading(data: map<char, nat>, keys: set<char>, events: seq<Event>, stopped: bool)

  function Last(data: map<char, nat>, tag: char): nat {
    if tag in data then data[tag] else 0
  }

  // The handlers of snapshotLoadScanDispatchTable.
  function Handled(r: Rec, data: map<char, nat>): seq<Event> {
    if r.tag == FILE_NAME then
      [FileSeen(Last(data, FILE_NUMBER), r.text, Times(Last(data, FILE_KNOWLEDGE_TIME), Last(data, FILE_KNOWLEDGE_TIME_NSEC),
                                                       Last(data, FILE_CHANGE_TIME), Last(data, FILE_CHANGE_TIME_NSEC)))]
    else if r.tag == SYMBOL_NAME then
      [SymbolSeen(r.text, Last(data, SYMBOL_TYPE), Last(data, STORAGE), Last(data, INCLUDEFILENUMBER))]
    else if r.tag == REFERENCE then
      [ReferenceSeen(Reference(Last(data, USAGE), Last(data, FILE_NUMBER), Last(data, LINE_INDEX), Last(data, COLUMN_INDEX)))]
    else []
  }

  // One turn of the loop of scanCxFileUsing.
  function ReadOne(st: Reading, r: Rec): Reading {
    if st.stopped then st else
    var data := if r.tag in st.keys then st.data[r.tag := r.n] else st.data;
    Reading(data, KeysAfter(r, st.keys), st.events + Handled(r, data), r.tag == VERSION && r.text != FORMAT_VERSION)
  }

  function ReadAll(recs: seq<Rec>): Reading {
    if recs == [] then Reading(map[], {}, [], false) else ReadOne(ReadAll(recs[..|recs| - 1]), recs[|recs| - 1])
  }

  lemma ReadMore(recs: seq<Rec>, r: Rec)
    ensures ReadAll(recs + [r]) == ReadOne(ReadAll(recs), r)
  {
    assert (recs + [r])[..|recs|] == recs;
  }

  // ---- the writer

  /** The records written so far, and the writer's last value for each tag. */
  datatype Writing = Writing(recs: seq<Rec>, data: map<char, nat>)

  // writeCompactRecord
  function PutAlways(w: Writing, tag: char, n: nat): Writing {
    Writing(w.recs + [Rec(tag, n, "")], w.data[tag := n])
  }

  // writeOptionalCompactRecord: nothing if the last value was the same.
  function Put(w: Writing, tag: char, n: nat): Writing {
    if tag in w.data && w.data[tag] == n then w else PutAlways(w, tag, n)
  }

  // writeStringRecord
  function PutText(w: Writing, tag: char, s: string): Writing {
    Writing(w.recs + [Rec(tag, |s| + 1, s)], w.data)
  }

  // writeCxFileHead
  function Head(checkNumber: nat): Writing {
    PutAlways(PutText(PutText(Writing([], map[]), VERSION, FORMAT_VERSION), KEY_LIST, KEYS), CHECK_NUMBER, checkNumber)
  }

  // writeFileNumberItem
  function PutFile(w: Writing, f: FileEntry): Writing {
    if f.isDeleted then w else
    var w1 := Put(w, FILE_NUMBER, f.number);
    var w2 := Put(w1, FILE_KNOWLEDGE_TIME, f.times.knowledgeSec);
    var w3 := Put(w2, FILE_KNOWLEDGE_TIME_NSEC, f.times.knowledgeNsec);
    var w4 := Put(w3, FILE_CHANGE_TIME, f.times.changeSec);
    var w5 := Put(w4, FILE_CHANGE_TIME_NSEC, f.times.changeNsec);
    PutText(w5, FILE_NAME, f.name)
  }

  // writeSymbolItem
  function PutSymbol(w: Writing, s: Symbol): Writing {
    var w1 := Put(w, SYMBOL_INDEX, 0);
    var w2 := Put(w1, SYMBOL_TYPE, s.typ);
    var w3 := Put(w2, INCLUDEFILENUMBER, s.includeFile);
    var w4 := Put(w3, STORAGE, s.storage);
    PutText(w4, SYMBOL_NAME, s.linkName)
  }

  // writeCxReferenceBase, when the symbol has been written
  function PutReference(w: Writing, r: Reference): Writing {
    var w1 := Put(w, USAGE, r.usage);
    var w2 := Put(w1, SYMBOL_INDEX, 0);
    var w3 := Put(w2, FILE_NUMBER, r.file);
    var w4 := Put(w3, LINE_INDEX, r.line);
    var w5 := Put(w4, COLUMN_INDEX, r.col);
    PutAlways(w5, REFERENCE, 0)
  }

  // writeReferenceableItem, for the first n references: the symbol comes before the first.
  function PutReferences(w: Writing, s: Symbol, n: nat): Writing
    requires n <= |s.references|
  {
    if n == 0 then w
    else PutReference(if n == 1 then PutSymbol(w, s) else PutReferences(w, s, n - 1), s.references[n - 1])
  }

  function PutItem(w: Writing, s: Symbol): Writing {
    if s.isLocal then w else PutReferences(w, s, |s.references|)
  }

  function PutFiles(w: Writing, files: seq<FileEntry>): Writing {
    if files == [] then w else PutFile(PutFiles(w, files[..|files| - 1]), files[|files| - 1])
  }

  function PutItems(w: Writing, symbols: seq<Symbol>): Writing {
    if symbols == [] then w else PutItem(PutItems(w, symbols[..|symbols| - 1]), symbols[|symbols| - 1])
  }

  /** What writeSingleCxFile writes. */
  function Written(s: Snapshot, checkNumber: nat): Writing {
    PutItems(PutFiles(Head(checkNumber), s.files), s.symbols)
  }

  // ---- what the reader should see

  function FileEvents(files: seq<FileEntry>): seq<Event> {
    if files == [] then [] else
    var f := files[|files| - 1];
    FileEvents(files[..|files| - 1]) + if f.isDeleted then [] else [FileSeen(f.number, f.name, f.times)]
  }

  function ReferenceEvents(refs: seq<Reference>): seq<Event> {
    seq(|refs|, i requires 0 <= i < |refs| => ReferenceSeen(refs[i]))
  }

  function ItemEvents(s: Symbol): seq<Event> {
    if s.isLocal || s.references == [] then []
    else [SymbolSeen(s.linkName, s.typ, s.storage, s.includeFile)] + ReferenceEvents(s.references)
  }

  function SymbolEvents(symbols: seq<Symbol>): seq<Event> {
    if symbols == [] then [] else SymbolEvents(symbols[..|symbols| - 1]) + ItemEvents(symbols[|symbols| - 1])
  }

  /** Every file that is not deleted, and every symbol that is not local and has references, with those. */
  function EventsOf(s: Snapshot): seq<Event> {
    FileEvents(s.files) + SymbolEvents(s.symbols)
  }

  /** Writer and reader are in step: the reader has seen these events, and knows the last value of each tag that
      the writer has written. */
  ghost predicate InStep(w: Writing, events: seq<Event>) {
    var st := ReadAll(w.recs);
    && st.events == events && !st.stopped && st.keys == Keys()
    && forall t :: t in w.data ==> t in st.data && st.data[t] == w.data[t]
  }

  lemma KeysAre()
    ensures Keys() == {FILE_KNOWLEDGE_TIME, FILE_KNOWLEDGE_TIME_NSEC, FILE_CHANGE_TIME, FILE_CHANGE_TIME_NSEC, FILE_NUMBER, SYMBOL_TYPE, USAGE,
                       LINE_INDEX, COLUMN_INDEX, SYMBOL_INDEX, REFERENCE, INCLUDEFILENUMBER, STORAGE, CHECK_NUMBER}
  {
    assert KEYS == ['w', 'x', 'y', 'z', 'f', 't', 'u', 'l', 'c', 's', 'r', 'd', 'g', 'k'];
  }

  lemma StepNumber(w: Writing, events: seq<Event>, tag: char, n: nat)
    requires InStep(w, events) && tag in Keys() && tag != REFERENCE
    ensures InStep(Put(w, tag, n), events) && tag in Put(w, tag, n).data && Put(w, tag, n).data[tag] == n
    ensures forall t :: t in w.data && t != tag ==> t in Put(w, tag, n).data && Put(w, tag, n).data[t] == w.data[t]
  {
    hide ReadAll, Keys;
    KeysAre();
    ReadMore(w.recs, Rec(tag, n, ""));
  }

  // A text record of the body: the handler is called with the last values.
  lemma StepText(w: Writing, events: seq<Event>, tag: char, s: string)
    requires InStep(w, events) && (tag == FILE_NAME || tag == SYMBOL_NAME)
    ensures InStep(PutText(w, tag, s), events + Handled(Rec(tag, |s| + 1, s), ReadAll(w.recs).data)) && PutText(w, tag, s).data == w.data
  {
    hide ReadAll, Keys;
    KeysAre();
    ReadMore(w.recs, Rec(tag, |s| + 1, s));
  }

  // The reader knows what the writer has written last.
  lemma SameLast(w: Writing, events: seq<Event>, tag: char)
    requires InStep(w, events) && tag in w.data
    ensures Last(ReadAll(w.recs).data, tag) == w.data[tag]
  {
  }

  /** One file item is read as it was written. */
  lemma StepFile(w: Writing, events: seq<Event>, f: FileEntry)
    requires InStep(w, events)
    ensures InStep(PutFile(w, f), events + if f.isDeleted then [] else [FileSeen(f.number, f.name, f.times)])
  {
    hide ReadAll, Keys, InStep, Put, PutText, Handled;
    if f.isDeleted {
      assert events + [] == events;
      return;
    }
    KeysAre();
    StepNumber(w, events, FILE_NUMBER, f.number);
    var w1 := Put(w, FILE_NUMBER, f.number);
    StepNumber(w1, events, FILE_KNOWLEDGE_TIME, f.times.knowledgeSec);
    var w2 := Put(w1, FILE_KNOWLEDGE_TIME, f.times.knowledgeSec);
    StepNumber(w2, events, FILE_KNOWLEDGE_TIME_NSEC, f.times.knowledgeNsec);
    var w3 := Put(w2, FILE_KNOWLEDGE_TIME_NSEC, f.times.knowledgeNsec);
    StepNumber(w3, events, FILE_CHANGE_TIME, f.times.changeSec);
    var w4 := Put(w3, FILE_CHANGE_TIME, f.times.changeSec);
    StepNumber(w4, events, FILE_CHANGE_TIME_NSEC, f.times.changeNsec);
    var w5 := Put(w4, FILE_CHANGE_TIME_NSEC, f.times.changeNsec);
    SameLast(w5, events, FILE_NUMBER);
    SameLast(w5, events, FILE_KNOWLEDGE_TIME);
    SameLast(w5, events, FILE_KNOWLEDGE_TIME_NSEC);
    SameLast(w5, events, FILE_CHANGE_TIME);
    SameLast(w5, events, FILE_CHANGE_TIME_NSEC);
    StepText(w5, events, FILE_NAME, f.name);
    HandledFile(Rec(FILE_NAME, |f.name| + 1, f.name), ReadAll(w5.recs).data);
  }

  lemma HandledFile(r: Rec, data: map<char, nat>)
    requires r.tag == FILE_NAME
    ensures Handled(r, data) == [FileSeen(Last(data, FILE_NUMBER), r.text, Times(Last(data, FILE_KNOWLEDGE_TIME), Last(data, FILE_KNOWLEDGE_TIME_NSEC),
                                                                                Last(data, FILE_CHANGE_TIME), Last(data, FILE_CHANGE_TIME_NSEC)))]
  {
  }

  /** A symbol is read as it was written. */
  lemma StepSymbol(w: Writing, events: seq<Event>, s: Symbol)
    requires InStep(w, events)
    ensures InStep(PutSymbol(w, s), events + [SymbolSeen(s.linkName, s.typ, s.storage, s.includeFile)])
  {
    hide ReadAll, Keys, InStep, Put, PutText, Handled;
    KeysAre();
    StepNumber(w, events, SYMBOL_INDEX, 0);
    var w1 := Put(w, SYMBOL_INDEX, 0);
    StepNumber(w1, events, SYMBOL_TYPE, s.typ);
    var w2 := Put(w1, SYMBOL_TYPE, s.typ);
    StepNumber(w2, events, INCLUDEFILENUMBER, s.includeFile);
    var w3 := Put(w2, INCLUDEFILENUMBER, s.includeFile);
    StepNumber(w3, events, STORAGE, s.storage);
    var w4 := Put(w3, STORAGE, s.storage);
    SameLast(w4, events, SYMBOL_TYPE);
    SameLast(w4, events, INCLUDEFILENUMBER);
    SameLast(w4, events, STORAGE);
    StepText(w4, events, SYMBOL_NAME, s.linkName);
    HandledSymbol(Rec(SYMBOL_NAME, |s.linkName| + 1, s.linkName), ReadAll(w4.recs).data);
  }

  lemma HandledSymbol(r: Rec, data: map<char, nat>)
    requires r.tag == SYMBOL_NAME
    ensures Handled(r, data) == [SymbolSeen(r.text, Last(data, SYMBOL_TYPE), Last(data, STORAGE), Last(data, INCLUDEFILENUMBER))]
  {
  }

  /** A reference is read as it was written. */
  lemma StepReference(w: Writing, events: seq<Event>, r: Reference)
    requires InStep(w, events)
    ensures InStep(PutReference(w, r), events + [ReferenceSeen(r)])
  {
    hide ReadAll, Keys, InStep, Put, PutAlways;
    KeysAre();
    StepNumber(w, events, USAGE, r.usage);
    var w1 := Put(w, USAGE, r.usage);
    StepNumber(w1, events, SYMBOL_INDEX, 0);
    var w2 := Put(w1, SYMBOL_INDEX, 0);
    StepNumber(w2, events, FILE_NUMBER, r.file);
    var w3 := Put(w2, FILE_NUMBER, r.file);
    StepNumber(w3, events, LINE_INDEX, r.line);
    var w4 := Put(w3, LINE_INDEX, r.line);
    StepNumber(w4, events, COLUMN_INDEX, r.col);
    var w5 := Put(w4, COLUMN_INDEX, r.col);
    SameLast(w5, events, USAGE);
    SameLast(w5, events, FILE_NUMBER);
    SameLast(w5, events, LINE_INDEX);
    SameLast(w5, events, COLUMN_INDEX);
    StepLast(w5, events, r);
  }

  // The record that ends a reference.
  lemma StepLast(w: Writing, events: seq<Event>, r: Reference)
    requires InStep(w, events)
    requires var data := ReadAll(w.recs).data;
             Last(data, USAGE) == r.usage && Last(data, FILE_NUMBER) == r.file && Last(data, LINE_INDEX) == r.line && Last(data, COLUMN_INDEX) == r.col
    ensures InStep(PutAlways(w, REFERENCE, 0), events + [ReferenceSeen(r)])
  {
    hide ReadAll, Keys;
    KeysAre();
    ReadMore(w.recs, Rec(REFERENCE, 0, ""));
  }

  lemma {:induction false} StepReferences(w: Writing, events: seq<Event>, s: Symbol, n: nat)
    requires InStep(w, events) && 1 <= n <= |s.references|
    ensures InStep(PutReferences(w, s, n),
                   events + [SymbolSeen(s.linkName, s.typ, s.storage, s.includeFile)] + ReferenceEvents(s.references[..n]))
    decreases n
  {
    hide InStep, PutSymbol, PutReference;
    var seen := events + [SymbolSeen(s.linkName, s.typ, s.storage, s.includeFile)];
    if n == 1 {
      StepSymbol(w, events, s);
      StepReference(PutSymbol(w, s), seen, s.references[0]);
      assert seen + [ReferenceSeen(s.references[0])] == seen + ReferenceEvents(s.references[..1]);
    } else {
      StepReferences(w, events, s, n - 1);
      StepReference(PutReferences(w, s, n - 1), seen + ReferenceEvents(s.references[..n - 1]), s.references[n - 1]);
      assert seen + ReferenceEvents(s.references[..n - 1]) + [ReferenceSeen(s.references[n - 1])] == seen + ReferenceEvents(s.references[..n]);
    }
  }

  lemma StepItem(w: Writing, events: seq<Event>, s: Symbol)
    requires InStep(w, events)
    ensures InStep(PutItem(w, s), events + ItemEvents(s))
  {
    hide InStep, PutSymbol, PutReference;
    if s.isLocal || s.references == [] {
      assert events + [] == events;
    } else {
      StepReferences(w, events, s, |s.references|);
      assert s.references[..|s.references|] == s.references;
      assert events + [SymbolSeen(s.linkName, s.typ, s.storage, s.includeFile)] + ReferenceEvents(s.references) == events + ItemEvents(s);
    }
  }

  lemma {:induction false} StepFiles(w: Writing, events: seq<Event>, files: seq<FileEntry>)
    requires InStep(w, events)
    ensures InStep(PutFiles(w, files), events + FileEvents(files))
  {
    hide InStep, PutFile;
    if files == [] {
      assert events + [] == events;
    } else {
      var rest, f := files[..|files| - 1], files[|files| - 1];
      StepFiles(w, events, rest);
      StepFile(PutFiles(w, rest), events + FileEvents(rest), f);
      assert events + FileEvents(rest) + (if f.isDeleted then [] else [FileSeen(f.number, f.name, f.times)]) == events + FileEvents(files);
    }
  }

  lemma {:induction false} StepItems(w: Writing, events: seq<Event>, symbols: seq<Symbol>)
    requires InStep(w, events)
    ensures InStep(PutItems(w, symbols), events + SymbolEvents(symbols))
  {
    hide InStep, PutItem, ItemEvents;
    if symbols == [] {
      assert events + [] == events;
    } else {
      var rest := symbols[..|symbols| - 1];
      StepItems(w, events, rest);
      StepItem(PutItems(w, rest), events + SymbolEvents(rest), symbols[|symbols| - 1]);
      assert events + SymbolEvents(rest) + ItemEvents(symbols[|symbols| - 1]) == events + SymbolEvents(symbols);
    }
  }

  lemma StepHead(checkNumber: nat)
    ensures InStep(Head(checkNumber), [])
  {
    hide ReadAll, ReadOne;
    var version, keys, check := Rec(VERSION, |FORMAT_VERSION| + 1, FORMAT_VERSION), Rec(KEY_LIST, |KEYS| + 1, KEYS), Rec(CHECK_NUMBER, checkNumber, "");
    ReadNothing();
    ReadMore([], version);
    ReadMore([version], keys);
    ReadMore([version, keys], check);
    HeadRecords(version, keys, check);
    assert [version] == [] + [version] && [version, keys] == [version] + [keys];
    assert Head(checkNumber).recs == [version, keys] + [check];
  }

  // The version is the reader's own, and the key list tells it which tags go with numbers.
  lemma HeadRecords(version: Rec, keys: Rec, check: Rec)
    requires version.tag == VERSION && version.text == FORMAT_VERSION && keys.tag == KEY_LIST && keys.text == KEYS && check.tag == CHECK_NUMBER
    ensures ReadOne(Reading(map[], {}, [], false), version) == Reading(map[], {}, [], false)
    ensures ReadOne(Reading(map[], {}, [], false), keys) == Reading(map[], Keys(), [], false)
    ensures ReadOne(Reading(map[], Keys(), [], false), check) == Reading(map[CHECK_NUMBER := check.n], Keys(), [], false)
  {
    hide Keys;
    KeyListRead(keys);
    CheckNumberRead(check);
    VersionRead(version);
  }

  lemma VersionRead(r: Rec)
    requires r.tag == VERSION && r.text == FORMAT_VERSION
    ensures ReadOne(Reading(map[], {}, [], false), r) == Reading(map[], {}, [], false)
  {
  }

  lemma KeyListRead(r: Rec)
    requires r.tag == KEY_LIST && r.text == KEYS
    ensures ReadOne(Reading(map[], {}, [], false), r) == Reading(map[], Keys(), [], false)
  {
    assert KeysAfter(r, {}) == Keys();
    hide Keys;
  }

  lemma CheckNumberRead(r: Rec)
    requires r.tag == CHECK_NUMBER
    ensures ReadOne(Reading(map[], Keys(), [], false), r) == Reading(map[CHECK_NUMBER := r.n], Keys(), [], false)
  {
    hide Keys;
    KeysAre();
  }

  lemma ReadNothing()
    ensures ReadAll([]) == Reading(map[], {}, [], false)
  {
  }

  /** What is read from the records of a snapshot is what the snapshot was written from. */
  lemma RecordsRoundTrip(s: Snapshot, checkNumber: nat)
    ensures ReadAll(Written(s, checkNumber).recs).events == EventsOf(s) && !ReadAll(Written(s, checkNumber).recs).stopped
  {
    hide Head, PutFiles, PutItems, ReadAll, FileEvents, SymbolEvents;
    StepHead(checkNumber);
    StepFiles(Head(checkNumber), [], s.files);
    StepItems(PutFiles(Head(checkNumber), s.files), [] + FileEvents(s.files), s.symbols);
    assert [] + FileEvents(s.files) + SymbolEvents(s.symbols) == EventsOf(s);
  }

  // The keys that the reader knows after these pieces.
  ghost function KeysEnd(pieces: seq<Piece>, keys: set<char>): set<char> {
    if pieces == [] then keys
    else KeysEnd(pieces[1..], match pieces[0] case Blank(_) => keys case Record(r) => KeysAfter(r, keys))
  }

  // One more piece.
  lemma OnePiece(pieces: seq<Piece>, p: Piece, keys: set<char>)
    requires AllReadable(pieces, keys) && AllReadable([p], KeysEnd(pieces, keys))
    ensures AllReadable(pieces + [p], keys) && KeysEnd(pieces + [p], keys) == KeysEnd([p], KeysEnd(pieces, keys))
    ensures Out(pieces + [p]) == Out(pieces) + Out([p]) && RecsOf(pieces + [p]) == RecsOf(pieces) + RecsOf([p])
  {
    hide AllReadable, KeysEnd, Out, RecsOf;
    OnePieceRead(pieces, p, keys);
    OnePieceOut(pieces, p);
  }

  lemma {:induction false} OnePieceRead(pieces: seq<Piece>, p: Piece, keys: set<char>)
    requires AllReadable(pieces, keys) && AllReadable([p], KeysEnd(pieces, keys))
    ensures AllReadable(pieces + [p], keys) && KeysEnd(pieces + [p], keys) == KeysEnd([p], KeysEnd(pieces, keys))
    decreases |pieces|
  {
    if pieces == [] {
      assert pieces + [p] == [p];
    } else {
      assert (pieces + [p])[0] == pieces[0] && (pieces + [p])[1..] == pieces[1..] + [p];
      OnePieceRead(pieces[1..], p, match pieces[0] case Blank(_) => keys case Record(r) => KeysAfter(r, keys));
    }
  }

  lemma {:induction false} OnePieceOut(pieces: seq<Piece>, p: Piece)
    ensures Out(pieces + [p]) == Out(pieces) + Out([p]) && RecsOf(pieces + [p]) == RecsOf(pieces) + RecsOf([p])
    decreases |pieces|
  {
    hide Rendered;
    if pieces == [] {
      assert pieces + [p] == [p];
    } else {
      assert (pieces + [p])[0] == pieces[0] && (pieces + [p])[1..] == pieces[1..] + [p];
      OnePieceOut(pieces[1..], p);
    }
  }

  lemma OneRecord(r: Rec, keys: set<char>)
    requires Readable(r, keys)
    ensures AllReadable([Record(r)], keys) && KeysEnd([Record(r)], keys) == KeysAfter(r, keys)
    ensures Out([Record(r)]) == Rendered(r) && RecsOf([Record(r)]) == [r]
  {
    assert [Record(r)][1..] == [];
  }

  lemma OneBlank(s: string, keys: set<char>)
    requires forall i :: 0 <= i < |s| ==> IsBlank(s[i])
    ensures AllReadable([Blank(s)], keys) && KeysEnd([Blank(s)], keys) == keys && Out([Blank(s)]) == s && RecsOf([Blank(s)]) == []
  {
    assert [Blank(s)][1..] == [];
  }

  /** The output file and lastOutgoingData.data, where a tag that has not been written counts as -1; and what they
      mean: the pieces written, the keys that a reader knows by then, and the writer's state. */
  class CxWriter {
    var cxFile: string
    var data: map<char, nat>
    ghost var pieces: seq<Piece>
    ghost var keys: set<char>
    ghost var w: Writing

    ghost predicate Valid()
      reads this
    {
      && cxFile == Out(pieces) && w == Writing(RecsOf(pieces), data)
      && AllReadable(pieces, {}) && KeysEnd(pieces, {}) == keys
    }

    constructor ()
      ensures Valid() && w == Writing([], map[]) && keys == {}
    {
      cxFile, data, pieces, keys, w := "", map[], [], {}, Writing([], map[]);
    }

    // fputs of a blank prefix
    method WriteBlank(s: string)
      requires Valid() && forall i :: 0 <= i < |s| ==> IsBlank(s[i])
      modifies this
      ensures Valid() && w == old(w) && keys == old(keys)
    {
      hide AllReadable, KeysEnd, Out, RecsOf;
      OneBlank(s, keys);
      OnePiece(pieces, Blank(s), {});
      cxFile, pieces := cxFile + s, pieces + [Blank(s)];
    }

    // One record, as characters.
    method WriteRecord(ghost r: Rec, tag: char, n: nat, text: string)
      requires Valid() && r == Rec(tag, n, text) && Readable(r, keys)
      modifies this
      ensures Valid() && w == Writing(old(w.recs) + [r], old(w.data)) && keys == KeysAfter(r, old(keys)) && data == old(data)
    {
      hide AllReadable, KeysEnd, Out, RecsOf;
      OneRecord(r, keys);
      OnePiece(pieces, Record(r), {});
      var decimal := if n != 0 then Decimal(n) else "";
      cxFile := cxFile + (decimal + [tag] + text);
      pieces, keys, w := pieces + [Record(r)], KeysAfter(r, keys), Writing(w.recs + [r], data);
    }

    /** writeCompactRecord */
    method WriteCompactRecord(tag: char, n: nat, blankPrefix: string)
      requires Valid() && Readable(Rec(tag, n, ""), keys) && tag != KEY_LIST && forall i :: 0 <= i < |blankPrefix| ==> IsBlank(blankPrefix[i])
      modifies this
      ensures Valid() && w == PutAlways(old(w), tag, n) && keys == old(keys)
    {
      hide AllReadable, KeysEnd, Out, RecsOf;
      if blankPrefix != "" {
        WriteBlank(blankPrefix);
      }
      WriteRecord(Rec(tag, n, ""), tag, n, "");
      data := data[tag := n];
      w := Writing(w.recs, data);
    }

    /** writeOptionalCompactRecord: the blanks come even if the record does not. */
    method WriteOptionalCompactRecord(tag: char, n: nat, blankPrefix: string)
      requires Valid() && Readable(Rec(tag, n, ""), keys) && tag != KEY_LIST && forall i :: 0 <= i < |blankPrefix| ==> IsBlank(blankPrefix[i])
      modifies this
      ensures Valid() && w == Put(old(w), tag, n) && keys == old(keys)
    {
      hide AllReadable, KeysEnd, Out, RecsOf;
      if blankPrefix != "" {
        WriteBlank(blankPrefix);
      }
      var last := if tag in data then data[tag] else -1;
      if last != n {
        WriteCompactRecord(tag, n, "");
      }
    }

    /** writeStringRecord */
    method WriteStringRecord(tag: char, text: string, prefix: string)
      requires Valid() && Readable(Rec(tag, |text| + 1, text), keys) && forall i :: 0 <= i < |prefix| ==> IsBlank(prefix[i])
      modifies this
      ensures Valid() && w == PutText(old(w), tag, text) && keys == KeysAfter(Rec(tag, |text| + 1, text), old(keys))
    {
      hide AllReadable, KeysEnd, Out, RecsOf;
      if prefix != "" {
        WriteBlank(prefix);
      }
      WriteRecord(Rec(tag, |text| + 1, text), tag, |text| + 1, text);
    }

    /** writeFileNumberItem */
    method WriteFileNumberItem(f: FileEntry)
      requires Valid() && keys == Keys()
      modifies this
      ensures Valid() && w == PutFile(old(w), f) && keys == Keys()
    {
      hide AllReadable, KeysEnd, Out, RecsOf, Keys, Put, PutText;
      KeysAre();
      if f.isDeleted {
        return;
      }
      WriteOptionalCompactRecord(FILE_NUMBER, f.number, "\n");
      WriteOptionalCompactRecord(FILE_KNOWLEDGE_TIME, f.times.knowledgeSec, " ");
      WriteOptionalCompactRecord(FILE_KNOWLEDGE_TIME_NSEC, f.times.knowledgeNsec, "");
      WriteOptionalCompactRecord(FILE_CHANGE_TIME, f.times.changeSec, "");
      WriteOptionalCompactRecord(FILE_CHANGE_TIME_NSEC, f.times.changeNsec, "");
      WriteStringRecord(FILE_NAME, f.name, " ");
    }

    /** writeSymbolItem */
    method WriteSymbolItem(s: Symbol)
      requires Valid() && keys == Keys()
      modifies this
      ensures Valid() && w == PutSymbol(old(w), s) && keys == Keys()
    {
      hide AllReadable, KeysEnd, Out, RecsOf, Keys, Put, PutText;
      KeysAre();
      WriteOptionalCompactRecord(SYMBOL_INDEX, 0, "");
      WriteOptionalCompactRecord(SYMBOL_TYPE, s.typ, "\n");
      WriteOptionalCompactRecord(INCLUDEFILENUMBER, s.includeFile, "");
      WriteOptionalCompactRecord(STORAGE, s.storage, "");
      WriteStringRecord(SYMBOL_NAME, s.linkName, "\t");
      WriteBlank("\t");
    }

    /** writeCxReferenceBase, after writeSymbolItemIfNotWritten */
    method WriteCxReference(r: Reference)
      requires Valid() && keys == Keys()
      modifies this
      ensures Valid() && w == PutReference(old(w), r) && keys == Keys()
    {
      hide AllReadable, KeysEnd, Out, RecsOf, Keys, Put, PutAlways;
      KeysAre();
      WriteOptionalCompactRecord(USAGE, r.usage, "");
      WriteOptionalCompactRecord(SYMBOL_INDEX, 0, "");
      WriteOptionalCompactRecord(FILE_NUMBER, r.file, "");
      WriteOptionalCompactRecord(LINE_INDEX, r.line, "");
      WriteOptionalCompactRecord(COLUMN_INDEX, r.col, "");
      WriteCompactRecord(REFERENCE, 0, "");
    }

    /** writeReferenceableItem: the symbol is written only when there is a reference to write. */
    method WriteReferenceableItem(s: Symbol)
      requires Valid() && keys == Keys()
      modifies this
      ensures Valid() && w == PutItem(old(w), s) && keys == Keys()
    {
      hide AllReadable, KeysEnd, Out, RecsOf, Keys, PutSymbol, PutReference;
      var symbolIsWritten := false;
      if s.isLocal {
        return;
      }
      for i := 0 to |s.references|
        invariant Valid() && keys == Keys() && w == PutReferences(old(w), s, i) && (symbolIsWritten <==> i > 0)
      {
        if !symbolIsWritten {
          WriteSymbolItem(s);
          symbolIsWritten := true;
        }
        WriteCxReference(s.references[i]);
      }
    }

    /** writeCxFileHead */
    method WriteCxFileHead(exactPositionResolve: bool)
      requires Valid() && w == Writing([], map[]) && keys == {}
      modifies this
      ensures Valid() && w == Head(ComposeCheckNumber(MAX_FILES, exactPositionResolve)) && keys == Keys()
    {
      hide AllReadable, KeysEnd, Out, RecsOf, Keys;
      WriteStringRecord(VERSION, FORMAT_VERSION, "\n\n");
      WriteBlank("\n\n\n");
      WriteStringRecord(KEY_LIST, KEYS, "");
      KeyListKeys();
      WriteCompactRecord(CHECK_NUMBER, ComposeCheckNumber(MAX_FILES, exactPositionResolve), " ");
    }
  }

  lemma KeyListKeys()
    ensures KeysAfter(Rec(KEY_LIST, |KEYS| + 1, KEYS), {}) == Keys()
  {
  }

  // composeCxfiCheckNum
  function ComposeCheckNumber(fileCount: nat, exactPosition: bool): nat {
    fileCount * XFILE_HASH_MAX * 2 + if exactPosition then 1 else 0
  }

  // decomposeCxfiCheckNum
  function DecomposeCheckNumber(n: nat): (nat, bool) {
    (n / 2 / XFILE_HASH_MAX, n % 2 == 1)
  }

  lemma CheckNumberRoundTrip(fileCount: nat, exactPosition: bool)
    ensures DecomposeCheckNumber(ComposeCheckNumber(fileCount, exactPosition)) == (fileCount, exactPosition)
  {
  }

  /** writeSingleCxFile */
  method WriteSnapshot(s: Snapshot, exactPositionResolve: bool) returns (text: string)
    ensures Scan(text, {}) == Written(s, ComposeCheckNumber(MAX_FILES, exactPositionResolve)).recs
  {
    hide AllReadable, KeysEnd, Out, RecsOf, Keys, Head, Scan, PutFile, PutItem;
    var writer := new CxWriter();
    writer.WriteCxFileHead(exactPositionResolve);
    ghost var head := writer.w;
    for i := 0 to |s.files|
      invariant writer.Valid() && writer.keys == Keys() && writer.w == PutFiles(head, s.files[..i])
    {
      assert s.files[..i + 1][..i] == s.files[..i];
      writer.WriteFileNumberItem(s.files[i]);
    }
    assert s.files[..|s.files|] == s.files;
    ghost var files := writer.w;
    for i := 0 to |s.symbols|
      invariant writer.Valid() && writer.keys == Keys() && writer.w == PutItems(files, s.symbols[..i])
    {
      assert s.symbols[..i + 1][..i] == s.symbols[..i];
      writer.WriteReferenceableItem(s.symbols[i]);
    }
    assert s.symbols[..|s.symbols|] == s.symbols;
    text := writer.cxFile;
    ScanOut(writer.pieces, {});
  }

  // ---- reading characters

  // The character that has been read, and those that follow it.
  ghost function Rest(ch: Option<char>, cb: CharacterBuffer): string
    requires cb.Valid()
    reads cb, cb.chars
  {
    if ch.None? then "" else [ch.value] + cb.Remaining()
  }

  // getChar, when there is a character before.
  method NextChar(cb: CharacterBuffer, ghost ch0: Option<char>) returns (ch: Option<char>)
    requires cb.Valid() && ch0.Some?
    modifies cb, cb.chars
    ensures cb.Valid() && (ch.None? ==> cb.isAtEOF) && (ch.None? <== cb.isAtEOF)
    ensures Rest(ch, cb) == old(cb.Remaining()) == old(Rest(ch0, cb))[1..]
  {
    ghost var text := Rest(ch0, cb);
    assert text[1..] == cb.Remaining();
    ch := cb.GetChar();
  }

  /** scanInteger, with the blanks before it */
  method ScanInteger(cb: CharacterBuffer, ch0: Option<char>) returns (n: nat, ch: Option<char>)
    requires cb.Valid() && (ch0.None? <==> cb.isAtEOF)
    modifies cb, cb.chars
    ensures cb.Valid() && (ch.None? <==> cb.isAtEOF)
    ensures (n, Rest(ch, cb)) == Number(SkipBlanks(old(Rest(ch0, cb))), 0)
  {
    hide CharacterBuffer.Remaining;
    ghost var text := Rest(ch0, cb);
    ch := ch0;
    while ch.Some? && IsBlank(ch.value)
      invariant cb.Valid() && (ch.None? <==> cb.isAtEOF) && SkipBlanks(Rest(ch, cb)) == SkipBlanks(text)
      decreases |Rest(ch, cb)|
    {
      ch := NextChar(cb, ch);
    }
    n, ch := ScanDigits(cb, ch);
  }

  // The digits of scanInteger.
  method ScanDigits(cb: CharacterBuffer, ch0: Option<char>) returns (n: nat, ch: Option<char>)
    requires cb.Valid() && (ch0.None? <==> cb.isAtEOF)
    modifies cb, cb.chars
    ensures cb.Valid() && (ch.None? <==> cb.isAtEOF)
    ensures (n, Rest(ch, cb)) == Number(old(Rest(ch0, cb)), 0)
  {
    hide CharacterBuffer.Remaining;
    ghost var text := Rest(ch0, cb);
    n, ch := 0, ch0;
    while ch.Some? && IsDigit(ch.value)
      invariant cb.Valid() && (ch.None? <==> cb.isAtEOF) && Number(Rest(ch, cb), n) == Number(text, 0)
      decreases |Rest(ch, cb)|
    {
      NumberStep(Rest(ch, cb), n);
      n := n * 10 + Value(ch.value);
      ch := NextChar(cb, ch);
    }
  }

  lemma NumberStep(s: string, n: nat)
    requires s != [] && IsDigit(s[0])
    ensures Number(s, n) == Number(s[1..], n * 10 + Value(s[0]))
  {
  }

  // What the scanner makes of s, when it has come to st.
  ghost function ReadOn(st: Reading, recs: seq<Rec>): Reading
    decreases |recs|
  {
    if recs == [] then st else ReadOn(ReadOne(st, recs[0]), recs[1..])
  }

  lemma {:induction false} ReadOnAll(recs: seq<Rec>, n: nat)
    requires n <= |recs|
    ensures ReadOn(ReadAll(recs[..n]), recs[n..]) == ReadAll(recs)
    decreases |recs| - n
  {
    if n == |recs| {
      assert recs[..n] == recs;
    } else {
      assert recs[..n + 1] == recs[..n] + [recs[n]];
      ReadMore(recs[..n], recs[n]);
      assert recs[n..][1..] == recs[n + 1..];
      ReadOnAll(recs, n + 1);
    }
  }

  lemma {:induction false} ReadOnStopped(st: Reading, recs: seq<Rec>)
    requires st.stopped
    ensures ReadOn(st, recs) == st
    decreases |recs|
  {
    if recs != [] {
      ReadOnStopped(st, recs[1..]);
    }
  }

  // One record of the scan.
  lemma {:induction false} ScanStep(st: Reading, s: string, n: nat, tail: string)
    requires Number(SkipBlanks(s), 0) == (n, tail)
    ensures tail == [] ==> ReadOn(st, Scan(s, st.keys)) == st
    ensures tail != [] && !st.stopped ==>
              var length := if IsNumberTag(tail[0], st.keys) || n == 0 then 0 else n - 1;
              var st' := ReadOne(st, Rec(tail[0], n, Padded(tail[1..], length)));
              ReadOn(st, Scan(s, st.keys)) == ReadOn(st', Scan(Dropped(tail[1..], length), st'.keys))
  {
    if tail != [] && !st.stopped {
      var length := if IsNumberTag(tail[0], st.keys) || n == 0 then 0 else n - 1;
      var r := Rec(tail[0], n, Padded(tail[1..], length));
      assert Scan(s, st.keys) == [r] + Scan(Dropped(tail[1..], length), KeysAfter(r, st.keys));
      assert ([r] + Scan(Dropped(tail[1..], length), KeysAfter(r, st.keys)))[1..] == Scan(Dropped(tail[1..], length), KeysAfter(r, st.keys));
    }
  }

  lemma NothingLeft()
    ensures Number(SkipBlanks(""), 0) == (0, "")
  {
  }

  // What is skipped does not matter.
  lemma SkippedUnread(st: Reading, tag: char, n: nat, s: string, s': string)
    requires !IsTextTag(tag)
    ensures ReadOne(st, Rec(tag, n, s)) == ReadOne(st, Rec(tag, n, s'))
  {
  }

  // What follows the tag of a record, and the handler for it.
  method ReadRecord(cb: CharacterBuffer, st0: Reading, n: nat, ch0: Option<char>) returns (st: Reading, ch: Option<char>)
    requires cb.Valid() && !cb.isAtEOF && ch0.Some? && !st0.stopped
    modifies cb, cb.chars
    ensures cb.Valid() && (ch.None? <==> cb.isAtEOF)
    ensures var tail := old(Rest(ch0, cb));
            var length := if IsNumberTag(tail[0], st0.keys) || n == 0 then 0 else n - 1;
            st == ReadOne(st0, Rec(tail[0], n, Padded(tail[1..], length))) && Rest(ch, cb) == Dropped(tail[1..], length)
  {
    hide ReadOne, Padded, Dropped, CharacterBuffer.Remaining;
    ghost var tail := Rest(ch0, cb);
    assert tail[1..] == cb.Remaining();
    PaddedNone(tail[1..]);
    var tag, s, length := ch0.value, "", if n == 0 then 0 else n - 1;
    if IsTextTag(tag) {
      PaddedMore(tail[1..], length);
      s := cb.GetString(length);
    } else if !IsNumberTag(tag, st0.keys) {
      cb.SkipCharacters(length);
      SkippedUnread(st0, tag, n, "", Padded(tail[1..], length));
    }
    st := ReadOne(st0, Rec(tag, n, s));
    ch := cb.GetChar();
  }

  /** scanCxFileUsing with the handlers of the snapshot: what has been seen when the file ends, or when the
      version record turns out to be of another format. */
  method ScanCxFile(file: string) returns (st: Reading)
    ensures st == ReadAll(Scan(file, {}))
  {
    hide Scan, Number, SkipBlanks, ReadOn, ReadOne, ReadAll, Padded, Dropped, CharacterBuffer.Remaining;
    var cb := new CharacterBuffer(file);
    ScanBlanks(" ", file, {});
    ghost var recs := Scan(file, {});
    ReadOnAll(recs, 0);
    ReadNothing();
    assert recs[..0] == [] && recs[0..] == recs;
    st := Reading(map[], {}, [], false);
    var ch := Some(' ');
    while !cb.isAtEOF && !st.stopped
      invariant cb.Valid() && fresh(cb) && fresh(cb.chars) && (ch.None? <==> cb.isAtEOF)
      invariant st.stopped ==> st == ReadAll(recs)
      invariant !st.stopped ==> ReadOn(st, Scan(Rest(ch, cb), st.keys)) == ReadAll(recs)
      decreases |Rest(ch, cb)|
    {
      ghost var text := Rest(ch, cb);
      var n;
      n, ch := ScanInteger(cb, ch);
      ghost var tail := Rest(ch, cb);
      ScanStep(st, text, n, tail);
      Shorter(text, tail, n);
      if cb.isAtEOF {
        break;
      }
      st, ch := ReadRecord(cb, st, n, ch);
      if st.stopped {
        ReadOnStopped(st, Scan(Rest(ch, cb), st.keys));
      }
    }
    if !st.stopped {
      NothingLeft();
      ScanStep(st, "", 0, "");
    }
  }

  lemma {:induction false} Shorter(text: string, tail: string, n: nat)
    requires Number(SkipBlanks(text), 0) == (n, tail)
    ensures |tail| <= |text| && forall length: nat {:trigger Dropped(tail[1..], length)} :: tail != [] ==> |Dropped(tail[1..], length)| < |tail|
  {
    hide Number, SkipBlanks;
    assert |Number(SkipBlanks(text), 0).1| <= |SkipBlanks(text)| <= |text|;
  }

  // ---- from the one to the other

  /** The snapshot round trip: scanning what has been written shows every file that is not deleted, with its
      times, and every symbol that is not local and has references, with these, in order. */
  method SaveAndLoad(s: Snapshot, exactPositionResolve: bool) returns (text: string, events: seq<Event>)
    ensures events == EventsOf(s) && ReadAll(Scan(text, {})).events == events
  {
    text := WriteSnapshot(s, exactPositionResolve);
    RecordsRoundTrip(s, ComposeCheckNumber(MAX_FILES, exactPositionResolve));
    var st := ScanCxFile(text);
    events := st.events;
  }
}
