/** What the snapshot reader makes of the records: the file table, the mapping of file numbers and the table of
    referenceable items (src/cxfile.c). A file of the new session is known by its name. */
module Loading {
  import opened Wrappers
  import opened Cxfile

  datatype Place = Place(file: string, line: nat, col: nat)

  datatype Key = Key(linkName: string, typ: nat, storage: nat, includeFile: string)

  /** The file table, fileNumberMapping, the table of referenceable items with the usage at each place, and the item
      that references go to. */
  datatype Tables = Tables(files: map<string, Times>, mapping: map<nat, string>, items: map<Key, map<Place, nat>>, current: Option<Key>)

  // ---- the handlers

  // A time that is zero is taken from the snapshot.
  function Merged(mine: Times, read: Times): Times {
    var knows := mine.knowledgeSec != 0 || mine.knowledgeNsec != 0;
    var changed := mine.changeSec != 0 || mine.changeNsec != 0;
    Times(if knows then mine.knowledgeSec else read.knowledgeSec, if knows then mine.knowledgeNsec else read.knowledgeNsec,
          if changed then mine.changeSec else read.changeSec, if changed then mine.changeNsec else read.changeNsec)
  }

  // The times that a file has in the table, or those of a new entry.
  function TimesIn(files: map<string, Times>, name: string): Times {
    if name in files then files[name] else Times(0, 0, 0, 0)
  }

  function FileOf(mapping: map<nat, string>, number: nat): string {
    if number in mapping then mapping[number] else ""
  }

  function PlaceOf(mapping: map<nat, string>, r: Reference): Place {
    Place(FileOf(mapping, r.file), r.line, r.col)
  }

  // addToReferenceList: the usage at a place that is there already is replaced.
  function WithUsage(usages: map<Place, nat>, place: Place, usage: nat): map<Place, nat> {
    usages[place := usage]
  }

  function Handle(t: Tables, e: Event): Tables {
    match e
    case FileSeen(number, name, times) =>
      t.(files := t.files[name := Merged(TimesIn(t.files, name), times)], mapping := t.mapping[number := name])
    case SymbolSeen(linkName, typ, storage, includeFile) =>
      var key := Key(linkName, typ, storage, FileOf(t.mapping, includeFile));
      t.(items := if key in t.items then t.items else t.items[key := map[]], current := Some(key))
    case ReferenceSeen(r) =>
      if t.current.Some? && t.current.value in t.items then
        t.(items := t.items[t.current.value := WithUsage(t.items[t.current.value], PlaceOf(t.mapping, r), r.usage)])
      else t
  }

  function HandleAll(t: Tables, events: seq<Event>): Tables {
    if events == [] then t else Handle(HandleAll(t, events[..|events| - 1]), events[|events| - 1])
  }

  lemma {:induction false} HandleMore(t: Tables, events: seq<Event>, more: seq<Event>)
    ensures HandleAll(t, events + more) == HandleAll(HandleAll(t, events), more)
    decreases |more|
  {
    if more == [] {
      assert events + more == events;
    } else {
      var all := events + more;
      assert all[..|all| - 1] == events + more[..|more| - 1];
      HandleMore(t, events, more[..|more| - 1]);
    }
  }

  /** The tables that the handlers update. */
  class ReferenceTables {
    var files: map<string, Times>
    var mapping: map<nat, string>
    var items: map<Key, map<Place, nat>>
    var current: Option<Key>

    ghost function Contents(): Tables
      reads this
    {
      Tables(files, mapping, items, current)
    }

    constructor (t: Tables)
      ensures Contents() == t
    {
      files, mapping, items, current := t.files, t.mapping, t.items, t.current;
    }

    /** scanFunction_ReadFileName */
    method ReadFileName(number: nat, name: string, times: Times)
      modifies this
      ensures Contents() == Handle(old(Contents()), FileSeen(number, name, times))
    {
      if name !in files {
        files := files[name := Times(0, 0, 0, 0)];
      }
      var mine := files[name];
      if mine.knowledgeSec == 0 && mine.knowledgeNsec == 0 {
        mine := mine.(knowledgeSec := times.knowledgeSec, knowledgeNsec := times.knowledgeNsec);
      }
      if mine.changeSec == 0 && mine.changeNsec == 0 {
        mine := mine.(changeSec := times.changeSec, changeNsec := times.changeNsec);
      }
      files := files[name := mine];
      mapping := mapping[number := name];
    }

    /** scanFunction_SymbolNameForSnapshotLoad */
    method ReadSymbolName(linkName: string, typ: nat, storage: nat, includeFile: nat)
      modifies this
      ensures Contents() == Handle(old(Contents()), SymbolSeen(linkName, typ, storage, includeFile))
    {
      var key := Key(linkName, typ, storage, FileOf(mapping, includeFile));
      if key !in items {
        items := items[key := map[]];
      }
      current := Some(key);
    }

    /** scanFunction_ReferenceForSnapshotLoad */
    method ReadReference(r: Reference)
      modifies this
      ensures Contents() == Handle(old(Contents()), ReferenceSeen(r))
    {
      if current.Some? && current.value in items {
        items := items[current.value := WithUsage(items[current.value], PlaceOf(mapping, r), r.usage)];
      }
    }

    /** The handlers, in the order in which the scanner calls them. */
    method Load(events: seq<Event>)
      modifies this
      ensures Contents() == HandleAll(old(Contents()), events)
    {
      for i := 0 to |events|
        invariant Contents() == HandleAll(old(Contents()), events[..i])
      {
        assert events[..i + 1][..i] == events[..i];
        match events[i]
        case FileSeen(number, name, times) => ReadFileName(number, name, times);
        case SymbolSeen(linkName, typ, storage, includeFile) => ReadSymbolName(linkName, typ, storage, includeFile);
        case ReferenceSeen(r) => ReadReference(r);
      }
      assert events[..|events|] == events;
    }
  }

  // ---- what a snapshot is

  // The file is written, and has this number.
  predicate Numbered(f: FileEntry, number: nat) {
    !f.isDeleted && f.number == number
  }

  predicate Kept(s: Symbol) {
    !s.isLocal && s.references != []
  }

  predicate Known(files: seq<FileEntry>, number: nat) {
    exists i :: 0 <= i < |files| && Numbered(files[i], number)
  }

  // Two entries of the file table have neither number nor name in common.
  predicate FilesApart(files: seq<FileEntry>) {
    forall i, j {:trigger files[i], files[j]} :: 0 <= i < j < |files| && !files[i].isDeleted && !files[j].isDeleted ==>
      files[i].number != files[j].number && files[i].name != files[j].name
  }

  predicate SameSymbol(s: Symbol, s': Symbol) {
    s.linkName == s'.linkName && s.typ == s'.typ && s.storage == s'.storage && s.includeFile == s'.includeFile
  }

  predicate SamePosition(r: Reference, r': Reference) {
    r.file == r'.file && r.line == r'.line && r.col == r'.col
  }

  predicate PositionsApart(refs: seq<Reference>) {
    forall i, j {:trigger refs[i], refs[j]} :: 0 <= i < j < |refs| ==> !SamePosition(refs[i], refs[j])
  }

  predicate SymbolKnown(files: seq<FileEntry>, s: Symbol) {
    && Known(files, s.includeFile) && PositionsApart(s.references)
    && forall j :: 0 <= j < |s.references| ==> Known(files, s.references[j].file)
  }

  predicate SymbolsApart(symbols: seq<Symbol>) {
    forall i, j {:trigger symbols[i], symbols[j]} :: 0 <= i < j < |symbols| && Kept(symbols[i]) && Kept(symbols[j]) ==>
      !SameSymbol(symbols[i], symbols[j])
  }

  /** What the tables of a session are: no two entries for the same file or item, no two references at the same
      place, and every file that is referred to is there. */
  predicate IsSession(s: Snapshot) {
    && FilesApart(s.files) && SymbolsApart(s.symbols)
    && forall i :: 0 <= i < |s.symbols| && Kept(s.symbols[i]) ==> SymbolKnown(s.files, s.symbols[i])
  }

  // ---- the files

  // The files have been read: each is there by name, with its times, and its number means it.
  ghost predicate FilesRead(files: seq<FileEntry>, t0: Tables, t: Tables) {
    && t.items == t0.items
    && (forall i :: 0 <= i < |files| && !files[i].isDeleted ==> FileRead(files[i], t0, t))
    && (forall name :: name in t.files <==> name in t0.files || Named(files, name))
    && (forall name :: name in t0.files && !Named(files, name) ==> name in t.files && t.files[name] == t0.files[name])
  }

  ghost predicate FileRead(f: FileEntry, t0: Tables, t: Tables) {
    && f.number in t.mapping && t.mapping[f.number] == f.name
    && f.name in t.files && TimesRestored(f, t0, t.files[f.name])
  }

  /** The times of a file that is new to the session are those of the snapshot. Of one that was there already, each
      of the two times, seconds and nanoseconds together, stays if it was not zero, and comes from the snapshot if
      it was. */
  ghost predicate TimesRestored(f: FileEntry, t0: Tables, times: Times) {
    if f.name !in t0.files then times == f.times
    else
      var mine := t0.files[f.name];
      && (times.knowledgeSec, times.knowledgeNsec) ==
         (if (mine.knowledgeSec, mine.knowledgeNsec) == (0, 0) then (f.times.knowledgeSec, f.times.knowledgeNsec)
          else (mine.knowledgeSec, mine.knowledgeNsec))
      && (times.changeSec, times.changeNsec) ==
         (if (mine.changeSec, mine.changeNsec) == (0, 0) then (f.times.changeSec, f.times.changeNsec)
          else (mine.changeSec, mine.changeNsec))
  }

  predicate Named(files: seq<FileEntry>, name: string) {
    exists i :: 0 <= i < |files| && !files[i].isDeleted && files[i].name == name
  }

  lemma {:induction false} FilesLoaded(files: seq<FileEntry>, t0: Tables)
    requires FilesApart(files)
    ensures FilesRead(files, t0, HandleAll(t0, FileEvents(files)))
    decreases |files|
  {
    hide FilesRead;
    if files == [] {
      NoFiles(t0);
    } else {
      var rest, f := files[..|files| - 1], files[|files| - 1];
      FilesLoaded(rest, t0);
      var t := HandleAll(t0, FileEvents(rest));
      assert files == rest + [f];
      if f.isDeleted {
        assert FileEvents(files) == FileEvents(rest);
        DeletedFile(rest, f, t0, t);
      } else {
        var e := FileSeen(f.number, f.name, f.times);
        assert FileEvents(files) == FileEvents(rest) + [e];
        HandleOne(t0, FileEvents(rest), e);
        OneFile(rest, f, t0, t);
      }
    }
  }

  lemma {:induction false} NoFiles(t0: Tables)
    ensures FilesRead([], t0, HandleAll(t0, FileEvents([])))
  {
  }

  lemma {:induction false} HandleOne(t: Tables, events: seq<Event>, e: Event)
    ensures HandleAll(t, events + [e]) == Handle(HandleAll(t, events), e)
  {
    assert (events + [e])[..|events|] == events;
  }

  lemma {:induction false} NamedMore(files: seq<FileEntry>, f: FileEntry, name: string)
    ensures Named(files + [f], name) <==> Named(files, name) || (!f.isDeleted && f.name == name)
  {
    assert (files + [f])[|files|] == f;
    if Named(files, name) {
      var i :| 0 <= i < |files| && !files[i].isDeleted && files[i].name == name;
      assert (files + [f])[i] == files[i];
    }
  }

  lemma {:induction false} DeletedFile(files: seq<FileEntry>, f: FileEntry, t0: Tables, t: Tables)
    requires FilesRead(files, t0, t) && f.isDeleted
    ensures FilesRead(files + [f], t0, t)
  {
    forall name ensures Named(files + [f], name) <==> Named(files, name) {
      NamedMore(files, f, name);
    }
  }

  lemma {:induction false} NotYetNamed(files: seq<FileEntry>, f: FileEntry)
    requires FilesApart(files + [f]) && !f.isDeleted
    ensures !Named(files, f.name) && forall i :: 0 <= i < |files| && !files[i].isDeleted ==> files[i].number != f.number
  {
    var all := files + [f];
    assert all[|files|] == f && forall i :: 0 <= i < |files| ==> all[i] == files[i];
  }

  lemma {:induction false} OneFile(files: seq<FileEntry>, f: FileEntry, t0: Tables, t: Tables)
    requires FilesRead(files, t0, t) && !f.isDeleted && FilesApart(files + [f])
    ensures FilesRead(files + [f], t0, Handle(t, FileSeen(f.number, f.name, f.times)))
  {
    var all, t' := files + [f], Handle(t, FileSeen(f.number, f.name, f.times));
    forall name ensures Named(all, name) <==> Named(files, name) || f.name == name {
      NamedMore(files, f, name);
    }
    NotYetNamed(files, f);
    forall i | 0 <= i < |all| && !all[i].isDeleted ensures FileRead(all[i], t0, t') {
      if i < |files| {
        assert all[i] == files[i] && FileRead(files[i], t0, t);
      }
    }
  }

  // ---- the items

  // The usages at the places of these references.
  function UsagesOf(mapping: map<nat, string>, refs: seq<Reference>): map<Place, nat> {
    if refs == [] then map[]
    else UsagesOf(mapping, refs[..|refs| - 1])[PlaceOf(mapping, refs[|refs| - 1]) := refs[|refs| - 1].usage]
  }

  function KeyOf(mapping: map<nat, string>, s: Symbol): Key {
    Key(s.linkName, s.typ, s.storage, FileOf(mapping, s.includeFile))
  }

  function ItemsOf(mapping: map<nat, string>, symbols: seq<Symbol>): map<Key, map<Place, nat>> {
    if symbols == [] then map[]
    else
      var s, rest := symbols[|symbols| - 1], ItemsOf(mapping, symbols[..|symbols| - 1]);
      if Kept(s) then rest[KeyOf(mapping, s) := UsagesOf(mapping, s.references)] else rest
  }

  // References go to the item that was seen last.
  lemma {:induction false} ReferencesLoaded(refs: seq<Reference>, t: Tables, key: Key)
    requires t.current == Some(key) && key in t.items && t.items[key] == map[]
    ensures HandleAll(t, ReferenceEvents(refs)) == t.(items := t.items[key := UsagesOf(t.mapping, refs)])
    decreases |refs|
  {
    if refs == [] {
      assert t.items[key := map[]] == t.items;
    } else {
      var rest, r := refs[..|refs| - 1], refs[|refs| - 1];
      ReferencesLoaded(rest, t, key);
      assert ReferenceEvents(refs) == ReferenceEvents(rest) + [ReferenceSeen(r)];
      HandleOne(t, ReferenceEvents(rest), ReferenceSeen(r));
      assert t.items[key := UsagesOf(t.mapping, rest)][key := UsagesOf(t.mapping, refs)] == t.items[key := UsagesOf(t.mapping, refs)];
    }
  }

  lemma {:induction false} SymbolLoaded(s: Symbol, t: Tables)
    requires KeyOf(t.mapping, s) !in t.items
    ensures var key := KeyOf(t.mapping, s);
            HandleAll(t, [SymbolSeen(s.linkName, s.typ, s.storage, s.includeFile)]) == Tables(t.files, t.mapping, t.items[key := map[]], Some(key))
  {
    var e := SymbolSeen(s.linkName, s.typ, s.storage, s.includeFile);
    HandleOne(t, [], e);
    HandleNone(t);
    assert [] + [e] == [e];
  }

  lemma {:induction false} ItemLoaded(s: Symbol, t: Tables)
    requires Kept(s) ==> KeyOf(t.mapping, s) !in t.items
    ensures var t' := HandleAll(t, ItemEvents(s));
            && t'.files == t.files && t'.mapping == t.mapping
            && t'.items == if Kept(s) then t.items[KeyOf(t.mapping, s) := UsagesOf(t.mapping, s.references)] else t.items
  {
    hide HandleAll, ReferenceEvents, UsagesOf, KeyOf;
    if Kept(s) {
      var e, key := SymbolSeen(s.linkName, s.typ, s.storage, s.includeFile), KeyOf(t.mapping, s);
      assert ItemEvents(s) == [e] + ReferenceEvents(s.references);
      hide ItemEvents;
      HandleMore(t, [e], ReferenceEvents(s.references));
      SymbolLoaded(s, t);
      ReferencesLoaded(s.references, HandleAll(t, [e]), key);
      assert t.items[key := map[]][key := UsagesOf(t.mapping, s.references)] == t.items[key := UsagesOf(t.mapping, s.references)];
    } else {
      assert ItemEvents(s) == [];
      HandleNone(t);
    }
  }

  lemma {:induction false} HandleNone(t: Tables)
    ensures HandleAll(t, []) == t
  {
  }

  ghost predicate KeysApart(mapping: map<nat, string>, symbols: seq<Symbol>) {
    forall i, j {:trigger symbols[i], symbols[j]} :: 0 <= i < j < |symbols| && Kept(symbols[i]) && Kept(symbols[j]) ==>
      KeyOf(mapping, symbols[i]) != KeyOf(mapping, symbols[j])
  }

  lemma {:induction false} KeyInItems(mapping: map<nat, string>, symbols: seq<Symbol>, key: Key)
    ensures key in ItemsOf(mapping, symbols) <==> exists i :: 0 <= i < |symbols| && Kept(symbols[i]) && KeyOf(mapping, symbols[i]) == key
    decreases |symbols|
  {
    if symbols != [] {
      var n := |symbols| - 1;
      KeyInItems(mapping, symbols[..n], key);
      assert forall i :: 0 <= i < n ==> symbols[..n][i] == symbols[i];
      if exists i :: 0 <= i < n && Kept(symbols[i]) && KeyOf(mapping, symbols[i]) == key {
        var i :| 0 <= i < n && Kept(symbols[i]) && KeyOf(mapping, symbols[i]) == key;
        assert Kept(symbols[..n][i]);
      }
    }
  }

  lemma {:induction false} ItemsLoaded(symbols: seq<Symbol>, t: Tables)
    requires KeysApart(t.mapping, symbols) && t.items == map[]
    ensures var t' := HandleAll(t, SymbolEvents(symbols));
            t'.files == t.files && t'.mapping == t.mapping && t'.items == ItemsOf(t.mapping, symbols)
    decreases |symbols|
  {
    if symbols != [] {
      var n := |symbols| - 1;
      var rest, s := symbols[..n], symbols[n];
      assert forall i :: 0 <= i < n ==> rest[i] == symbols[i];
      ItemsLoaded(rest, t);
      HandleMore(t, SymbolEvents(rest), ItemEvents(s));
      KeyInItems(t.mapping, rest, KeyOf(t.mapping, s));
      hide HandleAll, ItemEvents;
      ItemLoaded(s, HandleAll(t, SymbolEvents(rest)));
    }
  }

  /** Where keys differ, each item has the usages of its symbol. */
  lemma {:induction false} ItemIs(mapping: map<nat, string>, symbols: seq<Symbol>, i: nat)
    requires KeysApart(mapping, symbols) && i < |symbols| && Kept(symbols[i])
    ensures KeyOf(mapping, symbols[i]) in ItemsOf(mapping, symbols)
    ensures ItemsOf(mapping, symbols)[KeyOf(mapping, symbols[i])] == UsagesOf(mapping, symbols[i].references)
    decreases |symbols|
  {
    var n := |symbols| - 1;
    if i < n {
      assert symbols[..n][i] == symbols[i];
      ItemIs(mapping, symbols[..n], i);
    }
  }

  /** Where places differ, each place has the usage of its reference, and no other place has one. */
  lemma {:induction false} UsagesAre(mapping: map<nat, string>, refs: seq<Reference>)
    requires forall i, j :: 0 <= i < j < |refs| ==> PlaceOf(mapping, refs[i]) != PlaceOf(mapping, refs[j])
    ensures forall place :: place in UsagesOf(mapping, refs) <==> exists i :: 0 <= i < |refs| && PlaceOf(mapping, refs[i]) == place
    ensures forall i :: 0 <= i < |refs| ==> UsagesOf(mapping, refs)[PlaceOf(mapping, refs[i])] == refs[i].usage
    decreases |refs|
  {
    if refs != [] {
      var n := |refs| - 1;
      var rest := refs[..n];
      assert forall i :: 0 <= i < n ==> rest[i] == refs[i];
      UsagesAre(mapping, rest);
      forall i | 0 <= i < |refs| ensures PlaceOf(mapping, refs[i]) in UsagesOf(mapping, refs) {
        if i < n {
          assert PlaceOf(mapping, rest[i]) in UsagesOf(mapping, rest);
        }
      }
      forall place | place in UsagesOf(mapping, refs) ensures exists i :: 0 <= i < |refs| && PlaceOf(mapping, refs[i]) == place {
        if place in UsagesOf(mapping, rest) {
          var i :| 0 <= i < n && PlaceOf(mapping, rest[i]) == place;
          assert PlaceOf(mapping, refs[i]) == place;
        }
      }
    }
  }

  // ---- the round trip

  // The number means the file that had it.
  ghost predicate Means(files: seq<FileEntry>, mapping: map<nat, string>) {
    forall i :: 0 <= i < |files| && !files[i].isDeleted ==> FileOf(mapping, files[i].number) == files[i].name
  }

  // Different numbers mean different files.
  lemma {:induction false} NamesTellNumbers(files: seq<FileEntry>, mapping: map<nat, string>, m: nat, n: nat)
    requires FilesApart(files) && Means(files, mapping) && Known(files, m) && Known(files, n)
    ensures FileOf(mapping, m) == FileOf(mapping, n) ==> m == n
  {
    var i :| 0 <= i < |files| && Numbered(files[i], m);
    var j :| 0 <= j < |files| && Numbered(files[j], n);
    assert FileOf(mapping, m) == files[i].name && FileOf(mapping, n) == files[j].name;
  }

  lemma {:induction false} KeysStayApart(s: Snapshot, mapping: map<nat, string>)
    requires IsSession(s) && Means(s.files, mapping)
    ensures KeysApart(mapping, s.symbols)
  {
    forall i, j {:trigger s.symbols[i], s.symbols[j]} | 0 <= i < j < |s.symbols| && Kept(s.symbols[i]) && Kept(s.symbols[j])
      ensures KeyOf(mapping, s.symbols[i]) != KeyOf(mapping, s.symbols[j])
    {
      assert SymbolKnown(s.files, s.symbols[i]) && SymbolKnown(s.files, s.symbols[j]);
      NamesTellNumbers(s.files, mapping, s.symbols[i].includeFile, s.symbols[j].includeFile);
      assert !SameSymbol(s.symbols[i], s.symbols[j]);
    }
  }

  lemma {:induction false} PlacesStayApart(s: Snapshot, mapping: map<nat, string>, i: nat)
    requires IsSession(s) && Means(s.files, mapping) && i < |s.symbols| && Kept(s.symbols[i])
    ensures var refs := s.symbols[i].references;
            forall j, k :: 0 <= j < k < |refs| ==> PlaceOf(mapping, refs[j]) != PlaceOf(mapping, refs[k])
  {
    var refs := s.symbols[i].references;
    assert SymbolKnown(s.files, s.symbols[i]);
    forall j, k | 0 <= j < k < |refs| ensures PlaceOf(mapping, refs[j]) != PlaceOf(mapping, refs[k]) {
      NamesTellNumbers(s.files, mapping, refs[j].file, refs[k].file);
      assert !SamePosition(refs[j], refs[k]);
    }
  }

  // The item of a symbol, file numbers being told by names: its places are those of its references, with their usages.
  ghost predicate ItemRestored(s: Symbol, t: Tables) {
    var key := KeyOf(t.mapping, s);
    && key in t.items
    && (forall place :: place in t.items[key] <==> exists j :: 0 <= j < |s.references| && PlaceOf(t.mapping, s.references[j]) == place)
    && (forall j :: 0 <= j < |s.references| ==> t.items[key][PlaceOf(t.mapping, s.references[j])] == s.references[j].usage)
  }

  /** What was saved is there again: every file that was not deleted, by name and with its times where the session
      had none; every item that was not local and had references, with just those; and no other item. The old file
      numbers mean the files that had them. */
  ghost predicate Restored(s: Snapshot, t0: Tables, t: Tables) {
    && FilesRead(s.files, t0, t.(items := t0.items)) && Means(s.files, t.mapping)
    && (forall i :: 0 <= i < |s.symbols| && Kept(s.symbols[i]) ==> ItemRestored(s.symbols[i], t))
    && (forall key :: key in t.items <==> exists i :: 0 <= i < |s.symbols| && Kept(s.symbols[i]) && KeyOf(t.mapping, s.symbols[i]) == key)
  }

  /** Handling what the reader sees of a session's snapshot restores the session. */
  lemma {:induction false} SessionRestored(s: Snapshot, t0: Tables)
    requires IsSession(s) && t0.items == map[]
    ensures Restored(s, t0, HandleAll(t0, EventsOf(s)))
  {
    hide HandleAll, ItemsOf, UsagesOf, FilesRead, KeysApart, ItemRestored, Means, FileEvents, SymbolEvents;
    var t := HandleAll(t0, FileEvents(s.files));
    FilesLoaded(s.files, t0);
    HandleMore(t0, FileEvents(s.files), SymbolEvents(s.symbols));
    ReadFilesMean(s.files, t0, t);
    KeysStayApart(s, t.mapping);
    FilesOnly(s.files, t0, t);
    ItemsLoaded(s.symbols, t);
    var t' := HandleAll(t, SymbolEvents(s.symbols));
    SessionItems(s, t');
    SameFiles(s.files, t0, t, t');
  }

  lemma {:induction false} FilesOnly(files: seq<FileEntry>, t0: Tables, t: Tables)
    requires FilesRead(files, t0, t)
    ensures t.items == t0.items
  {
  }

  lemma {:induction false} ReadFilesMean(files: seq<FileEntry>, t0: Tables, t: Tables)
    requires FilesRead(files, t0, t)
    ensures Means(files, t.mapping)
  {
    forall i | 0 <= i < |files| && !files[i].isDeleted ensures FileOf(t.mapping, files[i].number) == files[i].name {
      assert FileRead(files[i], t0, t);
    }
  }

  lemma {:induction false} SameFiles(files: seq<FileEntry>, t0: Tables, t: Tables, t': Tables)
    requires FilesRead(files, t0, t) && t'.files == t.files && t'.mapping == t.mapping
    ensures FilesRead(files, t0, t'.(items := t0.items))
  {
    forall i | 0 <= i < |files| && !files[i].isDeleted ensures FileRead(files[i], t0, t'.(items := t0.items)) {
      assert FileRead(files[i], t0, t);
    }
  }

  lemma {:induction false} SessionItems(s: Snapshot, t: Tables)
    requires IsSession(s) && Means(s.files, t.mapping) && t.items == ItemsOf(t.mapping, s.symbols)
    ensures forall i :: 0 <= i < |s.symbols| && Kept(s.symbols[i]) ==> ItemRestored(s.symbols[i], t)
    ensures forall key :: key in t.items <==> exists i :: 0 <= i < |s.symbols| && Kept(s.symbols[i]) && KeyOf(t.mapping, s.symbols[i]) == key
  {
    hide ItemsOf, UsagesOf, IsSession;
    KeysStayApart(s, t.mapping);
    forall i | 0 <= i < |s.symbols| && Kept(s.symbols[i]) ensures ItemRestored(s.symbols[i], t) {
      ItemIs(t.mapping, s.symbols, i);
      PlacesStayApart(s, t.mapping, i);
      UsagesAre(t.mapping, s.symbols[i].references);
    }
    forall key ensures key in t.items <==> exists i :: 0 <= i < |s.symbols| && Kept(s.symbols[i]) && KeyOf(t.mapping, s.symbols[i]) == key {
      KeyInItems(t.mapping, s.symbols, key);
    }
  }

  /** A session that is saved and loaded by a new one, character by character, is restored. */
  method SaveAndRestore(s: Snapshot, exactPositionResolve: bool, t0: Tables) returns (t: Tables)
    requires IsSession(s) && t0.items == map[]
    ensures Restored(s, t0, t)
  {
    hide Restored, HandleAll;
    var text, events := SaveAndLoad(s, exactPositionResolve);
    var tables := new ReferenceTables(t0);
    tables.Load(events);
    SessionRestored(s, t0);
    t := Tables(tables.files, tables.mapping, tables.items, tables.current);
  }
}
