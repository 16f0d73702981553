/** Whether what is known of a compilation unit is still current (src/freshness.c, src/timestamp.c). */
module Freshness {
  import opened Wrappers
  import opened Seqs
  import opened IncludeGraphs

  const NANOSECONDS := 1000000000
  const COARSE_CLOCK_GAP_IN_NANOSECONDS := 10000000
  const MAX_INCLUDE_CLOSURE := 1000

  /** A struct timespec. */
  datatype Timestamp = Timestamp(sec: int, nsec: int)

  ghost predicate ValidTime(t: Timestamp) {
    0 <= t.nsec < NANOSECONDS
  }

  // The time in nanoseconds.
  function Nanos(t: Timestamp): int {
    t.sec * NANOSECONDS + t.nsec
  }

  predicate IsZero(t: Timestamp) {
    t.sec == 0 && t.nsec == 0
  }

  // fileTimestampIsLessThan
  predicate IsLessThan(a: Timestamp, b: Timestamp) {
    if a.sec != b.sec then a.sec < b.sec else a.nsec < b.nsec
  }

  // fileTimestampMinus
  function Minus(t: Timestamp, nanoseconds: int): Timestamp {
    var nsec := t.nsec - nanoseconds;
    if nsec < 0 then Timestamp(t.sec - 1, nsec + NANOSECONDS) else Timestamp(t.sec, nsec)
  }

  /** Comparison and subtraction of timestamps agree with those of their nanoseconds. */
  lemma TimestampsAreNumbers(a: Timestamp, b: Timestamp, nanoseconds: int)
    requires ValidTime(a) && ValidTime(b) && 0 <= nanoseconds < NANOSECONDS
    ensures IsLessThan(a, b) <==> Nanos(a) < Nanos(b)
    ensures ValidTime(Minus(a, nanoseconds)) && Nanos(Minus(a, nanoseconds)) == Nanos(a) - nanoseconds
    ensures IsZero(a) <==> Nanos(a) == 0
  {
  }

  // changedAfter
  predicate ChangedAfter(changeTime: Timestamp, readTime: Timestamp) {
    IsLessThan(Minus(readTime, COARSE_CLOCK_GAP_IN_NANOSECONDS), changeTime)
  }

  // prerequisiteChangedAfter
  predicate PrerequisiteChangedAfter(changeTime: Timestamp, knowledgeTime: Timestamp) {
    IsZero(changeTime) || ChangedAfter(changeTime, knowledgeTime)
  }

  /** What is known of a file: modificationTime is what editorFileModificationTime answers for it. */
  datatype FileItem = FileItem(modificationTime: Timestamp, changeTime: Timestamp, knowledgeTime: Timestamp)

  ghost predicate ValidItem(f: FileItem) {
    ValidTime(f.modificationTime) && ValidTime(f.changeTime) && ValidTime(f.knowledgeTime)
  }

  /** When the file last changed; zero if it no longer exists. */
  function LastChange(f: FileItem): Timestamp {
    if !IsZero(f.modificationTime) && IsLessThan(f.modificationTime, f.changeTime) then f.changeTime else f.modificationTime
  }

  /** That is the later of its two times, for a file that exists. */
  lemma LastChangeIsLater(f: FileItem)
    requires ValidItem(f)
    ensures ValidTime(LastChange(f))
    ensures Nanos(LastChange(f)) ==
            if Nanos(f.modificationTime) == 0 then 0
            else if Nanos(f.modificationTime) < Nanos(f.changeTime) then Nanos(f.changeTime) else Nanos(f.modificationTime)
  {
    TimestampsAreNumbers(f.modificationTime, f.changeTime, 0);
  }

  /** The file exists, and has not changed since the knowledge time less the gap. */
  ghost predicate StillAsKnown(change: Timestamp, knowledgeTime: Timestamp) {
    Nanos(change) != 0 && Nanos(change) <= Nanos(knowledgeTime) - COARSE_CLOCK_GAP_IN_NANOSECONDS
  }

  lemma ChangedIsNotAsKnown(change: Timestamp, knowledgeTime: Timestamp)
    requires ValidTime(change) && ValidTime(knowledgeTime)
    ensures PrerequisiteChangedAfter(change, knowledgeTime) <==> !StillAsKnown(change, knowledgeTime)
  {
    TimestampsAreNumbers(knowledgeTime, change, COARSE_CLOCK_GAP_IN_NANOSECONDS);
    TimestampsAreNumbers(Minus(knowledgeTime, COARSE_CLOCK_GAP_IN_NANOSECONDS), change, 0);
    TimestampsAreNumbers(change, knowledgeTime, 0);
  }

  datatype OutOfDate = KnowledgeCurrent | KnowledgeMissing | CuChanged | PrerequisiteChanged(fileNumber: int) | ClosureTooLarge

  // More than n files are reached.
  ghost predicate ReachesMoreThan(g: IncludeGraph, from: int, n: nat) {
    exists q :: |q| == n + 1 && Distinct(q) && forall b :: b in q ==> Reaches(g, from, b)
  }

  // File numbers are in the file table.
  ghost predicate FilesKnown(g: IncludeGraph, items: seq<FileItem>) {
    (forall e :: e in g.edges ==> 0 <= e.included < |items|) && forall k :: 0 <= k < |items| ==> ValidItem(items[k])
  }

  lemma {:induction false} ReachedIsKnown(g: IncludeGraph, items: seq<FileItem>, a: int, b: int, n: nat)
    requires FilesKnown(g, items) && IncludesThrough(g, a, b, n)
    ensures 0 <= b < |items|
  {
    if n == 0 {
      assert IncludeEdge(a, b) in g.edges;
    } else {
      var c :| IncludesThrough(g, a, c, n - 1) && Includes(g, c, b);
      assert IncludeEdge(c, b) in g.edges;
    }
  }

  /** The include graph and the change times asked for so far in one request. */
  class Prerequisites {
    const includeGraph: IncludeGraph
    const items: seq<FileItem>
    const changeTimes: array<Option<Timestamp>>

    // What is remembered is right.
    ghost predicate Valid()
      reads changeTimes
    {
      && Sorted(includeGraph) && FilesKnown(includeGraph, items) && changeTimes.Length == |items|
      && forall k :: 0 <= k < |items| && changeTimes[k].Some? ==> changeTimes[k].value == LastChange(items[k])
    }

    constructor (includeGraph: IncludeGraph, items: seq<FileItem>)
      requires Sorted(includeGraph) && FilesKnown(includeGraph, items)
      ensures Valid() && fresh(changeTimes) && this.includeGraph == includeGraph && this.items == items
    {
      this.includeGraph, this.items := includeGraph, items;
      changeTimes := new Option<Timestamp>[|items|](_ => None);
    }

    /** changeTimeOf: asked for once, remembered afterwards. */
    method ChangeTimeOf(fileNumber: nat) returns (time: Timestamp)
      requires Valid() && fileNumber < |items|
      modifies changeTimes
      ensures Valid() && time == LastChange(items[fileNumber])
    {
      if changeTimes[fileNumber].None? {
        var item := items[fileNumber];
        time := item.modificationTime;
        if !IsZero(time) && IsLessThan(time, item.changeTime) {
          time := item.changeTime;
        }
        changeTimes[fileNumber] := Some(time);
      }
      time := changeTimes[fileNumber].value;
    }

    /** The whole truth about a compilation unit: why its knowledge is out of date, if it is. */
    ghost predicate Verdict(fileNumber: nat, why: OutOfDate)
      requires fileNumber < |items|
    {
      var item, g := items[fileNumber], includeGraph;
      var known := item.knowledgeTime;
      match why
      case KnowledgeMissing => IsZero(known)
      case CuChanged => !IsZero(known) && !StillAsKnown(item.modificationTime, known)
      case ClosureTooLarge => !IsZero(known) && StillAsKnown(item.modificationTime, known) && ReachesMoreThan(g, fileNumber, MAX_INCLUDE_CLOSURE)
      case PrerequisiteChanged(f) =>
        !IsZero(known) && StillAsKnown(item.modificationTime, known) && !ReachesMoreThan(g, fileNumber, MAX_INCLUDE_CLOSURE)
        && Reaches(g, fileNumber, f) && 0 <= f < |items| && !StillAsKnown(LastChange(items[f]), known)
      case KnowledgeCurrent =>
        !IsZero(known) && StillAsKnown(item.modificationTime, known) && !ReachesMoreThan(g, fileNumber, MAX_INCLUDE_CLOSURE)
        && forall f :: Reaches(g, fileNumber, f) ==> 0 <= f < |items| && StillAsKnown(LastChange(items[f]), known)
    }

    /** whyOutOfDate: "current" says that every file the unit includes, directly or not, still exists and is as
        it was known. */
    method WhyOutOfDate(fileNumber: nat) returns (why: OutOfDate)
      requires Valid() && fileNumber < |items|
      modifies changeTimes
      ensures Valid() && Verdict(fileNumber, why)
    {
      hide Reaches, StillAsKnown, FilesKnown, Sorted, PrerequisiteChangedAfter;
      var item := items[fileNumber];
      if IsZero(item.knowledgeTime) {
        return KnowledgeMissing;
      }
      ItemTimes(includeGraph, items, fileNumber);
      ChangedIsNotAsKnown(item.modificationTime, item.knowledgeTime);
      if PrerequisiteChangedAfter(item.modificationTime, item.knowledgeTime) {
        return CuChanged;
      }
      var closure := new int[MAX_INCLUDE_CLOSURE];
      var count := CollectIncludeClosure(includeGraph, fileNumber, closure);
      if count > MAX_INCLUDE_CLOSURE {
        return ClosureTooLarge;
      }
      ghost var files := closure[..][..count];
      AnswerExact(includeGraph, fileNumber, count, closure[..]);
      var i := 0;
      while i < count
        invariant 0 <= i <= count && Valid() && closure[..][..count] == files
        invariant forall k :: 0 <= k < i ==> 0 <= files[k] < |items| && StillAsKnown(LastChange(items[files[k]]), item.knowledgeTime)
      {
        assert closure[i] == files[i] && files[i] in files;
        Known(includeGraph, items, fileNumber, files[i]);
        ItemTimes(includeGraph, items, closure[i]);
        var time := ChangeTimeOf(closure[i]);
        ChangedIsNotAsKnown(time, item.knowledgeTime);
        if PrerequisiteChangedAfter(time, item.knowledgeTime) {
          return PrerequisiteChanged(closure[i]);
        }
        i := i + 1;
      }
      why := KnowledgeCurrent;
    }
  }

  lemma ItemTimes(g: IncludeGraph, items: seq<FileItem>, k: int)
    requires FilesKnown(g, items) && 0 <= k < |items|
    ensures ValidItem(items[k]) && ValidTime(LastChange(items[k]))
  {
  }

  lemma Known(g: IncludeGraph, items: seq<FileItem>, a: int, b: int)
    requires FilesKnown(g, items) && Reaches(g, a, b)
    ensures 0 <= b < |items|
  {
    var n: nat :| IncludesThrough(g, a, b, n);
    ReachedIsKnown(g, items, a, b, n);
  }
}
