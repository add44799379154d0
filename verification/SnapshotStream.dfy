/** The stream of snapshots: an index over a file, and a cursor in it that wraps around. */
module SnapshotStream {
  import opened Options
  import opened Replay
  import opened Csv
  import opened SnapshotFile

  /** Entries by strictly increasing time. */
  ghost predicate Sorted(index: seq<Entry>) {
    forall k, l :: 0 <= k < l < |index| ==> index[k].time < index[l].time
  }

  lemma {:induction false} PutKeepsSorted(index: seq<Entry>, e: Entry)
    requires Sorted(index)
    ensures Sorted(Put(index, e))
    ensures forall k :: 0 <= k < |Put(index, e)| ==> Put(index, e)[k] == e || Put(index, e)[k] in index
  {
    if index != [] && e.time > index[0].time {
      PutKeepsSorted(index[1..], e);
    }
  }

  lemma {:induction false} ScanKeepsSorted(s: Scanner, marks: seq<Mark>)
    requires Sorted(s.index)
    ensures Sorted(Scan(s, marks).index)
    decreases |marks|
  {
    if marks != [] {
      PutKeepsSorted(s.index, Entry(s.last, s.start, s.rowCount));
      ScanKeepsSorted(s.Feed(marks[0]), marks[1..]);
    }
  }

  /** Whatever the file holds, its index is sorted. */
  lemma IndexIsSorted(format: Format, file: string)
    ensures Sorted(IndexOf(format, file).1)
    ensures !IndexOf(format, file).0 ==> IndexOf(format, file).1 == []
  {
    var header := GetLine(file, 0);
    if header.Some? {
      var first := header.value.1;
      var s := Scan(Scanner([], -1.0, first, 0), Marks(format, file, first));
      ScanKeepsSorted(Scanner([], -1.0, first, 0), Marks(format, file, first));
      PutKeepsSorted(s.index, Entry(s.last, s.start, s.rowCount));
    }
  }

  /** The first entry at or after a time. */
  function LowerBound(index: seq<Entry>, time: real): (k: nat)
    ensures k <= |index|
    ensures forall l :: 0 <= l < k ==> index[l].time < time
    ensures k < |index| ==> index[k].time >= time
  {
    if index == [] || index[0].time >= time then 0 else 1 + LowerBound(index[1..], time)
  }

  lemma LowerBoundOfEntry(index: seq<Entry>, k: nat)
    requires Sorted(index) && k < |index|
    ensures LowerBound(index, index[k].time) == k
  {
  }

  class SystemSnapshotStream {
    const format: Format
    const file: string

    var isInitialized: bool
    var index: seq<Entry>
    var cursor: nat

    ghost predicate Valid()
      reads this
    {
      cursor <= |index| && Sorted(index) && (!isInitialized ==> index == [])
    }

    constructor (format: Format, file: string)
      ensures Valid() && this.format == format && this.file == file && !isInitialized
    {
      this.format := format;
      this.file := file;
      isInitialized, index, cursor := false, [], 0;
    }

    method BuildIndex() returns (ok: bool)
      requires index == []
      modifies `index
      ensures (ok, index) == IndexOf(format, file)
    {
      var header := GetLine(file, 0);
      if header.None? || !format.isHeader(header.value.0) {
        return false;
      }
      var first := header.value.1;
      if first == |header.value.0| {
        return true;
      }
      var last, start: nat, rowCount: nat, lineStart: nat := -1.0, first, 0, first;
      var line := GetLine(file, first);
      while line.Some?
        invariant lineStart <= |file| && line == GetLine(file, lineStart)
        invariant Scan(Scanner(index, last, start, rowCount), Marks(format, file, lineStart))
               == Scan(Scanner([], -1.0, first, 0), Marks(format, file, first))
        decreases |file| - lineStart
      {
        var next := line.value.1;
        var time := format.time(line.value.0);
        if time.Some? {
          if last != -1.0 && time.value != last {
            index := Put(index, Entry(last, start, rowCount));
            start := lineStart;
            rowCount := 0;
          }
          last := time.value;
          rowCount := rowCount + 1;
        }
        lineStart := next;
        line := GetLine(file, lineStart);
      }
      if rowCount > 0 {
        index := Put(index, Entry(last, start, rowCount));
      }
      ok := index != [];
    }

    /** The file is opened twice, for indexing and for reading; either may fail. */
    method Initialize(opensForIndex: bool, opensForReading: bool) returns (ok: bool)
      requires Valid()
      modifies this
      ensures Valid() && isInitialized == ok
      ensures old(isInitialized) ==> ok && index == old(index) && cursor == old(cursor)
      ensures !old(isInitialized) ==>
        && (ok <==> opensForIndex && opensForReading && IndexOf(format, file).0)
        && index == (if ok then IndexOf(format, file).1 else []) && cursor == |index|
    {
      if isInitialized {
        return true;
      }
      ok := false;
      if opensForIndex {
        IndexIsSorted(format, file);
        ok := BuildIndex();
      }
      if !ok {
        return;
      }
      if !opensForReading {
        index := [];
        return false;
      }
      cursor := |index|;
      isInitialized := true;
    }

    method GetFirstSnapshot() returns (r: Option<Snapshot>)
      requires Valid()
      modifies `cursor
      ensures Valid()
      ensures cursor == if index == [] then old(cursor) else 0
      ensures r == if index == [] then None else Parse(format, file, index[0])
    {
      if !isInitialized || index == [] {
        return None;
      }
      cursor := 0;
      r := Parse(format, file, index[cursor]);
    }

    /** The snapshot after the last one that was read; from the last to the first by way of the end. */
    method GetNextSnapshot() returns (r: Option<Snapshot>)
      requires Valid()
      modifies `cursor
      ensures Valid()
      ensures cursor == if index == [] then old(cursor) else Next(old(cursor), |index|)
      ensures r == if cursor == |index| then None else Parse(format, file, index[cursor])
    {
      if !isInitialized || index == [] {
        return None;
      }
      if cursor == |index| {
        cursor := 0;
      } else {
        cursor := cursor + 1;
      }
      if cursor == |index| {
        return None;
      }
      r := Parse(format, file, index[cursor]);
    }

    method GetPrecedingSnapshot(time: real) returns (r: Option<Snapshot>)
      requires Valid()
      ensures LowerBound(index, time) == 0 ==> r == None
      ensures LowerBound(index, time) > 0 ==> r == Parse(format, file, index[LowerBound(index, time) - 1])
    {
      if !isInitialized || index == [] {
        return None;
      }
      var k := LowerBound(index, time);
      if k == 0 {
        return None;
      }
      r := Parse(format, file, index[k - 1]);
    }

    /** An initialized stream with no entries has no such snapshot, and nothing is promised: the number of entries
        less one wraps around, and the iterator leaves the index. */
    method GetSnapshotAtFraction(mu: real) returns (r: Option<Snapshot>)
      requires Valid()
      modifies `cursor
      ensures Valid()
      ensures !isInitialized || !(0.0 <= mu <= 1.0) ==> r == None && cursor == old(cursor)
      ensures index != [] && 0.0 <= mu <= 1.0 ==>
        cursor == AtFraction(mu, |index|) < |index| && r == Parse(format, file, index[cursor])
    {
      if !isInitialized || mu < 0.0 || mu > 1.0 {
        return None;
      }
      if index == [] {
        r := *;
        return;
      }
      FractionInRange(mu, |index|);
      cursor := AtFraction(mu, |index|);
      r := Parse(format, file, index[cursor]);
    }

    method RetreatIndexIterator()
      requires Valid()
      modifies `cursor
      ensures Valid()
      ensures cursor == if index == [] then 0 else Previous(old(cursor), |index|)
    {
      if !isInitialized || index == [] || cursor == 0 {
        cursor := |index|;
        return;
      }
      if cursor == |index| {
        cursor := |index| - 1;
      } else {
        cursor := cursor - 1;
      }
    }
  }
}
