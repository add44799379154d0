/** What the index holds for any file, whoever wrote it. */
module SnapshotIndex {
  import opened Options
  import opened Csv
  import opened SnapshotFile
  import opened SnapshotStream
  import CsvFormat

  /** An entry takes the place of the one at its time, and touches no other. */
  lemma {:induction false} PutReplaces(index: seq<Entry>, e: Entry, x: Entry)
    requires Sorted(index)
    ensures x in Put(index, e) <==> x == e || (x in index && x.time != e.time)
  {
    if index != [] {
      assert index == [index[0]] + index[1..];
      if e.time > index[0].time {
        PutReplaces(index[1..], e, x);
      }
    }
  }

  // ---- rows ----

  /** A line with a time. */
  datatype Row = Row(time: real, start: nat)

  /** The lines with a time. */
  ghost function Timed(marks: seq<Mark>): seq<Row> {
    if marks == [] then []
    else
      var m := marks[|marks| - 1];
      Timed(marks[..|marks| - 1]) + if m.time.Some? then [Row(m.time.value, m.start)] else []
  }

  /** The indexing loop after `n` rows. */
  ghost function After(rows: seq<Row>, n: nat, first: nat): Scanner
    requires n <= |rows|
  {
    if n == 0 then Scanner([], -1.0, first, 0)
    else After(rows, n - 1, first).Feed(Mark(Some(rows[n - 1].time), rows[n - 1].start))
  }

  lemma {:induction false} ScanAppends(s: Scanner, marks: seq<Mark>, m: Mark)
    ensures Scan(s, marks + [m]) == Scan(s, marks).Feed(m)
    decreases |marks|
  {
    if marks == [] {
      assert Scan(s, [m]) == Scan(s.Feed(m), []);
      assert [] + [m] == [m];
    } else {
      assert (marks + [m])[1..] == marks[1..] + [m];
      ScanAppends(s.Feed(marks[0]), marks[1..], m);
    }
  }

  lemma {:induction false} AfterPrefix(rows: seq<Row>, more: seq<Row>, n: nat, first: nat)
    requires n <= |rows|
    ensures After(rows + more, n, first) == After(rows, n, first)
  {
    if n > 0 {
      AfterPrefix(rows, more, n - 1, first);
    }
  }

  /** Lines without a time are passed over. */
  lemma {:induction false} ScanIsAfter(marks: seq<Mark>, first: nat)
    ensures Scan(Scanner([], -1.0, first, 0), marks) == After(Timed(marks), |Timed(marks)|, first)
  {
    if marks != [] {
      var ms, m := marks[..|marks| - 1], marks[|marks| - 1];
      assert marks == ms + [m];
      ScanIsAfter(ms, first);
      ScanAppends(Scanner([], -1.0, first, 0), ms, m);
      if m.time.Some? {
        AfterPrefix(Timed(ms), [Row(m.time.value, m.start)], |Timed(ms)|, first);
        assert Timed(marks) == Timed(ms) + [Row(m.time.value, m.start)];
      } else {
        assert Timed(marks) == Timed(ms);
      }
    }
  }

  // ---- runs of rows ----

  /** A run begins where the time changes, but not after a row at time -1: that is what the loop takes for no row. */
  ghost predicate Begins(rows: seq<Row>, k: nat) {
    k < |rows| && (k == 0 || (rows[k - 1].time != -1.0 && rows[k].time != rows[k - 1].time))
  }

  /** Of the first `n` rows, those from `x` up to `y` are a run. */
  ghost predicate Run(rows: seq<Row>, n: nat, x: nat, y: nat) {
    && x < y <= n <= |rows| && Begins(rows, x)
    && (forall k :: x < k < y ==> !Begins(rows, k))
    && (y == n || Begins(rows, y))
  }

  /** Unless a row is at time -1, a run is a longest stretch of rows at one time. */
  lemma {:induction false} RunHasOneTime(rows: seq<Row>, n: nat, x: nat, y: nat, k: nat)
    requires Run(rows, n, x, y) && x <= k < y && forall l :: 0 <= l < n ==> rows[l].time != -1.0
    ensures rows[k].time == rows[x].time
    ensures (x > 0 ==> rows[x - 1].time != rows[x].time) && (y < n ==> rows[y].time != rows[y - 1].time)
  {
    if k > x {
      RunHasOneTime(rows, n, x, y, k - 1);
      assert !Begins(rows, k);
    }
  }

  /** It stands for the time of its last row. */
  ghost predicate LastRun(rows: seq<Row>, n: nat, x: nat, y: nat) {
    && Run(rows, n, x, y)
    && forall u, v :: Run(rows, n, u, v) && y <= u ==> rows[v - 1].time != rows[y - 1].time
  }

  /** The offset is that of the first row. For the first rows of the file it is that of the first line, even if that line
      has no time. */
  function RunEntry(rows: seq<Row>, x: nat, y: nat, first: nat): Entry
    requires x < y <= |rows|
  {
    Entry(rows[y - 1].time, if x == 0 then first else rows[x].start, y - x)
  }

  ghost predicate Listed(rows: seq<Row>, n: nat, first: nat, e: Entry) {
    exists x, y :: LastRun(rows, n, x, y) && e == RunEntry(rows, x, y, first)
  }

  /** The runs are those before the current one, and the current one. */
  lemma RunsBefore(rows: seq<Row>, n: nat, a: nat, x: nat, y: nat)
    requires Run(rows, n, a, n)
    ensures Run(rows, n, x, y) <==> (x == a && y == n) || Run(rows, a, x, y)
  {
    if Run(rows, n, x, y) && x != a {
      assert x < a && y <= a;
    }
  }

  lemma LastRunsBefore(rows: seq<Row>, n: nat, a: nat, x: nat, y: nat)
    requires Run(rows, n, a, n)
    ensures LastRun(rows, n, x, y) <==>
      (x == a && y == n) || (LastRun(rows, a, x, y) && rows[y - 1].time != rows[n - 1].time)
  {
    forall u, v {
      RunsBefore(rows, n, a, u, v);
    }
  }

  /** What is listed once the current run is closed. */
  lemma ClosingLists(rows: seq<Row>, n: nat, a: nat, first: nat, e: Entry)
    requires Run(rows, n, a, n)
    ensures Listed(rows, n, first, e) <==>
      e == RunEntry(rows, a, n, first) || (Listed(rows, a, first, e) && e.time != rows[n - 1].time)
  {
    LastRunsBefore(rows, n, a, a, n);
    if Listed(rows, n, first, e) {
      var x, y :| LastRun(rows, n, x, y) && e == RunEntry(rows, x, y, first);
      LastRunsBefore(rows, n, a, x, y);
    }
    if Listed(rows, a, first, e) && e.time != rows[n - 1].time {
      var x, y :| LastRun(rows, a, x, y) && e == RunEntry(rows, x, y, first);
      LastRunsBefore(rows, n, a, x, y);
    }
  }

  // ---- the loop ----

  /** The index holds what is listed of the first `n` rows. */
  ghost predicate Indexes(index: seq<Entry>, rows: seq<Row>, n: nat, first: nat) {
    Sorted(index) && forall e {:trigger e in index} :: e in index <==> Listed(rows, n, first, e)
  }

  lemma CloseIndexes(s: Scanner, rows: seq<Row>, n: nat, a: nat, first: nat)
    requires Within(s, rows, n, a, first)
    ensures Indexes(s.Close(), rows, n, first)
  {
    var entry := Entry(s.last, s.start, s.rowCount);
    PutKeepsSorted(s.index, entry);
    forall e: Entry
      ensures e in s.Close() <==> Listed(rows, n, first, e)
    {
      PutReplaces(s.index, entry, e);
      ClosingLists(rows, n, a, first, e);
    }
  }

  /** The loop is in the run that began at `a`, and has indexed what came before. */
  ghost predicate Within(s: Scanner, rows: seq<Row>, n: nat, a: nat, first: nat) {
    && Run(rows, n, a, n)
    && Indexes(s.index, rows, a, first)
    && Entry(s.last, s.start, s.rowCount) == RunEntry(rows, a, n, first)
  }

  /** One more row, at the current time or after a row at time -1, lengthens the run; any other begins one. */
  lemma FeedStaysWithin(s: Scanner, rows: seq<Row>, n: nat, a: nat, first: nat)
    requires n < |rows| && Within(s, rows, n, a, first)
    ensures Within(s.Feed(Mark(Some(rows[n].time), rows[n].start)), rows, n + 1, if Begins(rows, n) then n else a, first)
  {
    if Begins(rows, n) {
      CloseIndexes(s, rows, n, a, first);
    }
  }

  lemma {:induction false} LoopIndexes(rows: seq<Row>, n: nat, first: nat) returns (a: nat)
    requires 0 < n <= |rows|
    ensures Within(After(rows, n, first), rows, n, a, first)
  {
    if n == 1 {
      a := 0;
    } else {
      a := LoopIndexes(rows, n - 1, first);
      FeedStaysWithin(After(rows, n - 1, first), rows, n - 1, a, first);
      a := if Begins(rows, n - 1) then n - 1 else a;
    }
  }

  /** Where the lines of data begin. */
  ghost function DataStart(file: string): nat { if GetLine(file, 0).Some? then GetLine(file, 0).value.1 else 0 }

  /** Any file with a header that something follows: the index holds, by time, for every time of a run of lines the last
      such run, and nothing else. */
  lemma IndexHoldsLastRuns(format: Format, file: string)
    requires GetLine(file, 0).Some? && format.isHeader(GetLine(file, 0).value.0)
    requires GetLine(file, 0).value.1 != |GetLine(file, 0).value.0|
    ensures var rows := Timed(Marks(format, file, DataStart(file)));
      && Indexes(IndexOf(format, file).1, rows, |rows|, DataStart(file))
      && (IndexOf(format, file).0 <==> rows != [])
  {
    var first := DataStart(file);
    var rows := Timed(Marks(format, file, first));
    ScanIsAfter(Marks(format, file, first), first);
    var s := After(rows, |rows|, first);
    if rows != [] {
      var a := LoopIndexes(rows, |rows|, first);
      CloseIndexes(s, rows, |rows|, a, first);
      LastRunsBefore(rows, |rows|, a, a, |rows|);
      assert Listed(rows, |rows|, first, RunEntry(rows, a, |rows|, first));
    }
  }

  // ---- reading through it ----

  /** The lines from an offset on. */
  ghost function LinesFrom(file: string, pos: nat): seq<string>
    decreases if pos < |file| then |file| - pos else 0
  {
    match GetLine(file, pos)
    case None => []
    case Some((line, next)) => [line] + LinesFrom(file, next)
  }

  /** These lines are there, and each has a particle. */
  ghost predicate Readable(format: Format, lines: seq<string>, count: nat) {
    count <= |lines| && forall k :: 0 <= k < count ==> format.particle(lines[k]).Some?
  }

  /** The result `r`: nothing unless they are, and otherwise those particles. */
  ghost predicate Reads(format: Format, lines: seq<string>, count: nat, r: Option<seq<Particle>>) {
    && (r.Some? <==> Readable(format, lines, count))
    && (r.Some? ==> |r.value| == count && forall k :: 0 <= k < count ==> format.particle(lines[k]) == Some(r.value[k]))
  }

  lemma ReadsOneMore(format: Format, line: string, lines: seq<string>, count: nat, p: Particle, r: Option<seq<Particle>>)
    requires Reads(format, lines, count, r) && format.particle(line) == Some(p)
    ensures Reads(format, [line] + lines, count + 1, if r.None? then None else Some([p] + r.value))
  {
    var all := [line] + lines;
    assert forall k :: 0 <= k < |lines| ==> lines[k] == all[k + 1];
    if Readable(format, all, count + 1) {
      assert Readable(format, lines, count);
    }
  }

  /** At any offset of any file, `count` lines are read if and only if there are so many, each with a particle. What is read
      is those particles. Lines that indexing has passed over are not passed over. */
  lemma {:induction false} ReadingTakesLines(format: Format, file: string, pos: nat, count: nat)
    ensures Reads(format, LinesFrom(file, pos), count, ParseRows(format, file, pos, count))
    decreases count
  {
    var next := GetLine(file, pos);
    if next.Some? {
      assert LinesFrom(file, pos)[0] == next.value.0;
    }
    if count > 0 && next.Some? && format.particle(next.value.0).Some? {
      ReadingTakesLines(format, file, next.value.1, count - 1);
      ReadsOneMore(format, next.value.0, LinesFrom(file, next.value.1), count - 1, format.particle(next.value.0).value,
                   ParseRows(format, file, next.value.1, count - 1));
    }
  }

  /** Two rows with an empty line between them. */
  function Gap(format: Format, line: string): string { Ended(format.header) + Ended(line) + Ended("") + Ended(line) }

  /** A line between two parts of a file. */
  lemma LineBetween(file: string, prefix: string, line: string, rest: string, next: string)
    requires file == next + rest && next == prefix + Ended(line) && '\n' !in line
    ensures GetLine(file, |prefix|) == Some((line, |next|))
  {
    LineInFile(file, prefix, line, rest);
  }

  lemma GapLines(header: string, line: string, h: string, first: string, second: string, file: string)
    requires h == Ended(header) && first == h + Ended(line) && second == first + Ended("") && file == second + Ended(line)
    requires '\n' !in header && '\n' !in line
    ensures GetLine(file, 0) == Some((header, |h|)) && GetLine(file, |h|) == Some((line, |first|))
    ensures GetLine(file, |first|) == Some(("", |second|)) && GetLine(file, |second|) == Some((line, |file|))
  {
    assert file == h + (Ended(line) + Ended("") + Ended(line));
    LineBetween(file, "", header, Ended(line) + Ended("") + Ended(line), h);
    assert file == first + (Ended("") + Ended(line));
    LineBetween(file, h, line, Ended("") + Ended(line), first);
    LineBetween(file, first, "", Ended(line), second);
    LineBetween(file, second, line, "", file);
  }

  lemma GapScan(s: Scanner, time: real, marks: seq<Mark>)
    requires s.index == [] && s.last == -1.0 && s.rowCount == 0
    requires |marks| == 3 && marks[0].time == Some(time) == marks[2].time && marks[1].time == None
    ensures Scan(s, marks).Finish() == [Entry(time, s.start, 2)]
  {
    var t := s.Feed(marks[0]);
    assert t == s.(last := time, rowCount := 1);
    assert Scan(s, marks) == Scan(t, marks[1..]);
    assert Scan(t, marks[1..]) == Scan(t, marks[1..][1..]);
    assert Scan(t, marks[1..][1..]) == Scan(t.Feed(marks[2]), marks[1..][1..][1..]);
  }

  lemma EmptyLineSpoilsIn(format: Format, time: real, p: Particle)
    requires format.Valid() && format.exact(time, p) && format.time("") == None && format.particle("") == None
    ensures var file, entry := Gap(format, format.line(time, p)), Entry(time, |Ended(format.header)|, 2);
      IndexOf(format, file) == (true, [entry]) && Parse(format, file, entry) == None
  {
    var line, h := format.line(time, p), Ended(format.header);
    var first := h + Ended(line);
    var second, file := first + Ended(""), Gap(format, line);
    GapLines(format.header, line, h, first, second, file);
    assert Marks(format, file, |second|) == [Mark(Some(time), |second|)] + Marks(format, file, |file|);
    assert Marks(format, file, |first|) == [Mark(None, |first|)] + Marks(format, file, |second|);
    var marks := [Mark(Some(time), |h|), Mark(None, |first|), Mark(Some(time), |second|)];
    assert Marks(format, file, |h|) == marks;
    GapScan(Scanner([], -1.0, |h|, 0), time, marks);
  }

  /** With the lines of the writer: they are indexed as one snapshot of two particles, which cannot be read. */
  lemma EmptyLineSpoils(numbers: Numbers, time: real, p: Particle)
    requires numbers.Valid() && CsvFormat.Exact(numbers, time, p)
    ensures var format := CsvFormat.Format(numbers);
      var file, entry := Gap(format, format.line(time, p)), Entry(time, |Ended(format.header)|, 2);
      IndexOf(format, file) == (true, [entry]) && Parse(format, file, entry) == None
  {
    var format := CsvFormat.Format(numbers);
    CsvFormat.FormatIsValid(numbers);
    assert Fields(StripReturn("")) == [];
    EmptyLineSpoilsIn(format, time, p);
  }
}
