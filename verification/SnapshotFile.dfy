/** The snapshot file: how it is written, indexed by time, and read back through the index. */
module SnapshotFile {
  import opened Vectors
  import opened Options
  import opened Csv

  datatype Particle = Particle(position: Vec, velocity: Vec, mass: real)

  datatype Snapshot = Snapshot(time: real, particles: seq<Particle>)

  /** How the lines of the file are printed and parsed; parsing fails on malformed lines. `exact` are the times and
      particles whose numbers the machine can represent. */
  datatype Format = Format(
    exact: (real, Particle) -> bool,
    header: string,
    isHeader: string -> bool,
    line: (real, Particle) -> string,
    time: string -> Option<real>,
    particle: string -> Option<Particle>)
  {
    /** Parsing undoes printing. */
    ghost predicate Valid() {
      && isHeader(header) && header != "" && '\n' !in header
      && forall t, p {:trigger line(t, p)} :: exact(t, p) ==>
        '\n' !in line(t, p) && time(line(t, p)) == Some(t) && particle(line(t, p)) == Some(p)
    }
  }

  // ---- writing ----

  /** Lines with their ends. */
  function Text(lines: seq<string>): string {
    if lines == [] then "" else Ended(lines[0]) + Text(lines[1..])
  }

  function Lines(format: Format, time: real, ps: seq<Particle>): (r: seq<string>)
    ensures |r| == |ps| && forall i :: 0 <= i < |r| ==> r[i] == format.line(time, ps[i])
  {
    seq(|ps|, i requires 0 <= i < |ps| => format.line(time, ps[i]))
  }

  /** The lines of particles at one time. */
  function Rows(format: Format, time: real, ps: seq<Particle>): string { Text(Lines(format, time, ps)) }

  /** The lines of snapshots, one after the other. */
  function Body(format: Format, ss: seq<Snapshot>): string {
    if ss == [] then "" else Rows(format, ss[0].time, ss[0].particles) + Body(format, ss[1..])
  }

  /** The whole file. */
  function Written(format: Format, ss: seq<Snapshot>): string { Ended(format.header) + Body(format, ss) }

  lemma {:induction false} TextAppend(lines: seq<string>, line: string)
    ensures Text(lines + [line]) == Text(lines) + Ended(line)
  {
    if lines == [] {
      assert [] + [line] == [line] && [line][1..] == [];
    } else {
      TextAppend(lines[1..], line);
      assert (lines + [line])[1..] == lines[1..] + [line];
    }
  }

  /** Writes a snapshot to the end of a text. */
  method Write(format: Format, file: string, s: Snapshot) returns (r: string)
    ensures r == file + Rows(format, s.time, s.particles)
  {
    r := file;
    ghost var lines := Lines(format, s.time, s.particles);
    for i := 0 to |s.particles|
      invariant r == file + Text(lines[..i])
    {
      TextAppend(lines[..i], lines[i]);
      assert lines[..i + 1] == lines[..i] + [lines[i]];
      r := r + Ended(format.line(s.time, s.particles[i]));
    }
    assert lines[..|lines|] == lines;
  }

  // ---- indexing ----

  datatype Entry = Entry(time: real, offset: nat, rowCount: nat)

  /** The index is ordered by time; a second entry for a time replaces the first. */
  function Put(index: seq<Entry>, e: Entry): seq<Entry> {
    if index == [] || e.time < index[0].time then [e] + index
    else if e.time == index[0].time then [e] + index[1..]
    else [index[0]] + Put(index[1..], e)
  }

  /** What indexing sees of a line: its time, unless it is empty or malformed, and where it starts. */
  datatype Mark = Mark(time: Option<real>, start: nat)

  ghost function Marks(format: Format, file: string, pos: nat): seq<Mark>
    decreases if pos < |file| then |file| - pos else 0
  {
    match GetLine(file, pos)
    case None => []
    case Some((line, next)) => [Mark(format.time(line), pos)] + Marks(format, file, next)
  }

  /** The state of the indexing loop: the index so far, and the snapshot that the last row belongs to. */
  datatype Scanner = Scanner(index: seq<Entry>, last: real, start: nat, rowCount: nat) {
    function Close(): seq<Entry> { Put(index, Entry(last, start, rowCount)) }

    /** A row is one more of the snapshot, or the first of the next; other lines are passed over. */
    function Feed(mark: Mark): Scanner {
      match mark.time
      case None => this
      case Some(time) =>
        if last != -1.0 && time != last then Scanner(Close(), time, mark.start, 1)
        else this.(last := time, rowCount := rowCount + 1)
    }

    function Finish(): seq<Entry> { if rowCount > 0 then Close() else index }
  }

  ghost function Scan(s: Scanner, marks: seq<Mark>): Scanner
    decreases |marks|
  {
    if marks == [] then s else Scan(s.Feed(marks[0]), marks[1..])
  }

  /** Whether indexing succeeds, and the index. A file with nothing after the line of its header succeeds
      only if that line has no end. */
  ghost function IndexOf(format: Format, file: string): (bool, seq<Entry>) {
    match GetLine(file, 0)
    case None => (false, [])
    case Some((header, first)) =>
      if !format.isHeader(header) then (false, [])
      else if first == |header| then (true, [])
      else
        var index := Scan(Scanner([], -1.0, first, 0), Marks(format, file, first)).Finish();
        (index != [], index)
  }

  // ---- the index of a written file ----

  /** The entries of snapshots whose lines begin at `pos`. */
  ghost function Entries(format: Format, ss: seq<Snapshot>, pos: nat): (r: seq<Entry>)
    ensures |r| == |ss|
  {
    if ss == [] then []
    else
      [Entry(ss[0].time, pos, |ss[0].particles|)]
      + Entries(format, ss[1..], pos + |Rows(format, ss[0].time, ss[0].particles)|)
  }

  ghost predicate Exact(exact: (real, Particle) -> bool, s: Snapshot) {
    forall i :: 0 <= i < |s.particles| ==> exact(s.time, s.particles[i])
  }

  /** What a run of the simulation records. */
  ghost predicate Recorded(exact: (real, Particle) -> bool, ss: seq<Snapshot>) {
    && (forall k :: 0 <= k < |ss| ==> ss[k].particles != [] && ss[k].time >= 0.0 && Exact(exact, ss[k]))
    && (forall k, l :: 0 <= k < l < |ss| ==> ss[k].time < ss[l].time)
  }

  lemma {:induction false} PutAppends(index: seq<Entry>, e: Entry)
    requires forall k :: 0 <= k < |index| ==> index[k].time < e.time
    ensures Put(index, e) == index + [e]
  {
    if index != [] {
      PutAppends(index[1..], e);
    }
  }

  /** The first line of a text in the middle of a file. */
  lemma {:induction false} FirstLine(file: string, prefix: string, lines: seq<string>, rest: string)
    requires lines != [] && file == prefix + Text(lines) + rest && '\n' !in lines[0]
    ensures GetLine(file, |prefix|) == Some((lines[0], |prefix + Ended(lines[0])|))
    ensures file == (prefix + Ended(lines[0])) + Text(lines[1..]) + rest
    ensures |prefix| + |Text(lines)| == |prefix + Ended(lines[0])| + |Text(lines[1..])|
  {
    Regroup(file, prefix, Ended(lines[0]), Text(lines[1..]), rest);
    LineInFile(file, prefix, lines[0], Text(lines[1..]) + rest);
  }

  lemma Regroup(file: string, a: string, b: string, c: string, d: string)
    requires file == a + (b + c) + d
    ensures file == a + b + (c + d) && file == (a + b) + c + d
  {
  }

  /** A snapshot's rows: all at one time, the first at `pos`. */
  ghost predicate RowMarks(ms: seq<Mark>, time: real, pos: nat) {
    && (forall i :: 0 <= i < |ms| ==> ms[i].time == Some(time))
    && (ms != [] ==> ms[0].start == pos)
  }

  lemma {:induction false} OneMoreMark(format: Format, file: string, pos: nat, line: string, next: nat,
      others: seq<Mark>, end: nat)
    requires GetLine(file, pos) == Some((line, next)) && Marks(format, file, next) == others + Marks(format, file, end)
    ensures Marks(format, file, pos) == ([Mark(format.time(line), pos)] + others) + Marks(format, file, end)
  {
  }

  /** The lines of a snapshot are seen as its rows. */
  lemma {:induction false} MarksOfText(format: Format, time: real, lines: seq<string>, file: string,
      prefix: string, rest: string, end: nat)
    returns (ms: seq<Mark>)
    requires file == prefix + Text(lines) + rest && end == |prefix| + |Text(lines)|
    requires forall i :: 0 <= i < |lines| ==> '\n' !in lines[i] && format.time(lines[i]) == Some(time)
    ensures |ms| == |lines| && RowMarks(ms, time, |prefix|)
    ensures Marks(format, file, |prefix|) == ms + Marks(format, file, end)
  {
    ms := [];
    if lines != [] {
      var next := prefix + Ended(lines[0]);
      FirstLine(file, prefix, lines, rest);
      var others := MarksOfText(format, time, lines[1..], file, next, rest, end);
      OneMoreMark(format, file, |prefix|, lines[0], |next|, others, end);
      ms := [Mark(Some(time), |prefix|)] + others;
    }
  }

  /** More rows at the same time only count. */
  lemma {:induction false} ScanRows(s: Scanner, ms: seq<Mark>, rest: seq<Mark>)
    requires forall i :: 0 <= i < |ms| ==> ms[i].time == Some(s.last)
    ensures Scan(s, ms + rest) == Scan(s.(rowCount := s.rowCount + |ms|), rest)
    decreases |ms|
  {
    if ms == [] {
      assert ms + rest == rest;
    } else {
      ScanRows(s.Feed(ms[0]), ms[1..], rest);
      assert (ms + rest)[1..] == ms[1..] + rest;
    }
  }

  /** The rows of a new snapshot close the one before it. */
  lemma {:induction false} ScanSnapshot(s: Scanner, ms: seq<Mark>, time: real, pos: nat, rest: seq<Mark>)
    requires ms != [] && RowMarks(ms, time, pos) && time != s.last
    requires s.last == -1.0 ==> s == Scanner([], -1.0, pos, 0)
    ensures Scan(s, ms + rest) == Scan(Scanner(if s.last == -1.0 then [] else s.Close(), time, pos, |ms|), rest)
  {
    ScanRows(s.Feed(ms[0]), ms[1..], rest);
    assert (ms + rest)[1..] == ms[1..] + rest;
  }

  /** The rows of a snapshot in the middle of a file. */
  lemma {:induction false} MarksOfSnapshot(format: Format, s: Snapshot, file: string, prefix: string, rest: string, end: nat)
    returns (ms: seq<Mark>)
    requires format.Valid() && Exact(format.exact, s) && file == prefix + Rows(format, s.time, s.particles) + rest
    requires end == |prefix| + |Rows(format, s.time, s.particles)|
    ensures |ms| == |s.particles| && RowMarks(ms, s.time, |prefix|)
    ensures Marks(format, file, |prefix|) == ms + Marks(format, file, end)
  {
    ms := MarksOfText(format, s.time, Lines(format, s.time, s.particles), file, prefix, rest, end);
  }

  /** The first snapshot of a body in a file. */
  lemma {:induction false} FirstSnapshot(format: Format, ss: seq<Snapshot>, file: string, prefix: string)
    requires ss != [] && file == prefix + Body(format, ss)
    ensures var rows := Rows(format, ss[0].time, ss[0].particles);
      && file == prefix + rows + Body(format, ss[1..]) && |prefix + rows| == |prefix| + |rows|
  {
  }

  /** Within a snapshot that is later than everything indexed. */
  ghost predicate Within(s: Scanner) {
    && s.last >= 0.0 && s.rowCount > 0
    && forall k :: 0 <= k < |s.index| ==> s.index[k].time < s.last
  }

  /** The first of several snapshots takes the place of the one before. */
  lemma {:induction false} ScanFirst(format: Format, s: Scanner, ss: seq<Snapshot>, file: string, prefix: string,
      rows: string)
    requires format.Valid() && ss != [] && ss[0].particles != [] && Exact(format.exact, ss[0])
    requires file == prefix + Body(format, ss)
    requires rows == Rows(format, ss[0].time, ss[0].particles) && ss[0].time != s.last
    requires s.last == -1.0 ==> s == Scanner([], -1.0, |prefix|, 0)
    ensures file == prefix + rows + Body(format, ss[1..])
    ensures Scan(s, Marks(format, file, |prefix|))
         == Scan(Scanner(if s.last == -1.0 then [] else s.Close(), ss[0].time, |prefix|, |ss[0].particles|),
                 Marks(format, file, |prefix + rows|))
  {
    FirstSnapshot(format, ss, file, prefix);
    var end := |prefix + rows|;
    assert end == |prefix| + |rows|;
    var ms := MarksOfSnapshot(format, ss[0], file, prefix, Body(format, ss[1..]), end);
    ScanSnapshot(s, ms, ss[0].time, |prefix|, Marks(format, file, end));
  }

  lemma NothingLeft(format: Format, file: string, pos: nat)
    requires pos == |file|
    ensures Marks(format, file, pos) == []
  {
  }

  lemma {:induction false} FirstEntry(format: Format, ss: seq<Snapshot>, pos: nat, next: nat)
    requires ss != [] && next == pos + |Rows(format, ss[0].time, ss[0].particles)|
    ensures Entries(format, ss, pos)
         == [Entry(ss[0].time, pos, |ss[0].particles|)] + Entries(format, ss[1..], next)
  {
  }

  /** One more entry after those that are closed. */
  lemma OneMoreEntry(all: seq<Entry>, closed: seq<Entry>, e: Entry, rest: seq<Entry>, before: seq<Entry>,
      entries: seq<Entry>)
    requires all == closed + [e] + rest && closed == before && entries == [e] + rest
    ensures all == before + entries
  {
  }

  lemma {:induction false} ScanSnapshots(format: Format, s: Scanner, ss: seq<Snapshot>, file: string, prefix: string)
    requires format.Valid() && Recorded(format.exact, ss) && Within(s) && file == prefix + Body(format, ss)
    requires forall k :: 0 <= k < |ss| ==> s.last < ss[k].time
    ensures Scan(s, Marks(format, file, |prefix|)).Finish()
         == s.index + [Entry(s.last, s.start, s.rowCount)] + Entries(format, ss, |prefix|)
    decreases |ss|
  {
    PutAppends(s.index, Entry(s.last, s.start, s.rowCount));
    if ss == [] {
      NothingLeft(format, file, |prefix|);
    } else {
      var rows := Rows(format, ss[0].time, ss[0].particles);
      ScanFirst(format, s, ss, file, prefix, rows);
      var next := Scanner(s.Close(), ss[0].time, |prefix|, |ss[0].particles|);
      ScanSnapshots(format, next, ss[1..], file, prefix + rows);
      FirstEntry(format, ss, |prefix|, |prefix + rows|);
      OneMoreEntry(Scan(s, Marks(format, file, |prefix|)).Finish(), s.Close(), Entry(ss[0].time, |prefix|, |ss[0].particles|),
                   Entries(format, ss[1..], |prefix + rows|),
                   s.index + [Entry(s.last, s.start, s.rowCount)], Entries(format, ss, |prefix|));
    }
  }

  /** Where the lines after the header begin. */
  function First(format: Format): nat { |Ended(format.header)| }

  lemma HeaderLine(format: Format, ss: seq<Snapshot>)
    requires format.Valid()
    ensures GetLine(Written(format, ss), 0) == Some((format.header, First(format)))
  {
    assert Written(format, ss) == "" + Ended(format.header) + Body(format, ss);
    LineInFile(Written(format, ss), "", format.header, Body(format, ss));
  }

  lemma IndexOfBody(format: Format, ss: seq<Snapshot>, file: string, prefix: string)
    requires format.Valid() && Recorded(format.exact, ss) && file == prefix + Body(format, ss)
    ensures Scan(Scanner([], -1.0, |prefix|, 0), Marks(format, file, |prefix|)).Finish() == Entries(format, ss, |prefix|)
  {
    if ss == [] {
      NothingLeft(format, file, |prefix|);
    } else {
      var rows, s := Rows(format, ss[0].time, ss[0].particles), Scanner([], -1.0, |prefix|, 0);
      var next := Scanner([], ss[0].time, |prefix|, |ss[0].particles|);
      ScanFirst(format, s, ss, file, prefix, rows);
      ScanSnapshots(format, next, ss[1..], file, prefix + rows);
      FirstEntry(format, ss, |prefix|, |prefix + rows|);
      OneMoreEntry(Scan(s, Marks(format, file, |prefix|)).Finish(), [], Entry(ss[0].time, |prefix|, |ss[0].particles|),
                   Entries(format, ss[1..], |prefix + rows|), [], Entries(format, ss, |prefix|));
    }
  }

  /** The index of a recorded file has one entry for every snapshot. */
  lemma IndexOfWritten(format: Format, ss: seq<Snapshot>)
    requires format.Valid() && Recorded(format.exact, ss)
    ensures IndexOf(format, Written(format, ss)) == (ss != [], Entries(format, ss, First(format)))
  {
    HeaderLine(format, ss);
    IndexOfBody(format, ss, Written(format, ss), Ended(format.header));
  }

  /** A file that holds nothing but its header: indexing succeeds, with no entries, when its line is not ended,
      and fails when it is. */
  lemma HeaderAlone(format: Format)
    requires format.Valid()
    ensures IndexOf(format, format.header) == (true, [])
    ensures IndexOf(format, Ended(format.header)) == (false, [])
  {
    assert Find(format.header, '\n', 0) == |format.header|;
    assert format.header[0..|format.header|] == format.header;
    HeaderLine(format, []);
    assert Written(format, []) == Ended(format.header);
    NothingLeft(format, Ended(format.header), First(format));
  }

  ghost function RowCounts(index: seq<Entry>): nat {
    if index == [] then 0 else index[0].rowCount + RowCounts(index[1..])
  }

  lemma {:induction false} OneMoreCount(e: Entry, index: seq<Entry>, all: seq<Entry>)
    requires all == [e] + index
    ensures RowCounts(all) == e.rowCount + RowCounts(index)
  {
    assert all[1..] == index;
  }

  lemma {:induction false} RowsAreCounted(format: Format, ss: seq<Snapshot>, file: string, prefix: string)
    requires format.Valid() && file == prefix + Body(format, ss)
    requires forall k :: 0 <= k < |ss| ==> Exact(format.exact, ss[k])
    ensures RowCounts(Entries(format, ss, |prefix|)) == |Marks(format, file, |prefix|)|
    decreases |ss|
  {
    if ss == [] {
      NothingLeft(format, file, |prefix|);
    } else {
      var rows := Rows(format, ss[0].time, ss[0].particles);
      FirstSnapshot(format, ss, file, prefix);
      var ms := MarksOfSnapshot(format, ss[0], file, prefix, Body(format, ss[1..]), |prefix + rows|);
      RowsAreCounted(format, ss[1..], file, prefix + rows);
      FirstEntry(format, ss, |prefix|, |prefix + rows|);
      OneMoreCount(Entry(ss[0].time, |prefix|, |ss[0].particles|), Entries(format, ss[1..], |prefix + rows|),
                   Entries(format, ss, |prefix|));
    }
  }

  /** The row counts of the index add up to the number of lines after the header. */
  lemma RowCountsOfWritten(format: Format, ss: seq<Snapshot>)
    requires format.Valid() && Recorded(format.exact, ss)
    ensures RowCounts(IndexOf(format, Written(format, ss)).1) == |Marks(format, Written(format, ss), First(format))|
  {
    IndexOfWritten(format, ss);
    RowsAreCounted(format, ss, Written(format, ss), Ended(format.header));
  }

  // ---- reading ----

  /** The particles on `count` lines; any malformed line spoils them all. */
  function ParseRows(format: Format, file: string, pos: nat, count: nat): Option<seq<Particle>>
    decreases count
  {
    if count == 0 then Some([])
    else match GetLine(file, pos)
      case None => None
      case Some((line, next)) =>
        match format.particle(line)
        case None => None
        case Some(p) =>
          match ParseRows(format, file, next, count - 1)
          case None => None
          case Some(ps) => Some([p] + ps)
  }

  function Parse(format: Format, file: string, e: Entry): Option<Snapshot> {
    match ParseRows(format, file, e.offset, e.rowCount)
    case None => None
    case Some(ps) => Some(Snapshot(e.time, ps))
  }

  lemma ParseOneMore(format: Format, file: string, pos: nat, line: string, next: nat, p: Particle, ps: seq<Particle>)
    requires GetLine(file, pos) == Some((line, next)) && format.particle(line) == Some(p)
    requires ParseRows(format, file, next, |ps|) == Some(ps)
    ensures ParseRows(format, file, pos, |ps| + 1) == Some([p] + ps)
  {
  }

  lemma {:induction false} ParseText(format: Format, lines: seq<string>, ps: seq<Particle>, file: string,
      prefix: string, rest: string)
    requires file == prefix + Text(lines) + rest && |ps| == |lines|
    requires forall i :: 0 <= i < |lines| ==> '\n' !in lines[i] && format.particle(lines[i]) == Some(ps[i])
    ensures ParseRows(format, file, |prefix|, |ps|) == Some(ps)
  {
    if lines != [] {
      var next := prefix + Ended(lines[0]);
      FirstLine(file, prefix, lines, rest);
      ParseText(format, lines[1..], ps[1..], file, next, rest);
      ParseOneMore(format, file, |prefix|, lines[0], |next|, ps[0], ps[1..]);
      assert [ps[0]] + ps[1..] == ps;
    }
  }

  lemma {:induction false} ReadFrom(format: Format, ss: seq<Snapshot>, k: nat, file: string, prefix: string)
    requires format.Valid() && k < |ss| && Exact(format.exact, ss[k]) && file == prefix + Body(format, ss)
    ensures Parse(format, file, Entries(format, ss, |prefix|)[k]) == Some(ss[k])
    decreases k
  {
    var rows := Rows(format, ss[0].time, ss[0].particles);
    FirstSnapshot(format, ss, file, prefix);
    if k == 0 {
      var lines := Lines(format, ss[0].time, ss[0].particles);
      ParseText(format, lines, ss[0].particles, file, prefix, Body(format, ss[1..]));
    } else {
      ReadFrom(format, ss[1..], k - 1, file, prefix + rows);
      assert Entries(format, ss, |prefix|)[k] == Entries(format, ss[1..], |prefix + rows|)[k - 1];
    }
  }

  /** Reading through the index returns every snapshot that was written. */
  lemma IndexReadsBack(format: Format, ss: seq<Snapshot>, k: nat)
    requires format.Valid() && Recorded(format.exact, ss) && k < |ss|
    ensures IndexOf(format, Written(format, ss)).0 && |IndexOf(format, Written(format, ss)).1| == |ss|
    ensures IndexOf(format, Written(format, ss)).1[k].time == ss[k].time
    ensures Parse(format, Written(format, ss), IndexOf(format, Written(format, ss)).1[k]) == Some(ss[k])
  {
    IndexOfWritten(format, ss);
    EntryTime(format, ss, k, First(format));
    ReadFrom(format, ss, k, Written(format, ss), Ended(format.header));
  }

  lemma {:induction false} EntryTime(format: Format, ss: seq<Snapshot>, k: nat, pos: nat)
    requires k < |ss|
    ensures Entries(format, ss, pos)[k].time == ss[k].time
    ensures Entries(format, ss, pos)[k].rowCount == |ss[k].particles|
    decreases k
  {
    if k > 0 {
      EntryTime(format, ss[1..], k - 1, pos + |Rows(format, ss[0].time, ss[0].particles)|);
    }
  }
}
