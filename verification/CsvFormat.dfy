/** The comma-separated lines of the snapshot file. */
module CsvFormat {
  import opened Vectors
  import opened Options
  import opened Csv
  import opened SnapshotFile

  /** The names of the columns, in order. */
  function Headers(): seq<string> { ["time", "pos_x", "pos_y", "pos_z", "vel_x", "vel_y", "vel_z", "mass"] }

  function Cells(numbers: Numbers, time: real, p: Particle): seq<string> {
    [numbers.text(time),
     numbers.text(p.position.x), numbers.text(p.position.y), numbers.text(p.position.z),
     numbers.text(p.velocity.x), numbers.text(p.velocity.y), numbers.text(p.velocity.z),
     numbers.text(p.mass)]
  }

  function Line(numbers: Numbers, time: real, p: Particle): string { Join(Cells(numbers, time, p)) }

  /** The time on a line, as indexing reads it: only the first field is looked at. */
  function TimeOf(numbers: Numbers, line: string): Option<real> {
    var values := Fields(StripReturn(line));
    if values == [] then None else numbers.number(values[0])
  }

  function VecOf(x: Option<real>, y: Option<real>, z: Option<real>): Option<Vec> {
    if x.Some? && y.Some? && z.Some? then Some(Vec(x.value, y.value, z.value)) else None
  }

  /** The particle on a line, as reading does it: from the columns after the time, all of which must be there. */
  function ParticleOf(numbers: Numbers, line: string): Option<Particle> {
    var values := Fields(StripReturn(line));
    if |values| <= 7 then None
    else
      var position := VecOf(numbers.number(values[1]), numbers.number(values[2]), numbers.number(values[3]));
      var velocity := VecOf(numbers.number(values[4]), numbers.number(values[5]), numbers.number(values[6]));
      var mass := numbers.number(values[7]);
      if position.Some? && velocity.Some? && mass.Some? then Some(Particle(position.value, velocity.value, mass.value))
      else None
  }

  predicate Exact(numbers: Numbers, time: real, p: Particle) {
    && numbers.exact(time) && numbers.exact(p.mass)
    && numbers.exact(p.position.x) && numbers.exact(p.position.y) && numbers.exact(p.position.z)
    && numbers.exact(p.velocity.x) && numbers.exact(p.velocity.y) && numbers.exact(p.velocity.z)
  }

  function ExactIn(numbers: Numbers): (real, Particle) -> bool { (time, p) => Exact(numbers, time, p) }

  function Format(numbers: Numbers): SnapshotFile.Format {
    SnapshotFile.Format(
      ExactIn(numbers),
      Join(Headers()),
      header => Fields(StripReturn(header)) == Headers(),
      (time, p) => Line(numbers, time, p),
      line => TimeOf(numbers, line),
      line => ParticleOf(numbers, line))
  }

  lemma JoinedFields(fields: seq<string>)
    requires fields != []
    requires forall k :: 0 <= k < |fields| ==> IsField(fields[k]) && '\n' !in fields[k] && '\r' !in fields[k]
    ensures Fields(StripReturn(Join(fields))) == fields && '\n' !in Join(fields)
  {
    FieldsOfJoin(fields);
    JoinHasNo(fields, '\n');
    JoinHasNo(fields, '\r');
    assert StripReturn(Join(fields)) == Join(fields);
  }

  lemma ReadsCells(numbers: Numbers, time: real, p: Particle, line: string)
    requires numbers.Valid() && Exact(numbers, time, p) && Fields(StripReturn(line)) == Cells(numbers, time, p)
    ensures TimeOf(numbers, line) == Some(time) && ParticleOf(numbers, line) == Some(p)
  {
  }

  lemma ReadsLine(numbers: Numbers, time: real, p: Particle)
    requires numbers.Valid() && Exact(numbers, time, p)
    ensures '\n' !in Line(numbers, time, p)
    ensures TimeOf(numbers, Line(numbers, time, p)) == Some(time)
    ensures ParticleOf(numbers, Line(numbers, time, p)) == Some(p)
  {
    JoinedFields(Cells(numbers, time, p));
    ReadsCells(numbers, time, p, Line(numbers, time, p));
  }

  lemma HeadersAreFields()
    ensures Fields(StripReturn(Join(Headers()))) == Headers() && '\n' !in Join(Headers())
  {
    JoinedFields(Headers());
  }

  /** If the text of exact numbers can be parsed back and fits into a field, lines can be read back, and so can the header. */
  lemma FormatIsValid(numbers: Numbers)
    requires numbers.Valid()
    ensures Format(numbers).Valid()
  {
    HeadersAreFields();
    forall t, p | Exact(numbers, t, p)
      ensures '\n' !in Line(numbers, t, p)
        && TimeOf(numbers, Line(numbers, t, p)) == Some(t) && ParticleOf(numbers, Line(numbers, t, p)) == Some(p)
    {
      ReadsLine(numbers, t, p);
    }
  }

  /** A file is indexed with one entry for every snapshot, and through the index every one is read. */
  ghost predicate ReadsAs(format: SnapshotFile.Format, file: string, ss: seq<Snapshot>) {
    var (ok, index) := IndexOf(format, file);
    && ok && |index| == |ss|
    && forall k :: 0 <= k < |ss| ==> index[k].time == ss[k].time && Parse(format, file, index[k]) == Some(ss[k])
  }

  lemma WrittenReadsAs(format: SnapshotFile.Format, ss: seq<Snapshot>)
    requires format.Valid() && Recorded(format.exact, ss) && ss != []
    ensures ReadsAs(format, Written(format, ss), ss)
  {
    IndexReadsBack(format, ss, 0);
    forall k | 0 <= k < |ss| {
      IndexReadsBack(format, ss, k);
    }
  }

  /** A file of snapshots at increasing non-negative times, each with a particle, is indexed with one entry
      for every snapshot, whose counts add up to the lines of data, and through the index every one is read back. */
  lemma FileReadsBack(numbers: Numbers, ss: seq<Snapshot>)
    requires numbers.Valid() && Recorded(ExactIn(numbers), ss) && ss != []
    ensures var file := Written(Format(numbers), ss);
      && ReadsAs(Format(numbers), file, ss)
      && RowCounts(IndexOf(Format(numbers), file).1) == |Marks(Format(numbers), file, First(Format(numbers)))|
  {
    FormatIsValid(numbers);
    RowCountsOfWritten(Format(numbers), ss);
    WrittenReadsAs(Format(numbers), ss);
  }

  // ---- the same file with other line ends ----

  /** Every line end with a carriage return before it. */
  function WithReturns(file: string): string {
    if file == "" then "" else (if file[0] == '\n' then "\r\n" else [file[0]]) + WithReturns(file[1..])
  }

  function Returned(line: string): string { line + "\r" }

  /** The format of a file whose lines end so: reading is the same. */
  function ReturningFormat(numbers: Numbers): SnapshotFile.Format {
    var format := Format(numbers);
    format.(header := Returned(format.header), line := (time, p) => Returned(Line(numbers, time, p)))
  }

  lemma StripReturned(line: string)
    ensures StripReturn(Returned(line)) == line
  {
    assert Returned(line)[..|line|] == line;
  }

  /** Lines without carriage returns read the same with one at their end. */
  lemma ReadsReturned(numbers: Numbers, line: string)
    requires StripReturn(line) == line
    ensures TimeOf(numbers, Returned(line)) == TimeOf(numbers, line)
    ensures ParticleOf(numbers, Returned(line)) == ParticleOf(numbers, line)
  {
    StripReturned(line);
  }

  lemma LineHasNoReturn(numbers: Numbers, time: real, p: Particle)
    requires numbers.Valid() && Exact(numbers, time, p)
    ensures StripReturn(Line(numbers, time, p)) == Line(numbers, time, p)
  {
    JoinedFields(Cells(numbers, time, p));
    JoinHasNo(Cells(numbers, time, p), '\r');
  }

  lemma ReadsReturnedLine(numbers: Numbers, time: real, p: Particle)
    requires numbers.Valid() && Exact(numbers, time, p)
    ensures '\n' !in Returned(Line(numbers, time, p))
    ensures TimeOf(numbers, Returned(Line(numbers, time, p))) == Some(time)
    ensures ParticleOf(numbers, Returned(Line(numbers, time, p))) == Some(p)
  {
    ReadsLine(numbers, time, p);
    LineHasNoReturn(numbers, time, p);
    ReadsReturned(numbers, Line(numbers, time, p));
  }

  lemma ReturnedHeader()
    ensures Fields(StripReturn(Returned(Join(Headers())))) == Headers() && '\n' !in Returned(Join(Headers()))
  {
    HeadersAreFields();
    StripReturned(Join(Headers()));
  }

  lemma ReturningFormatIsValid(numbers: Numbers)
    requires numbers.Valid()
    ensures ReturningFormat(numbers).Valid()
  {
    ReturnedHeader();
    forall t, p | Exact(numbers, t, p) {
      ReadsReturnedLine(numbers, t, p);
    }
  }

  lemma {:induction false} ReturnsAppend(a: string, b: string)
    ensures WithReturns(a + b) == WithReturns(a) + WithReturns(b)
  {
    if a == "" {
      assert a + b == b;
    } else {
      ReturnsAppend(a[1..], b);
      assert (a + b)[1..] == a[1..] + b;
    }
  }

  lemma {:induction false} ReturnsInLine(line: string)
    requires '\n' !in line
    ensures WithReturns(line) == line
  {
    if line != "" {
      ReturnsInLine(line[1..]);
    }
  }

  lemma ReturnsAtEnd(line: string)
    requires '\n' !in line
    ensures WithReturns(Ended(line)) == Ended(Returned(line))
  {
    ReturnsAppend(line, "\n");
    ReturnsInLine(line);
    assert WithReturns("\n") == "\r\n" + WithReturns("");
    assert Ended(Returned(line)) == line + "\r\n";
  }

  lemma {:induction false} ReturnsInText(lines: seq<string>, returned: seq<string>)
    requires |returned| == |lines|
    requires forall k :: 0 <= k < |lines| ==> '\n' !in lines[k] && returned[k] == Returned(lines[k])
    ensures WithReturns(Text(lines)) == Text(returned)
  {
    if lines != [] {
      ReturnsInText(lines[1..], returned[1..]);
      ReturnsAtEnd(lines[0]);
      ReturnsAppend(Ended(lines[0]), Text(lines[1..]));
    }
  }

  lemma {:induction false} ReturnsInBody(numbers: Numbers, ss: seq<Snapshot>)
    requires numbers.Valid() && forall k :: 0 <= k < |ss| ==> SnapshotFile.Exact(ExactIn(numbers), ss[k])
    ensures WithReturns(Body(Format(numbers), ss)) == Body(ReturningFormat(numbers), ss)
  {
    if ss != [] {
      var format, s := Format(numbers), ss[0];
      forall i | 0 <= i < |s.particles| ensures '\n' !in Line(numbers, s.time, s.particles[i]) {
        ReadsLine(numbers, s.time, s.particles[i]);
      }
      ReturnsInText(Lines(format, s.time, s.particles), Lines(ReturningFormat(numbers), s.time, s.particles));
      ReturnsInBody(numbers, ss[1..]);
      ReturnsAppend(Rows(format, s.time, s.particles), Body(format, ss[1..]));
    }
  }

  /** Writing in that format is writing the same file with the other line ends. */
  lemma WrittenWithReturns(numbers: Numbers, ss: seq<Snapshot>)
    requires numbers.Valid() && Recorded(ExactIn(numbers), ss)
    ensures WithReturns(Written(Format(numbers), ss)) == Written(ReturningFormat(numbers), ss)
  {
    var format := Format(numbers);
    HeadersAreFields();
    ReturnsAtEnd(format.header);
    ReturnsInBody(numbers, ss);
    ReturnsAppend(Ended(format.header), Body(format, ss));
  }

  /** Indexing and reading depend only on how lines are parsed. */
  lemma {:induction false} MarksAlike(f: SnapshotFile.Format, g: SnapshotFile.Format, file: string, pos: nat)
    requires f.time == g.time
    ensures Marks(f, file, pos) == Marks(g, file, pos)
    decreases if pos < |file| then |file| - pos else 0
  {
    var line := GetLine(file, pos);
    if line.Some? {
      MarksAlike(f, g, file, line.value.1);
    }
  }

  lemma IndexAlike(f: SnapshotFile.Format, g: SnapshotFile.Format, file: string)
    requires f.time == g.time && f.isHeader == g.isHeader
    ensures IndexOf(f, file) == IndexOf(g, file)
  {
    var header := GetLine(file, 0);
    if header.Some? {
      MarksAlike(f, g, file, header.value.1);
    }
  }

  lemma {:induction false} ParseAlike(f: SnapshotFile.Format, g: SnapshotFile.Format, file: string, pos: nat, count: nat)
    requires f.particle == g.particle
    ensures ParseRows(f, file, pos, count) == ParseRows(g, file, pos, count)
    decreases count
  {
    if count > 0 {
      var line := GetLine(file, pos);
      if line.Some? {
        ParseAlike(f, g, file, line.value.1, count - 1);
      }
    }
  }

  lemma ReadsAlike(f: SnapshotFile.Format, g: SnapshotFile.Format, file: string, ss: seq<Snapshot>)
    requires f.time == g.time && f.isHeader == g.isHeader && f.particle == g.particle
    requires ReadsAs(g, file, ss)
    ensures ReadsAs(f, file, ss)
  {
    IndexAlike(f, g, file);
    var index := IndexOf(g, file).1;
    forall k | 0 <= k < |ss| {
      ParseAlike(f, g, file, index[k].offset, index[k].rowCount);
    }
  }

  /** A recorded file whose line ends have been given carriage returns is indexed with one entry for every snapshot, and
      through the index every one is read back. */
  lemma FileWithReturnsReadsBack(numbers: Numbers, ss: seq<Snapshot>)
    requires numbers.Valid() && Recorded(ExactIn(numbers), ss) && ss != []
    ensures ReadsAs(Format(numbers), WithReturns(Written(Format(numbers), ss)), ss)
  {
    WrittenWithReturns(numbers, ss);
    ReturningFormatIsValid(numbers);
    WrittenReadsAs(ReturningFormat(numbers), ss);
    ReadsAlike(Format(numbers), ReturningFormat(numbers), Written(ReturningFormat(numbers), ss), ss);
  }
}
