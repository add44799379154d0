/** The worker that moves snapshots from a recorded file into the buffer, in place.
    Undisturbed by the reader, its steps are those of the replay protocol. */
module BufferWorker {
  import opened Options
  import opened RingBuffer
  import opened Replay
  import opened SnapshotFile
  import opened SnapshotStream

  // ---- windows of snapshots ----

  ghost predicate InFile(w: Window<nat>, n: nat) { forall k :: 0 <= k < |w.items| ==> w.items[k] < n }

  /** The window that holds the snapshots themselves. */
  ghost function Showing(w: Window<nat>, ss: seq<Snapshot>): (r: Window<Snapshot>)
    requires InFile(w, |ss|)
    ensures |r.items| == |w.items| && r.cursor == w.cursor && (w.Valid() <==> r.Valid())
    ensures forall k :: 0 <= k < |r.items| ==> r.items[k] == ss[w.items[k]]
  {
    Window(seq(|w.items|, k requires 0 <= k < |w.items| => ss[w.items[k]]), w.cursor, w.capacity, w.retain, w.closed)
  }

  lemma PushHeadShows(w: Window<nat>, i: nat, ss: seq<Snapshot>)
    requires InFile(w, |ss|) && i < |ss|
    ensures InFile(w.PushHead(i).0, |ss|)
    ensures Showing(w, ss).PushHead(ss[i]) == (Showing(w.PushHead(i).0, ss), w.PushHead(i).1)
  {
    var after := w.PushHead(i).0;
    assert Showing(w, ss).PushHead(ss[i]).0.items == Showing(after, ss).items;
  }

  lemma PushTailShows(w: Window<nat>, i: nat, ss: seq<Snapshot>)
    requires w.Valid() && InFile(w, |ss|) && i < |ss|
    ensures InFile(w.PushTail(i).0, |ss|)
    ensures Showing(w, ss).PushTail(ss[i]) == (Showing(w.PushTail(i).0, ss), w.PushTail(i).1)
  {
    var after := w.PushTail(i).0;
    assert Showing(w, ss).PushTail(ss[i]).0.items == Showing(after, ss).items;
  }

  lemma ClearShows(w: Window<nat>, ss: seq<Snapshot>)
    requires InFile(w, |ss|)
    ensures InFile(w.Clear(), |ss|) && Showing(w, ss).Clear() == Showing(w.Clear(), ss)
  {
    assert Showing(w, ss).Clear().items == Showing(w.Clear(), ss).items;
  }

  // ---- whole steps of the worker ----

  function ForwardStep(s: State, n: nat): State
    requires s.window.Valid() && s.cursor <= n && n > 0 && s.phase.Idle?
  {
    var t := Take(s, Forward, n);
    if t.phase.Pushing? then Take(t, Push, n) else t
  }

  function JumpStep(s: State, i: nat, n: nat): State
    requires s.window.Valid() && s.cursor <= n && n > 0 && s.phase.Idle? && i < n
  {
    Take(Take(Take(s, Jump(i), n), Clear, n), Refill, n)
  }

  /** A worker that is not disturbed keeps the window a consecutive run that ends at the cursor. */
  lemma ForwardStepKeeps(s: State, n: nat)
    requires Inv(s, n) && s.phase.Idle?
    ensures Inv(ForwardStep(s, n), n) && ForwardStep(s, n).phase.Idle?
  {
    ForwardKeeps(s, n);
    var t := Take(s, Forward, n);
    if t.phase.Pushing? {
      PushKeeps(t, n);
    }
  }

  lemma JumpStarts(s: State, i: nat, n: nat)
    requires Inv(s, n) && s.phase.Idle? && i < n
    ensures Inv(Take(s, Jump(i), n), n) && Take(s, Jump(i), n).phase.Clearing?
  {
  }

  lemma ClearStarts(s: State, n: nat)
    requires Inv(s, n) && s.phase.Clearing?
    ensures Inv(Take(s, Clear, n), n) && Take(s, Clear, n).phase.Refilling?
  {
    ClearKeeps(s, n);
  }

  lemma JumpStepKeeps(s: State, i: nat, n: nat)
    requires Inv(s, n) && s.phase.Idle? && i < n
    ensures Inv(JumpStep(s, i, n), n) && JumpStep(s, i, n).phase.Idle?
  {
    JumpStarts(s, i, n);
    var t := Take(s, Jump(i), n);
    ClearStarts(t, n);
    RefillKeeps(Take(t, Clear, n), n);
  }

  class SystemBufferWorker {
    const buffer: SystemRingBuffer<Snapshot>
    const stream: SystemSnapshotStream
    ghost const ss: seq<Snapshot>

    /** The stream has indexed the file that `ss` was written to. */
    ghost predicate Valid()
      reads this, buffer, buffer.buffer, stream
    {
      && buffer.Valid() && stream.Valid() && stream.isInitialized
      && stream.format.Valid() && Recorded(stream.format.exact, ss) && ss != []
      && stream.file == Written(stream.format, ss)
      && stream.index == Entries(stream.format, ss, First(stream.format))
    }

    /** Buffer and cursor are those of a state of the protocol. */
    ghost predicate Is(s: State)
      reads this, buffer, buffer.buffer, stream
    {
      && buffer.Valid()
      && s.cursor == stream.cursor && s.phase.Idle?
      && InFile(s.window, |ss|) && buffer.Contents() == Showing(s.window, ss)
    }

    constructor (buffer: SystemRingBuffer<Snapshot>, stream: SystemSnapshotStream, ghost ss: seq<Snapshot>)
      requires buffer.Valid() && stream.Valid() && stream.isInitialized
      requires stream.format.Valid() && Recorded(stream.format.exact, ss) && ss != []
      requires stream.file == Written(stream.format, ss)
      requires stream.index == Entries(stream.format, ss, First(stream.format))
      ensures Valid() && this.buffer == buffer && this.stream == stream && this.ss == ss
    {
      this.buffer := buffer;
      this.stream := stream;
      this.ss := ss;
    }

    lemma EntryReadsBack(k: nat)
      requires Valid() && k < |ss|
      ensures k < |stream.index| && stream.index[k].time == ss[k].time
      ensures Parse(stream.format, stream.file, stream.index[k]) == Some(ss[k])
    {
      IndexOfWritten(stream.format, ss);
      IndexReadsBack(stream.format, ss, k);
    }

    /** One step forward: nothing when the buffer is full; a push that fails is undone. */
    method StepForward(ghost s: State)
      requires Valid() && Is(s) && s.window.Valid()
      modifies buffer, buffer.buffer, stream
      ensures Valid() && Is(ForwardStep(s, |ss|))
    {
      if buffer.IsFull() {
        return;
      }
      var snapshot := stream.GetNextSnapshot();
      if stream.cursor < |stream.index| {
        EntryReadsBack(stream.cursor);
        PushHeadShows(s.window, stream.cursor, ss);
      }
      if snapshot.Some? {
        var success := buffer.PushHead(snapshot.value);
        if !success {
          stream.RetreatIndexIterator();
        }
      }
    }

    /** What precedes the oldest snapshot of the buffer. */
    method ReadBeforeTail(ghost s: State) returns (snapshot: Option<Snapshot>)
      requires Valid() && Is(s)
      ensures snapshot ==
        if s.window.items == [] || s.window.items[0] == 0 then None else Some(ss[s.window.items[0] - 1])
    {
      var tail := buffer.TailItem();
      if tail.None? {
        return None;
      }
      ghost var i := s.window.items[0];
      EntryReadsBack(i);
      LowerBoundOfEntry(stream.index, i);
      snapshot := stream.GetPrecedingSnapshot(tail.value.time);
      if i > 0 {
        EntryReadsBack(i - 1);
      }
    }

    /** The snapshot before the tail goes to the tail; if that leaves the buffer full, the cursor retreats. */
    method StepBackward(ghost s: State)
      requires Valid() && Is(s) && s.window.Valid()
      modifies buffer, buffer.buffer, stream
      ensures Valid() && Is(BackwardStep(s, |ss|))
    {
      var snapshot := ReadBeforeTail(s);
      if snapshot.Some? {
        PushTailShows(s.window, s.window.items[0] - 1, ss);
        var success := buffer.PushTail(snapshot.value);
        if buffer.IsFull() && success {
          stream.RetreatIndexIterator();
        }
      }
    }

    /** The buffer starts again with the snapshot at a fraction of the file; other fractions are ignored. */
    method Jump(mu: real, ghost s: State)
      requires Valid() && Is(s) && s.window.Valid()
      modifies buffer, buffer.buffer, stream
      ensures Valid()
      ensures Is(if 0.0 <= mu <= 1.0 then (FractionInRange(mu, |ss|); JumpStep(s, AtFraction(mu, |ss|), |ss|)) else s)
    {
      var snapshot := stream.GetSnapshotAtFraction(mu);
      if 0.0 <= mu <= 1.0 {
        FractionInRange(mu, |ss|);
        EntryReadsBack(stream.cursor);
        ClearShows(s.window, ss);
        PushHeadShows(s.window.Clear(), stream.cursor, ss);
      }
      if snapshot.Some? {
        buffer.Clear();
        var _ := buffer.PushHead(snapshot.value);
      }
    }
  }
}
