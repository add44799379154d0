/** The ring buffer between the file reader and the player: a bounded window with a read cursor. */
module RingBuffer {
  import opened Options

  // ---- as a value ----

  /** The items from tail to head, and how many of them lie behind the reader. */
  datatype Window<T> = Window(items: seq<T>, cursor: nat, capacity: nat, retain: nat, closed: bool) {
    predicate Valid() { |items| <= capacity && cursor <= |items| && cursor <= retain }

    predicate Full() { |items| == capacity }

    predicate CaughtUp() { cursor == |items| }

    /** What the reader has still to read. */
    function Unread(): seq<T>
      requires Valid()
    {
      items[cursor..]
    }

    /** A new item at the head, unless the window is full or shut down. */
    function PushHead(x: T): (Window<T>, bool) {
      if Full() || closed then (this, false) else (this.(items := items + [x]), true)
    }

    /** A new item at the tail. A full window drops its head item, unless the reader stands there;
        the reader stays with its item, unless too many would lie behind it. */
    function PushTail(x: T): (Window<T>, bool)
      requires Valid()
    {
      if Full() && CaughtUp() then (this, false)
      else
        var kept := if Full() then items[..|items| - 1] else items;
        (this.(items := [x] + kept, cursor := if cursor + 1 > retain then cursor else cursor + 1), true)
    }

    /** The next item; items too far behind the reader are dropped. */
    function ReadForward(): (Window<T>, Option<T>)
      requires Valid()
    {
      if CaughtUp() then (this, None)
      else if cursor + 1 > retain then (this.(items := items[1..]), Some(items[cursor]))
      else (this.(cursor := cursor + 1), Some(items[cursor]))
    }

    /** One item back, as far as the tail. */
    function ReadBackward(): (Window<T>, Option<T>)
      requires Valid()
    {
      if cursor == 0 then (this, None)
      else (this.(cursor := cursor - 1), Some(items[cursor - 1]))
    }

    function Clear(): Window<T> { this.(items := [], cursor := 0) }

    function Shutdown(): Window<T> { this.(closed := true) }
  }

  /** Every operation keeps the bounds: at most `capacity` items, at most `retain` of them behind the reader. */
  lemma OperationsKeepValid<T>(w: Window<T>, x: T)
    requires w.Valid()
    ensures w.PushHead(x).0.Valid() && w.PushTail(x).0.Valid()
    ensures w.ReadForward().0.Valid() && w.ReadBackward().0.Valid()
    ensures w.Clear().Valid() && w.Shutdown().Valid()
  {
  }

  /** Reading forward and then backward yields the same item twice exactly when the window retains anything; then it also
      restores the position: what is dropped at the tail lies behind what was read. Otherwise there is nothing to go
      back to. */
  lemma BackwardUndoesForward<T>(w: Window<T>)
    requires w.Valid() && !w.CaughtUp()
    ensures var (after, x) := w.ReadForward();
      && x.Some? && after.Valid() && after.ReadBackward().0.Valid()
      && (after.ReadBackward().1 == x <==> w.retain > 0)
      && (w.retain > 0 ==> after.ReadBackward().0.Unread() == w.Unread())
      && (w.retain == 0 ==> after.ReadBackward() == (after, None))
  {
  }

  /** `n` forward reads. */
  function ReadMany<T>(w: Window<T>, n: nat): (r: (Window<T>, seq<T>))
    requires w.Valid()
    ensures r.0.Valid()
    decreases n
  {
    if n == 0 then (w, [])
    else
      var (next, x) := w.ReadForward();
      if x.None? then (w, [])
      else
        var rest := ReadMany(next, n - 1);
        (rest.0, [x.value] + rest.1)
  }

  /** Forward reads return the unread items in order, and leave the others unread. */
  lemma {:induction false} ReadsInOrder<T>(w: Window<T>, n: nat)
    requires w.Valid()
    ensures ReadMany(w, n).1 + ReadMany(w, n).0.Unread() == w.Unread()
    ensures |ReadMany(w, n).1| == n || ReadMany(w, n).0.CaughtUp()
    decreases n
  {
    if n > 0 && !w.CaughtUp() {
      var next := w.ReadForward().0;
      ReadsInOrder(next, n - 1);
      ForwardTakesFirst(w);
      var rest := ReadMany(next, n - 1);
      assert [w.items[w.cursor]] + (rest.1 + rest.0.Unread()) == [w.items[w.cursor]] + rest.1 + rest.0.Unread();
    }
  }

  lemma ForwardTakesFirst<T>(w: Window<T>)
    requires w.Valid() && !w.CaughtUp()
    ensures w.ReadForward().0.Valid() && w.ReadForward().1 == Some(w.items[w.cursor])
    ensures w.Unread() == [w.items[w.cursor]] + w.ReadForward().0.Unread()
  {
  }

  /** How many items `n` forward reads drop at the tail: those of what then lies behind the reader that are not retained. */
  function DroppedBy<T>(w: Window<T>, n: nat): nat {
    if w.cursor + n > w.retain then w.cursor + n - w.retain else 0
  }

  /** The window with the reader `n` items further on. */
  function Moved<T>(w: Window<T>, n: nat): Window<T>
    requires w.Valid() && w.cursor + n <= |w.items|
  {
    w.(items := w.items[DroppedBy(w, n)..], cursor := w.cursor + n - DroppedBy(w, n))
  }

  lemma MovedTwice<T>(w: Window<T>, m: nat, n: nat)
    requires w.Valid() && w.cursor + m + n <= |w.items|
    ensures Moved(w, m).Valid() && Moved(w, m).cursor + n <= |Moved(w, m).items| && Moved(Moved(w, m), n) == Moved(w, m + n)
  {
    assert w.items[DroppedBy(w, m)..][DroppedBy(Moved(w, m), n)..] == w.items[DroppedBy(w, m + n)..];
  }

  lemma OneReadMoves<T>(w: Window<T>)
    requires w.Valid() && w.cursor < |w.items|
    ensures w.ReadForward() == (Moved(w, 1), Some(w.items[w.cursor]))
  {
  }

  /** `n` forward reads move the reader on. */
  lemma {:induction false} ReadsMove<T>(w: Window<T>, n: nat)
    requires w.Valid() && w.cursor + n <= |w.items|
    ensures ReadMany(w, n).0 == Moved(w, n)
    decreases n
  {
    if n > 0 {
      OneReadMoves(w);
      MovedTwice(w, 1, n - 1);
      ReadsMove(Moved(w, 1), n - 1);
    }
  }

  /** They return the next items. */
  lemma ReadsReturn<T>(w: Window<T>, n: nat)
    requires w.Valid() && w.cursor + n <= |w.items|
    ensures ReadMany(w, n).1 == w.items[w.cursor..w.cursor + n]
  {
    ReadsInOrder(w, n);
    ReadsMove(w, n);
    var xs := ReadMany(w, n).1;
    assert |xs| == n;
    assert (xs + ReadMany(w, n).0.Unread())[..n] == xs;
    assert w.Unread()[..n] == w.items[w.cursor..w.cursor + n];
  }

  /** `n` backward reads. */
  function ReadBack<T>(w: Window<T>, n: nat): (r: (Window<T>, seq<T>))
    requires w.Valid()
    ensures r.0.Valid()
    decreases n
  {
    if n == 0 then (w, [])
    else
      var (next, x) := w.ReadBackward();
      if x.None? then (w, [])
      else
        var rest := ReadBack(next, n - 1);
        (rest.0, [x.value] + rest.1)
  }

  function Backwards<T>(xs: seq<T>): seq<T> { if xs == [] then [] else [xs[|xs| - 1]] + Backwards(xs[..|xs| - 1]) }

  /** A backward read never changes which items the window holds. */
  lemma BackwardKeepsItems<T>(w: Window<T>)
    requires w.Valid()
    ensures w.ReadBackward().0 == w.(cursor := w.ReadBackward().0.cursor)
    ensures w.ReadBackward().1.Some? <==> w.cursor > 0
  {
  }

  /** `m` backward reads return the `m` items behind the reader, the last one first, and leave all items in the window. */
  lemma {:induction false} ReadsBackInOrder<T>(w: Window<T>, m: nat)
    requires w.Valid() && m <= w.cursor
    ensures ReadBack(w, m).0 == w.(cursor := w.cursor - m)
    ensures ReadBack(w, m).1 == Backwards(w.items[w.cursor - m..w.cursor])
    decreases m
  {
    if m > 0 {
      var next := w.ReadBackward().0;
      ReadsBackInOrder(next, m - 1);
      var xs := w.items[w.cursor - m..w.cursor];
      assert xs[..|xs| - 1] == w.items[w.cursor - m..w.cursor - 1];
    }
  }

  /** More backward reads than there are items behind the reader stop at the tail. */
  lemma {:induction false} ReadsBackStop<T>(w: Window<T>, m: nat)
    requires w.Valid() && m >= w.cursor
    ensures ReadBack(w, m) == ReadBack(w, w.cursor)
    decreases m
  {
    if w.cursor > 0 {
      ReadsBackStop(w.ReadBackward().0, m - 1);
    }
  }

  lemma BackFromMoved<T>(w: Window<T>, n: nat, m: nat, ahead: Window<T>, xs: seq<T>)
    requires w.Valid() && w.cursor + n <= |w.items| && m <= n && m <= w.retain
    requires ahead == Moved(w, n) && xs == w.items[w.cursor..w.cursor + n]
    ensures ahead.Valid() && m <= ahead.cursor && ahead.items[ahead.cursor - m..ahead.cursor] == xs[n - m..]
    ensures ahead.items[ahead.cursor - m..] == xs[n - m..] + ahead.items[ahead.cursor..]
  {
    LastOfSlice(w.items, DroppedBy(w, n), w.cursor, n, m);
  }

  /** After `n` forward reads, `m` backward reads return the last `m` items that were read, in reverse, as long as the
      window retains them, and leave unread exactly those and what had not been read. */
  lemma BackwardReadsUndoForward<T>(w: Window<T>, n: nat, m: nat, ahead: Window<T>, xs: seq<T>)
    requires w.Valid() && w.cursor + n <= |w.items| && m <= n && m <= w.retain && (ahead, xs) == ReadMany(w, n)
    ensures |xs| == n && ReadBack(ahead, m).1 == Backwards(xs[n - m..])
    ensures ReadBack(ahead, m).0.Unread() == xs[n - m..] + ahead.Unread()
    ensures ReadBack(ahead, m).0.items == ahead.items
  {
    ReadsMove(w, n);
    ReadsReturn(w, n);
    BackFromMoved(w, n, m, ahead, xs);
    ReadsBackInOrder(ahead, m);
  }

  /** The last `m` of `n` items, seen from where `d` have been dropped. */
  lemma LastOfSlice<T>(xs: seq<T>, d: nat, c: nat, n: nat, m: nat)
    requires m <= n && c + n <= |xs| && d + m <= c + n
    ensures xs[d..][c + n - d - m..c + n - d] == xs[c..c + n][n - m..]
    ensures xs[d..][c + n - d - m..] == xs[c..c + n][n - m..] + xs[d..][c + n - d..]
  {
  }

  /** A push at the head is refused exactly when the window is full or shut down; otherwise it adds to what is unread. */
  lemma PushHeadAdds<T>(w: Window<T>, x: T)
    requires w.Valid()
    ensures var (after, success) := w.PushHead(x);
      && (success <==> |w.items| < w.capacity && !w.closed)
      && after.Valid() && after.Unread() == (if success then w.Unread() + [x] else w.Unread())
      && (!success ==> after == w)
  {
  }

  /** A push at the tail is refused exactly when the window is full and has been read to its end. Otherwise it puts the
      item before all others, at most the last of which is lost, and leaves unread what was, or with it the item before
      it when no more items may lie behind the reader. */
  lemma PushTailAdds<T>(w: Window<T>, x: T)
    requires w.Valid()
    ensures var (after, success) := w.PushTail(x);
      && (success <==> |w.items| < w.capacity || w.cursor < |w.items|)
      && after.Valid() && (!success ==> after == w)
      && (success ==>
        var kept := if |w.items| < w.capacity then w.items else w.items[..|w.items| - 1];
        && after.items == [x] + kept
        && after.Unread() == (if w.cursor < w.retain then [] else [([x] + w.items)[w.cursor]]) + kept[w.cursor..])
  {
  }

  // ---- in memory ----

  /** The slot `k` places after `from` in a ring of `n` slots. */
  function Slot(n: nat, from: nat, k: nat): (r: nat)
    requires from < n && k < n
    ensures r < n
  {
    if from + k < n then from + k else from + k - n
  }

  function DistanceIn(n: nat, from: nat, to: nat): (d: nat)
    requires from < n && to < n
    ensures d < n && Slot(n, from, d) == to
  {
    if to >= from then to - from else to + n - from
  }

  /** The `count` items from slot `from` on. */
  ghost function Cut<T>(ring: seq<Option<T>>, from: nat, count: nat): (r: seq<T>)
    requires from < |ring| && count <= |ring|
    requires forall k :: 0 <= k < count ==> ring[Slot(|ring|, from, k)].Some?
    ensures |r| == count
  {
    seq(count, k requires 0 <= k < count => ring[Slot(|ring|, from, k)].value)
  }

  function Before(n: nat, idx: nat): (r: nat)
    requires idx < n
    ensures r < n
  {
    if idx == 0 then n - 1 else idx - 1
  }

  function After(n: nat, idx: nat): (r: nat)
    requires idx < n
    ensures r < n
  {
    if idx + 1 == n then 0 else idx + 1
  }

  lemma RemainderOf(k: nat, q: int, r: nat, n: nat)
    requires k == q * n + r && r < n
    ensures k % n == r
  {
    assert (k / n - q) * n == r - k % n;
    Multiple(k / n - q, n, r - k % n);
  }

  /** Zero is the only small multiple. */
  lemma Multiple(d: int, n: int, m: int)
    requires n > 0 && d * n == m && -n < m < n
    ensures m == 0
  {
    if d > 0 {
      NatProduct(d - 1, n);
    } else if d < 0 {
      NatProduct(-d - 1, n);
    }
  }

  lemma NatProduct(a: nat, b: nat)
    ensures a * b >= 0
  {
  }

  /** The neighbours are what modular arithmetic on the indices gives. */
  lemma NeighboursAreModular(n: nat, idx: nat)
    requires idx < n
    ensures After(n, idx) == (idx + 1) % n && Before(n, idx) == (idx + n - 1) % n
    ensures After(n, Before(n, idx)) == idx && Before(n, After(n, idx)) == idx
  {
    RemainderOf(idx + 1, if idx + 1 == n then 1 else 0, After(n, idx), n);
    RemainderOf(idx + n - 1, if idx == 0 then 0 else 1, Before(n, idx), n);
  }

  lemma DistanceSteps(n: nat, from: nat, to: nat)
    requires from < n && to < n
    ensures DistanceIn(n, from, to) < n - 1 ==>
      && DistanceIn(n, Before(n, from), to) == DistanceIn(n, from, to) + 1
      && DistanceIn(n, from, After(n, to)) == DistanceIn(n, from, to) + 1
    ensures DistanceIn(n, from, to) > 0 ==>
      && DistanceIn(n, After(n, from), to) == DistanceIn(n, from, to) - 1
      && DistanceIn(n, from, Before(n, to)) == DistanceIn(n, from, to) - 1
  {
  }

  ghost predicate Filled<T>(ring: seq<Option<T>>, from: nat, count: nat) {
    from < |ring| && count <= |ring| && forall k :: 0 <= k < count ==> ring[Slot(|ring|, from, k)].Some?
  }

  lemma CutGrowsAtHead<T>(ring: seq<Option<T>>, from: nat, count: nat, x: T)
    requires Filled(ring, from, count) && count < |ring|
    ensures var grown := ring[Slot(|ring|, from, count) := Some(x)];
      Filled(grown, from, count + 1) && Cut(grown, from, count + 1) == Cut(ring, from, count) + [x]
  {
  }

  lemma CutGrowsAtTail<T>(ring: seq<Option<T>>, from: nat, count: nat, x: T)
    requires Filled(ring, from, count) && count < |ring|
    ensures var first := Before(|ring|, from);
      var grown := ring[first := Some(x)];
      Filled(grown, first, count + 1) && Cut(grown, first, count + 1) == [x] + Cut(ring, from, count)
  {
    var n, first := |ring|, Before(|ring|, from);
    var grown := ring[first := Some(x)];
    forall k | 0 < k <= count
      ensures Slot(n, first, k) == Slot(n, from, k - 1) != first
    {
    }
  }

  lemma CutDropsAtHead<T>(ring: seq<Option<T>>, from: nat, count: nat)
    requires Filled(ring, from, count) && count > 0
    ensures Filled(ring, from, count - 1) && Cut(ring, from, count - 1) == Cut(ring, from, count)[..count - 1]
  {
  }

  lemma CutDropsAtTail<T>(ring: seq<Option<T>>, from: nat, count: nat)
    requires Filled(ring, from, count) && count > 0
    ensures var next := After(|ring|, from);
      Filled(ring, next, count - 1) && Cut(ring, next, count - 1) == Cut(ring, from, count)[1..]
  {
    var n, next := |ring|, After(|ring|, from);
    forall k | 0 <= k < count - 1
      ensures Slot(n, next, k) == Slot(n, from, k + 1)
    {
    }
  }

  /** What moves when the reader takes an item: its distance from the tail, and again when the tail follows. */
  lemma ReadMoves<T>(ring: seq<Option<T>>, tail: nat, read: nat, head: nat)
    requires tail < |ring| && read < |ring| && head < |ring| && read != head
    requires Filled(ring, tail, DistanceIn(|ring|, tail, head))
    requires DistanceIn(|ring|, tail, read) <= DistanceIn(|ring|, tail, head)
    ensures var n, size, behind := |ring|, DistanceIn(|ring|, tail, head), DistanceIn(|ring|, tail, read);
      && behind < size
      && DistanceIn(n, tail, After(n, read)) == behind + 1
      && DistanceIn(n, After(n, tail), After(n, read)) == behind
      && DistanceIn(n, After(n, tail), head) == size - 1
      && Filled(ring, After(n, tail), size - 1)
      && Cut(ring, After(n, tail), size - 1) == Cut(ring, tail, size)[1..]
  {
    DistanceSteps(|ring|, tail, read);
    DistanceSteps(|ring|, tail, After(|ring|, read));
    DistanceSteps(|ring|, tail, head);
    CutDropsAtTail(ring, tail, DistanceIn(|ring|, tail, head));
  }

  class SystemRingBuffer<T(0)> {
    const retainCount: nat
    const buffer: array<Option<T>>

    var tail: nat
    var read: nat
    var head: nat
    var isShuttingDown: bool

    ghost predicate Valid()
      reads this, buffer
    {
      && buffer.Length > 0
      && tail < buffer.Length && read < buffer.Length && head < buffer.Length
      && Distance(tail, read) <= Distance(tail, head)
      && Distance(tail, read) <= retainCount
      && forall k :: 0 <= k < Distance(tail, head) ==> buffer[Slot(buffer.Length, tail, k)].Some?
    }

    /** The buffer as a window. */
    ghost function Contents(): (w: Window<T>)
      requires Valid()
      reads this, buffer
      ensures w.Valid()
    {
      Window(Cut(buffer[..], tail, Distance(tail, head)), Distance(tail, read), buffer.Length - 1, retainCount, isShuttingDown)
    }

    function Distance(from: nat, to: nat): (d: nat)
      requires from < buffer.Length && to < buffer.Length
      ensures d < buffer.Length && Slot(buffer.Length, from, d) == to
    {
      DistanceIn(buffer.Length, from, to)
    }

    constructor (capacity: nat, retainCount: nat)
      ensures Valid() && Contents() == Window([], 0, capacity, retainCount, false) && fresh(buffer)
    {
      this.retainCount := retainCount;
      buffer := new Option<T>[capacity + 1](_ => None);
      tail, read, head, isShuttingDown := 0, 0, 0, false;
    }

    function IsFull(): bool
      requires Valid()
      reads this, buffer
      ensures IsFull() == Contents().Full()
    {
      After(buffer.Length, head) == tail
    }

    function IsEmpty(): bool
      requires Valid()
      reads this, buffer
      ensures IsEmpty() <==> Contents().items == []
    {
      tail == head
    }

    function HasReaderCaughtUp(): bool
      requires Valid()
      reads this, buffer
      ensures HasReaderCaughtUp() == Contents().CaughtUp()
    {
      read == head
    }

    function Size(): nat
      requires Valid()
      reads this, buffer
      ensures Size() == |Contents().items|
    {
      Distance(tail, head)
    }

    method PushHead(x: T) returns (success: bool)
      requires Valid()
      modifies this, buffer
      ensures Valid()
      ensures (Contents(), success) == old(Contents()).PushHead(x)
    {
      if IsFull() || isShuttingDown {
        return false;
      }
      CutGrowsAtHead(buffer[..], tail, Distance(tail, head), x);
      buffer[head] := Some(x);
      head := After(buffer.Length, head);
      return true;
    }

    /** Makes room at the head of a full buffer, unless the reader stands there. */
    method DropHead() returns (success: bool)
      requires Valid()
      modifies `head
      ensures Valid() && success == !(old(Contents()).Full() && old(Contents()).CaughtUp())
      ensures success ==> !Contents().Full()
      ensures Contents() == if success && old(Contents()).Full()
        then old(Contents()).(items := old(Contents()).items[..|old(Contents()).items| - 1]) else old(Contents())
    {
      if IsFull() {
        if HasReaderCaughtUp() {
          return false;
        }
        CutDropsAtHead(buffer[..], tail, Distance(tail, head));
        head := Before(buffer.Length, head);
      }
      return true;
    }

    /** Writes `x` into the free slot before the tail. */
    method StoreBeforeTail(x: T)
      requires Valid() && !Contents().Full()
      modifies `tail, buffer
      ensures tail < buffer.Length && Filled(buffer[..], tail, Distance(tail, head))
      ensures Cut(buffer[..], tail, Distance(tail, head)) == [x] + old(Contents()).items
      ensures Distance(tail, head) == old(Distance(tail, head)) + 1
      ensures Distance(tail, read) == old(Distance(tail, read)) + 1
    {
      CutGrowsAtTail(buffer[..], tail, Distance(tail, head), x);
      DistanceSteps(buffer.Length, tail, head);
      DistanceSteps(buffer.Length, tail, read);
      tail := Before(buffer.Length, tail);
      buffer[tail] := Some(x);
    }

    /** Puts `x` before the tail of a buffer with room; the reader moves with it when it falls too far behind. */
    method PlaceAtTail(x: T)
      requires Valid() && !Contents().Full()
      modifies `tail, `read, buffer
      ensures Valid()
      ensures Contents() == old(Contents()).(
        items := [x] + old(Contents()).items,
        cursor := if old(Contents()).cursor + 1 > retainCount then old(Contents()).cursor else old(Contents()).cursor + 1)
    {
      StoreBeforeTail(x);
      DistanceSteps(buffer.Length, tail, read);
      if Distance(tail, read) > retainCount {
        read := Before(buffer.Length, read);
      }
    }

    method PushTail(x: T) returns (success: bool)
      requires Valid()
      modifies this, buffer
      ensures Valid()
      ensures (Contents(), success) == old(Contents()).PushTail(x)
    {
      success := DropHead();
      if success {
        PlaceAtTail(x);
      }
    }

    method ReadForward() returns (r: Option<T>)
      requires Valid()
      modifies `read, `tail
      ensures Valid()
      ensures (Contents(), r) == old(Contents()).ReadForward()
    {
      if HasReaderCaughtUp() {
        return None;
      }
      ghost var behind := Distance(tail, read);
      ReadMoves(buffer[..], tail, read, head);
      r := buffer[read];
      read := After(buffer.Length, read);
      while Distance(tail, read) > retainCount
        invariant tail < buffer.Length && read == After(buffer.Length, old(read))
        invariant
          || (tail == old(tail) && Distance(tail, read) == behind + 1)
          || (tail == After(buffer.Length, old(tail)) && Distance(tail, read) == behind == retainCount)
        decreases Distance(tail, read)
      {
        tail := After(buffer.Length, tail);
      }
    }

    method ReadBackward() returns (r: Option<T>)
      requires Valid()
      modifies this
      ensures Valid()
      ensures (Contents(), r) == old(Contents()).ReadBackward()
    {
      if Distance(tail, read) < 1 {
        return None;
      }
      read := Before(buffer.Length, read);
      return buffer[read];
    }

    method Clear()
      requires Valid()
      modifies this, buffer
      ensures Valid() && Contents() == old(Contents()).Clear() == old(Contents()).(items := [], cursor := 0)
    {
      tail, read, head := 0, 0, 0;
      forall k | 0 <= k < buffer.Length {
        buffer[k] := None;
      }
    }

    method Shutdown()
      requires Valid()
      modifies this
      ensures Valid() && Contents() == old(Contents()).Shutdown() == old(Contents()).(closed := true)
    {
      isShuttingDown := true;
    }

    /** The newest item, or none. */
    method HeadItem() returns (r: Option<T>)
      requires Valid()
      ensures r == if Contents().items == [] then None else Some(Contents().items[|Contents().items| - 1])
    {
      if IsEmpty() {
        return None;
      }
      return buffer[Before(buffer.Length, head)];
    }

    /** The oldest item, or none. */
    method TailItem() returns (r: Option<T>)
      requires Valid()
      ensures r == if Contents().items == [] then None else Some(Contents().items[0])
    {
      if IsEmpty() {
        return None;
      }
      return buffer[tail];
    }
  }
}
