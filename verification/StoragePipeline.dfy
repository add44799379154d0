/** The storage pipeline as an interleaving of its threads: snapshots come from a pool, are filled by their one holder,
    shared, queued, saved by the storage worker, and go back to the pool with their last reference.

    A snapshot holds a reference to its particle data and a time. Those two are what the results below speak of, not the
    particle data behind the reference: a simulator may write to that while the snapshot is queued. */
module StoragePipeline {
  import opened Options
  import opened Storage

  /** Snapshots are numbers below `size`; `D` is what one holds: the reference to its data, and its time. */
  datatype Limits = Limits(size: nat, capacity: nat)

  datatype Worker<D> = Waiting | Saving(b: nat) | Finished

  /** `hands` are the references outside the pipeline. `pushed` is what each snapshot ever pushed held then, and `saved`
      what each one saved held then; a sentinel is `None`. */
  datatype State<D> = State(
    free: seq<nat>,
    hands: multiset<nat>,
    queue: seq<Option<nat>>,
    worker: Worker<D>,
    contents: map<nat, D>,
    pushed: seq<Option<D>>,
    saved: seq<D>)

  datatype Step<D> =
    | Acquire
    | Fill(b: nat, d: D)
    | Share(b: nat)
    | Release(b: nat)
    | Push(b: nat)
    | Abort
    | Pop
    | Save

  function Referenced(x: Option<nat>): multiset<nat> { if x.Some? then multiset{x.value} else multiset{} }

  function Queued(queue: seq<Option<nat>>): multiset<nat> {
    if queue == [] then multiset{} else Queued(queue[..|queue| - 1]) + Referenced(queue[|queue| - 1])
  }

  function Working<D>(worker: Worker<D>): multiset<nat> {
    if worker.Saving? then multiset{worker.b} else multiset{}
  }

  /** All references to snapshots. */
  function References<D>(s: State<D>): multiset<nat> { s.hands + Queued(s.queue) + Working(s.worker) }

  /** A snapshot whose last reference is gone is reset and free again. */
  function Freed<D>(s: State<D>, b: nat): State<D> {
    if b in References(s) then s else s.(free := s.free + [b], contents := s.contents - {b})
  }

  predicate Enabled<D>(s: State<D>, step: Step<D>, limits: Limits) {
    match step
    case Acquire => s.free != []
    case Fill(b, _) => b in s.hands && References(s)[b] == 1
    case Share(b) => b in s.hands
    case Release(b) => b in s.hands
    case Push(b) => b in s.hands && b in s.contents && |s.queue| < limits.capacity
    case Abort => |s.queue| < limits.capacity
    case Pop => s.worker.Waiting? && s.queue != []
    case Save => s.worker.Saving? && s.worker.b in s.contents
  }

  function Take<D>(s: State<D>, step: Step<D>, limits: Limits): State<D>
    requires Enabled(s, step, limits)
  {
    match step
    case Acquire => s.(free := s.free[1..], hands := s.hands + multiset{s.free[0]})
    case Fill(b, d) => s.(contents := s.contents[b := d])
    case Share(b) => s.(hands := s.hands + multiset{b})
    case Release(b) => Freed(s.(hands := s.hands - multiset{b}), b)
    case Push(b) =>
      s.(queue := s.queue + [Some(b)], hands := s.hands - multiset{b}, pushed := s.pushed + [Some(s.contents[b])])
    case Abort => s.(queue := s.queue + [None], pushed := s.pushed + [None])
    case Pop =>
      s.(queue := s.queue[1..], worker := match s.queue[0] case None => Finished case Some(b) => Saving(b))
    case Save => Freed(s.(worker := Waiting, saved := s.saved + [s.contents[s.worker.b]]), s.worker.b)
  }

  // ---- the invariant ----

  /** What the queue holds, as it is now. */
  ghost predicate Holds<D>(queue: seq<Option<nat>>, contents: map<nat, D>, items: seq<Option<D>>) {
    && |items| == |queue|
    && forall k :: 0 <= k < |queue| ==>
      match queue[k]
      case None => items[k] == None
      case Some(b) => b in contents && items[k] == Some(contents[b])
  }

  /** What has left the queue: everything saved, then what is being saved or the sentinel. */
  ghost function Left<D>(s: State<D>): seq<Option<D>>
    requires s.worker.Saving? ==> s.worker.b in s.contents
  {
    Wrapped(s.saved) +
    match s.worker
    case Waiting => []
    case Saving(b) => [Some(s.contents[b])]
    case Finished => [None]
  }

  /** Every snapshot is free once or referenced, never both. */
  ghost predicate Split(free: seq<nat>, refs: multiset<nat>, size: nat) {
    forall b: nat :: multiset(free)[b] + (if b in refs then 1 else 0) == (if b < size then 1 else 0)
  }

  ghost predicate Pooled<D>(s: State<D>, limits: Limits) { Split(s.free, References(s), limits.size) }

  /** What has been pushed is what has left the queue, and then what the queue still holds. */
  ghost predicate Ordered<D>(s: State<D>) {
    && (s.worker.Saving? ==> s.worker.b in s.contents)
    && |Left(s)| <= |s.pushed|
    && s.pushed[..|Left(s)|] == Left(s)
    && Holds(s.queue, s.contents, s.pushed[|Left(s)|..])
  }

  ghost predicate Inv<D>(s: State<D>, limits: Limits) {
    Pooled(s, limits) && |s.queue| <= limits.capacity && Ordered(s)
  }

  // ---- queues of references ----

  lemma QueuedAppend(queue: seq<Option<nat>>, x: Option<nat>)
    ensures Queued(queue + [x]) == Queued(queue) + Referenced(x)
  {
    assert (queue + [x])[..|queue|] == queue;
  }

  lemma Regrouped(a: multiset<nat>, b: multiset<nat>, c: multiset<nat>)
    ensures (a + b) + c == a + (b + c)
  {
  }

  lemma {:induction false} QueuedPrepend(x: Option<nat>, rest: seq<Option<nat>>)
    ensures Queued([x] + rest) == Referenced(x) + Queued(rest)
  {
    if rest == [] {
      assert [x] + rest == [] + [x];
      QueuedAppend([], x);
    } else {
      var before, last := rest[..|rest| - 1], rest[|rest| - 1];
      QueuedPrepend(x, before);
      assert [x] + rest == ([x] + before) + [last];
      QueuedAppend([x] + before, last);
      Regrouped(Referenced(x), Queued(before), Referenced(last));
    }
  }

  lemma QueuedFirst(queue: seq<Option<nat>>)
    requires queue != []
    ensures Queued(queue) == Referenced(queue[0]) + Queued(queue[1..])
  {
    assert queue == [queue[0]] + queue[1..];
    QueuedPrepend(queue[0], queue[1..]);
  }

  lemma {:induction false} QueuedHas(queue: seq<Option<nat>>, k: nat)
    requires k < |queue| && queue[k].Some?
    ensures queue[k].value in Queued(queue)
  {
    if k < |queue| - 1 {
      QueuedHas(queue[..|queue| - 1], k);
    }
  }

  // ---- every step keeps the pool ----

  lemma SplitAcquire(free: seq<nat>, refs: multiset<nat>, size: nat)
    requires Split(free, refs, size) && free != []
    ensures Split(free[1..], refs + multiset{free[0]}, size)
  {
    assert free == [free[0]] + free[1..];
    assert multiset(free) == multiset{free[0]} + multiset(free[1..]);
  }

  lemma SplitMore(free: seq<nat>, refs: multiset<nat>, b: nat, size: nat)
    requires Split(free, refs, size) && b in refs
    ensures Split(free, refs + multiset{b}, size)
  {
  }

  lemma SplitLess(free: seq<nat>, refs: multiset<nat>, b: nat, size: nat)
    requires Split(free, refs, size) && b in refs
    ensures Split(if b in refs - multiset{b} then free else free + [b], refs - multiset{b}, size)
  {
    assert multiset(free + [b]) == multiset(free) + multiset{b};
  }

  lemma OneMoreHand(hands: multiset<nat>, queued: multiset<nat>, working: multiset<nat>, b: nat)
    ensures (hands + multiset{b}) + queued + working == (hands + queued + working) + multiset{b}
  {
  }

  lemma OneHandLess(hands: multiset<nat>, queued: multiset<nat>, working: multiset<nat>, b: nat)
    requires b in hands
    ensures (hands - multiset{b}) + queued + working == (hands + queued + working) - multiset{b}
    ensures (hands - multiset{b}) + (queued + multiset{b}) + working == hands + queued + working
  {
  }

  lemma NoneWorking(held: multiset<nat>, b: nat)
    ensures held + multiset{} == (held + multiset{b}) - multiset{b}
  {
  }

  lemma PopKeepsReferences(hands: multiset<nat>, queue: seq<Option<nat>>)
    requires queue != []
    ensures hands + Queued(queue[1..]) + Referenced(queue[0]) == hands + Queued(queue) + multiset{}
  {
    QueuedFirst(queue);
  }

  /** Once a reference is gone, the snapshot is free if it was the last. */
  lemma FreedKeepsPool<D>(s: State<D>, b: nat, before: multiset<nat>, size: nat)
    requires Split(s.free, before, size) && b in before && References(s) == before - multiset{b}
    ensures Split(Freed(s, b).free, References(Freed(s, b)), size)
  {
    SplitLess(s.free, before, b, size);
    assert References(Freed(s, b)) == References(s);
  }

  lemma AcquireKeepsPool<D>(s: State<D>, limits: Limits)
    requires Pooled(s, limits) && Enabled(s, Acquire, limits)
    ensures Pooled(Take(s, Acquire, limits), limits)
  {
    SplitAcquire(s.free, References(s), limits.size);
    OneMoreHand(s.hands, Queued(s.queue), Working(s.worker), s.free[0]);
  }

  lemma ShareKeepsPool<D>(s: State<D>, b: nat, limits: Limits)
    requires Pooled(s, limits) && Enabled(s, Share(b), limits)
    ensures Pooled(Take(s, Share(b), limits), limits)
  {
    SplitMore(s.free, References(s), b, limits.size);
    OneMoreHand(s.hands, Queued(s.queue), Working(s.worker), b);
  }

  lemma ReleaseKeepsPool<D>(s: State<D>, b: nat, limits: Limits)
    requires Pooled(s, limits) && Enabled(s, Release(b), limits)
    ensures Pooled(Take(s, Release(b), limits), limits)
  {
    OneHandLess(s.hands, Queued(s.queue), Working(s.worker), b);
    FreedKeepsPool(s.(hands := s.hands - multiset{b}), b, References(s), limits.size);
  }

  lemma SaveKeepsPool<D>(s: State<D>, limits: Limits)
    requires Pooled(s, limits) && Enabled(s, Save, limits)
    ensures Pooled(Take(s, Save, limits), limits)
  {
    NoneWorking(s.hands + Queued(s.queue), s.worker.b);
    FreedKeepsPool(s.(worker := Waiting, saved := s.saved + [s.contents[s.worker.b]]), s.worker.b, References(s), limits.size);
  }

  lemma PushKeepsPool<D>(s: State<D>, b: nat, limits: Limits)
    requires Pooled(s, limits) && Enabled(s, Push(b), limits)
    ensures Pooled(Take(s, Push(b), limits), limits)
  {
    QueuedAppend(s.queue, Some(b));
    OneHandLess(s.hands, Queued(s.queue), Working(s.worker), b);
  }

  lemma AbortKeepsPool<D>(s: State<D>, limits: Limits)
    requires Pooled(s, limits) && Enabled(s, Abort, limits)
    ensures Pooled(Take(s, Abort, limits), limits)
  {
    QueuedAppend(s.queue, None);
  }

  lemma PopKeepsPool<D>(s: State<D>, limits: Limits)
    requires Pooled(s, limits) && Enabled(s, Pop, limits)
    ensures Pooled(Take(s, Pop, limits), limits)
  {
    PopKeepsReferences(s.hands, s.queue);
  }

  lemma StepKeepsPool<D>(s: State<D>, step: Step<D>, limits: Limits)
    requires Pooled(s, limits) && Enabled(s, step, limits)
    ensures Pooled(Take(s, step, limits), limits)
  {
    match step {
      case Acquire => AcquireKeepsPool(s, limits);
      case Fill(_, _) =>
      case Share(b) => ShareKeepsPool(s, b, limits);
      case Release(b) => ReleaseKeepsPool(s, b, limits);
      case Push(b) => PushKeepsPool(s, b, limits);
      case Abort => AbortKeepsPool(s, limits);
      case Pop => PopKeepsPool(s, limits);
      case Save => SaveKeepsPool(s, limits);
    }
  }

  // ---- every step keeps the order ----

  /** A snapshot that is filled has one holder: it is neither queued nor being saved. */
  lemma FillKeepsOrder<D>(s: State<D>, b: nat, d: D, limits: Limits)
    requires Ordered(s) && Enabled(s, Fill(b, d), limits)
    ensures Ordered(Take(s, Fill(b, d), limits))
  {
    var t := Take(s, Fill(b, d), limits);
    assert b !in Queued(s.queue) && b !in Working(s.worker);
    forall k | 0 <= k < |s.queue| && s.queue[k].Some? ensures s.queue[k].value != b {
      QueuedHas(s.queue, k);
    }
    assert Left(t) == Left(s);
  }

  lemma PushKeepsOrder<D>(s: State<D>, t: State<D>, x: Option<nat>, item: Option<D>)
    requires Ordered(s) && t == s.(hands := t.hands, queue := s.queue + [x], pushed := s.pushed + [item])
    requires match x case None => item == None case Some(b) => b in s.contents && item == Some(s.contents[b])
    ensures Ordered(t)
  {
    assert Left(t) == Left(s);
    assert t.pushed[|Left(s)|..] == s.pushed[|Left(s)|..] + [item];
  }

  lemma PopKeepsOrder<D>(s: State<D>, limits: Limits)
    requires Ordered(s) && Enabled(s, Pop, limits)
    ensures Ordered(Take(s, Pop, limits))
  {
    var t := Take(s, Pop, limits);
    var n := |Left(s)|;
    assert s.pushed[n..][0] == s.pushed[n];
    assert Left(t) == Left(s) + [s.pushed[n]];
    assert s.pushed[n..][1..] == s.pushed[n + 1..];
  }

  /** A snapshot that is reset is neither queued nor being saved. */
  lemma FreedKeepsOrder<D>(s: State<D>, b: nat)
    requires Ordered(s)
    ensures Ordered(Freed(s, b))
  {
    var t := Freed(s, b);
    if b !in References(s) {
      assert b !in Queued(s.queue) && b !in Working(s.worker);
      forall k | 0 <= k < |s.queue| && s.queue[k].Some? ensures s.queue[k].value != b {
        QueuedHas(s.queue, k);
      }
      assert Left(t) == Left(s);
    }
  }

  lemma SaveKeepsOrder<D>(s: State<D>, limits: Limits)
    requires Ordered(s) && Enabled(s, Save, limits)
    ensures Ordered(Take(s, Save, limits))
  {
    var t := s.(worker := Waiting, saved := s.saved + [s.contents[s.worker.b]]);
    assert Wrapped(t.saved) == Wrapped(s.saved) + [Some(s.contents[s.worker.b])];
    assert Left(t) == Left(s);
    FreedKeepsOrder(t, s.worker.b);
  }

  lemma StepKeepsOrder<D>(s: State<D>, step: Step<D>, limits: Limits)
    requires Ordered(s) && Enabled(s, step, limits)
    ensures Ordered(Take(s, step, limits))
  {
    var t := Take(s, step, limits);
    match step {
      case Fill(b, d) => FillKeepsOrder(s, b, d, limits);
      case Push(b) => PushKeepsOrder(s, t, Some(b), Some(s.contents[b]));
      case Abort => PushKeepsOrder(s, t, None, None);
      case Pop => PopKeepsOrder(s, limits);
      case Save => SaveKeepsOrder(s, limits);
      case Acquire => assert Left(t) == Left(s);
      case Share(_) => assert Left(t) == Left(s);
      case Release(b) =>
        assert Left(s.(hands := s.hands - multiset{b})) == Left(s);
        FreedKeepsOrder(s.(hands := s.hands - multiset{b}), b);
    }
  }

  // ---- whole runs ----

  function Ids(n: nat): (r: seq<nat>)
    ensures |r| == n && forall i :: 0 <= i < n ==> r[i] == i
  {
    seq(n, i requires 0 <= i < n => i)
  }

  predicate Initial<D>(s: State<D>, limits: Limits) {
    && s.free == Ids(limits.size)
    && s.hands == multiset{} && s.queue == [] && s.worker == Waiting && s.pushed == [] && s.saved == []
  }

  predicate IsRun<D(==)>(run: seq<State<D>>, steps: seq<Step<D>>, limits: Limits) {
    && |run| == |steps| + 1
    && Initial(run[0], limits)
    && forall k :: 0 <= k < |steps| ==> Enabled(run[k], steps[k], limits) && run[k + 1] == Take(run[k], steps[k], limits)
  }

  lemma {:induction false} AllOnce(n: nat, b: nat)
    ensures multiset(Ids(n))[b] == if b < n then 1 else 0
  {
    if n > 0 {
      AllOnce(n - 1, b);
      assert Ids(n) == Ids(n - 1) + [n - 1];
    }
  }

  lemma InitialInv<D>(s: State<D>, limits: Limits)
    requires Initial(s, limits)
    ensures Inv(s, limits)
  {
    forall b: nat ensures multiset(s.free)[b] == if b < limits.size then 1 else 0 {
      AllOnce(limits.size, b);
    }
  }

  lemma StepKeepsInv<D>(s: State<D>, step: Step<D>, limits: Limits)
    requires Inv(s, limits) && Enabled(s, step, limits)
    ensures Inv(Take(s, step, limits), limits)
  {
    StepKeepsPool(s, step, limits);
    StepKeepsOrder(s, step, limits);
  }

  /** At every moment of every run each snapshot is free once or referenced, never both, the queue is within its bound,
      and what left the queue and what it still holds is what was pushed. */
  lemma {:induction false} RunKeepsInv<D>(run: seq<State<D>>, steps: seq<Step<D>>, limits: Limits, k: nat)
    requires IsRun(run, steps, limits) && k < |run|
    ensures Inv(run[k], limits)
  {
    if k == 0 {
      InitialInv(run[0], limits);
    } else {
      RunKeepsInv(run, steps, limits, k - 1);
      StepKeepsInv(run[k - 1], steps[k - 1], limits);
    }
  }

  /** At every moment the worker has saved a prefix of what was pushed: the same references and times, in order. */
  lemma SavedInOrder<D>(run: seq<State<D>>, steps: seq<Step<D>>, limits: Limits, k: nat)
    requires IsRun(run, steps, limits) && k < |run|
    ensures Wrapped(run[k].saved) <= run[k].pushed
  {
    RunKeepsInv(run, steps, limits, k);
    assert Wrapped(run[k].saved) <= Left(run[k]) <= run[k].pushed;
  }

  /** A worker that has finished has saved exactly the references and times that were pushed before the first sentinel,
      in order. */
  lemma FinishedHasSaved<D>(run: seq<State<D>>, steps: seq<Step<D>>, limits: Limits, k: nat)
    requires IsRun(run, steps, limits) && k < |run| && run[k].worker.Finished?
    ensures None in run[k].pushed && run[k].saved == BeforeSentinel(run[k].pushed)
  {
    RunKeepsInv(run, steps, limits, k);
    var s := run[k];
    var rest := s.pushed[|Left(s)|..];
    assert s.pushed == Wrapped(s.saved) + [None] + rest;
    FirstSentinel(s.saved, rest);
  }

  lemma {:induction false} FirstSentinel<D>(xs: seq<D>, rest: seq<Option<D>>)
    ensures BeforeSentinel(Wrapped(xs) + [None] + rest) == xs
  {
    var items := Wrapped(xs) + [None] + rest;
    if xs != [] {
      FirstSentinel(xs[1..], rest);
      assert items[1..] == Wrapped(xs[1..]) + [None] + rest;
      assert [xs[0]] + xs[1..] == xs;
    }
  }
}
