/** The replay protocol: a worker fills the window from a cyclic sequence of snapshots while a reader moves in it.
    Snapshots are named by their index; each step below is one lock acquisition. */
module Replay {
  import opened RingBuffer

  // ---- the cursor over n snapshots; n itself is the end position ----

  function Next(cursor: nat, n: nat): (r: nat)
    requires cursor <= n
    ensures r <= n
  {
    if cursor == n then 0 else cursor + 1
  }

  function Previous(cursor: nat, n: nat): (r: nat)
    requires cursor <= n && n > 0
    ensures r <= n
  {
    if cursor == 0 then n else if cursor == n then n - 1 else cursor - 1
  }

  /** The index of the snapshot at a fraction of the file. */
  function AtFraction(mu: real, n: nat): int { (mu * (n - 1) as real).Floor }

  lemma FractionInRange(mu: real, n: nat)
    requires 0.0 <= mu <= 1.0 && n > 0
    ensures 0 <= AtFraction(mu, n) < n
    ensures AtFraction(0.0, n) == 0 && AtFraction(1.0, n) == n - 1
  {
    var m := (n - 1) as real;
    assert 0.0 <= mu * m <= 1.0 * m;
  }

  /** The fraction is between the snapshot and the next. */
  lemma FractionIsBracketed(mu: real, n: nat)
    requires n > 0
    ensures AtFraction(mu, n) as real <= mu * (n - 1) as real < AtFraction(mu, n) as real + 1.0
  {
  }

  lemma FractionsInOrder(mu: real, nu: real, n: nat)
    requires mu <= nu && n > 0
    ensures AtFraction(mu, n) <= AtFraction(nu, n)
  {
    FractionIsBracketed(mu, n);
    FractionIsBracketed(nu, n);
    var m := (n - 1) as real;
    assert mu * m <= nu * m by {
      assert (nu - mu) * m >= 0.0;
    }
  }

  /** The fraction of snapshot `k` leads to it, and so does every one before that of the next. */
  lemma FractionOfSnapshot(mu: real, k: nat, n: nat)
    requires k < n && n > 1
    ensures AtFraction(mu, n) == k <==> k as real / (n - 1) as real <= mu < (k + 1) as real / (n - 1) as real
  {
    var m := (n - 1) as real;
    FractionIsBracketed(mu, n);
    TimesQuotient(k as real, m, mu);
    TimesQuotient((k + 1) as real, m, mu);
  }

  lemma TimesQuotient(a: real, m: real, mu: real)
    requires m > 0.0
    ensures a / m <= mu <==> a <= mu * m
  {
    var q := a / m;
    assert q * m == a;
    if q <= mu {
      assert (mu - q) * m >= 0.0;
    } else {
      assert (q - mu) * m > 0.0;
    }
  }

  /** Each index follows the one before it, cyclically. */
  ghost predicate Consecutive(xs: seq<nat>, n: nat) {
    && (forall k :: 0 <= k < |xs| ==> xs[k] < n)
    && (forall k :: 0 <= k < |xs| - 1 ==> xs[k + 1] == if xs[k] + 1 == n then 0 else xs[k] + 1)
  }

  /** The cursor stands where the sequence ends. */
  ghost predicate EndsAt(xs: seq<nat>, cursor: nat, n: nat) {
    xs != [] ==> cursor == xs[|xs| - 1] || (cursor == n && xs[|xs| - 1] == n - 1)
  }

  /** The cursor stands where the sequence would end with one more item. */
  ghost predicate EndsBefore(xs: seq<nat>, cursor: nat, n: nat) { xs != [] && EndsAt([Follow(xs[|xs| - 1], n)], cursor, n) }

  function Follow(i: nat, n: nat): nat { if i + 1 == n then 0 else i + 1 }

  // ---- states ----

  /** What the worker is in the middle of. `moved`: the push to the tail has changed which item is the last. */
  datatype Phase =
    | Idle
    | Pushing(i: nat)
    | Clearing(i: nat)
    | Refilling(i: nat)
    | Tailing(i: nat)
    | Checking(success: bool, moved: bool)

  /** `log` is everything pushed since the window was last started afresh. */
  datatype State = State(window: Window<nat>, cursor: nat, phase: Phase, log: seq<nat>)

  datatype Step =
    | Forward
    | Push
    | Jump(i: nat)
    | Clear
    | Refill
    | Backward
    | PushTail
    | CheckFull
    | ReadForward
    | ReadBackward
    | Shutdown

  function Started(w: Window<nat>, cursor: nat, phase: Phase): State { State(w, cursor, phase, w.items) }

  predicate Enabled(s: State, step: Step, n: nat) {
    match step
    case Forward => s.phase.Idle?
    case Push => s.phase.Pushing?
    case Jump(i) => s.phase.Idle? && i < n
    case Clear => s.phase.Clearing?
    case Refill => s.phase.Refilling?
    case Backward => s.phase.Idle?
    case PushTail => s.phase.Tailing?
    case CheckFull => s.phase.Checking?
    case _ => true
  }

  function Take(s: State, step: Step, n: nat): State
    requires s.window.Valid() && s.cursor <= n && n > 0 && Enabled(s, step, n)
  {
    match step
    case Forward =>
      if s.window.Full() then s
      else
        var c := Next(s.cursor, n);
        s.(cursor := c, phase := if c == n then Idle else Pushing(c))
    case Push =>
      var (w, success) := s.window.PushHead(s.phase.i);
      if success then State(w, s.cursor, Idle, s.log + [s.phase.i])
      else State(w, Previous(s.cursor, n), Idle, s.log)
    case Jump(i) => s.(cursor := i, phase := Clearing(i))
    case Clear => Started(s.window.Clear(), s.cursor, Refilling(s.phase.i))
    case Refill => Started(s.window.PushHead(s.phase.i).0, s.cursor, Idle)
    case Backward =>
      if s.window.items == [] || s.window.items[0] == 0 then s else s.(phase := Tailing(s.window.items[0] - 1))
    case PushTail =>
      var (w, success) := s.window.PushTail(s.phase.i);
      if success then Started(w, s.cursor, Checking(true, s.window.Full() || s.window.items == []))
      else s.(phase := Checking(false, false))
    case CheckFull =>
      s.(cursor := if s.window.Full() && s.phase.success then Previous(s.cursor, n) else s.cursor, phase := Idle)
    case ReadForward => s.(window := s.window.ReadForward().0)
    case ReadBackward => s.(window := s.window.ReadBackward().0)
    case Shutdown => s.(window := s.window.Shutdown())
  }

  // ---- the invariant ----

  ghost predicate IsSuffix(xs: seq<nat>, ys: seq<nat>) { |xs| <= |ys| && xs == ys[|ys| - |xs|..] }

  /** The window is the end of the log, the log is a consecutive cyclic run of snapshots,
      and between steps it ends where the cursor stands. */
  ghost predicate Inv(s: State, n: nat) {
    && n > 0 && s.window.Valid() && s.cursor <= n
    && IsSuffix(s.window.items, s.log)
    && Consecutive(s.log, n)
    && match s.phase
       case Idle => EndsAt(s.log, s.cursor, n)
       case Pushing(i) => s.cursor == i < n && (s.log != [] ==> i == Follow(s.log[|s.log| - 1], n))
       case Clearing(i) => s.cursor == i < n
       case Refilling(i) => s.cursor == i < n && s.log == []
       case Tailing(i) => i + 1 < n && s.log != [] && EndsAt(s.log, s.cursor, n)
       case Checking(_, moved) =>
         && n > 1 && s.log != [] && (moved ==> s.phase.success)
         && if moved then EndsBefore(s.log, s.cursor, n) else EndsAt(s.log, s.cursor, n)
  }

  /** When a step keeps the invariant. A push to the tail: the tail is still the one that was looked at, or the window has
      been emptied from it on to the last item, or nothing is pushed. The test that follows: the window is full just in
      case the last item has changed, unless the cursor is at the end position, where it is the other way round. */
  predicate Keeps(s: State, step: Step, n: nat)
    requires Enabled(s, step, n)
  {
    match step
    case PushTail =>
      var w, i := s.window, s.phase.i;
      || (w.Full() && w.CaughtUp())
      || (if w.items != [] then w.items[0] == i + 1 else s.cursor == i + 1 || (s.cursor == n == i + 2))
    case CheckFull =>
      || !s.phase.success
      || (if s.phase.moved then s.window.Full() && s.cursor != n else !s.window.Full() || s.cursor == n)
    case _ => true
  }

  lemma ConsecutiveAppend(xs: seq<nat>, i: nat, n: nat)
    requires Consecutive(xs, n) && i < n && (xs != [] ==> i == Follow(xs[|xs| - 1], n))
    ensures Consecutive(xs + [i], n)
  {
  }

  lemma ConsecutiveSuffix(xs: seq<nat>, ys: seq<nat>, n: nat)
    requires Consecutive(ys, n) && IsSuffix(xs, ys)
    ensures Consecutive(xs, n)
  {
  }

  /** Starting a step forward moves the cursor to the snapshot that follows the log. */
  lemma NextFollows(log: seq<nat>, cursor: nat, n: nat)
    requires n > 0 && cursor <= n && Consecutive(log, n) && EndsAt(log, cursor, n)
    ensures Next(cursor, n) < n && log != [] ==> Next(cursor, n) == Follow(log[|log| - 1], n)
    ensures Next(cursor, n) == n ==> EndsAt(log, n, n)
  {
  }

  /** A failed push puts the cursor back where it was. */
  lemma FailedPushUndoes(cursor: nat, n: nat)
    requires n > 0 && cursor <= n && Next(cursor, n) < n
    ensures Previous(Next(cursor, n), n) == cursor
  {
  }

  // ---- every step keeps the invariant ----

  lemma ForwardKeeps(s: State, n: nat)
    requires Inv(s, n) && s.phase.Idle?
    ensures Inv(Take(s, Forward, n), n)
  {
    NextFollows(s.log, s.cursor, n);
  }

  lemma SuffixAppend(xs: seq<nat>, ys: seq<nat>, i: nat)
    requires IsSuffix(xs, ys)
    ensures IsSuffix(xs + [i], ys + [i])
  {
  }

  lemma PushKeeps(s: State, n: nat)
    requires Inv(s, n) && s.phase.Pushing?
    ensures Inv(Take(s, Push, n), n)
  {
    if s.window.PushHead(s.phase.i).1 {
      ConsecutiveAppend(s.log, s.phase.i, n);
      SuffixAppend(s.window.items, s.log, s.phase.i);
    } else {
      assert s.log != [] ==> EndsAt(s.log, Previous(s.cursor, n), n);
    }
  }

  lemma RefillKeeps(s: State, n: nat)
    requires Inv(s, n) && s.phase.Refilling?
    ensures Inv(Take(s, Refill, n), n)
  {
    var t := Take(s, Refill, n);
    assert s.window.items == [];
    assert t.log == t.window.items && (t.log == [] || t.log == [s.phase.i]);
  }

  lemma ClearKeeps(s: State, n: nat)
    requires Inv(s, n) && s.phase.Clearing?
    ensures Inv(Take(s, Clear, n), n)
  {
  }

  lemma ShorterSuffix(xs: seq<nat>, ys: seq<nat>)
    requires IsSuffix(xs, ys) && xs != []
    ensures IsSuffix(xs[1..], ys)
  {
    assert ys[|ys| - |xs|..][1..] == ys[|ys| - |xs| + 1..];
  }

  /** A window that has lost at most its first item is still the end of the log. */
  lemma ShorterWindowKeeps(s: State, w: Window<nat>, n: nat)
    requires Inv(s, n) && w.Valid()
    requires w.items == s.window.items || (s.window.items != [] && w.items == s.window.items[1..])
    ensures Inv(s.(window := w), n)
  {
    if w.items != s.window.items {
      ShorterSuffix(s.window.items, s.log);
    }
  }

  /** The reader takes items from the window; what is dropped at its tail stays in the log. */
  lemma ReaderKeeps(s: State, step: Step, n: nat)
    requires Inv(s, n) && (step.ReadForward? || step.ReadBackward? || step.Shutdown?)
    ensures Inv(Take(s, step, n), n)
  {
    OperationsKeepValid(s.window, 0);
    ShorterWindowKeeps(s, Take(s, step, n).window, n);
  }

  lemma EndsAtSuffix(xs: seq<nat>, ys: seq<nat>, cursor: nat, n: nat)
    requires IsSuffix(xs, ys) && xs != []
    ensures EndsAt(xs, cursor, n) <==> EndsAt(ys, cursor, n)
    ensures xs[|xs| - 1] == ys[|ys| - 1]
  {
  }

  // ---- backward steps ----

  lemma BackwardStarts(s: State, n: nat)
    requires Inv(s, n) && s.phase.Idle?
    ensures Inv(Take(s, Backward, n), n)
  {
    ConsecutiveSuffix(s.window.items, s.log, n);
  }

  /** An item before a sequence. */
  lemma ConsecutivePrepend(i: nat, xs: seq<nat>, n: nat)
    requires Consecutive(xs, n) && i < n
    ensures Consecutive([i] + xs, n) <==> xs == [] || xs[0] == Follow(i, n)
  {
    var ys := [i] + xs;
    if xs == [] || xs[0] == Follow(i, n) {
      forall k | 0 <= k < |ys| - 1 ensures ys[k + 1] == Follow(ys[k], n) {
        if k > 0 {
          assert xs[k - 1 + 1] == Follow(xs[k - 1], n);
        }
      }
    } else {
      assert ys[0 + 1] != Follow(ys[0], n);
    }
  }

  /** All but the last item of a sequence. */
  lemma LastDropped(xs: seq<nat>, cursor: nat, n: nat)
    requires n > 0 && xs != [] && Consecutive(xs, n) && EndsAt(xs, cursor, n)
    ensures Consecutive(xs[..|xs| - 1], n)
    ensures |xs| > 1 ==> EndsBefore(xs[..|xs| - 1], cursor, n)
  {
    if |xs| > 1 {
      assert xs[|xs| - 2 + 1] == Follow(xs[|xs| - 2], n);
    }
  }

  /** A push to the tail of a window that is not full. */
  lemma TailKeepsEnd(i: nat, xs: seq<nat>, cursor: nat, n: nat)
    requires xs != [] && i < n
    ensures EndsAt([i] + xs, cursor, n) <==> EndsAt(xs, cursor, n)
  {
    assert ([i] + xs)[|xs|] == xs[|xs| - 1];
  }

  lemma TailKeepsBefore(i: nat, xs: seq<nat>, cursor: nat, n: nat)
    requires xs != [] && i < n
    ensures EndsBefore([i] + xs, cursor, n) <==> EndsBefore(xs, cursor, n)
  {
    assert ([i] + xs)[|xs|] == xs[|xs| - 1];
  }

  /** A cursor has at most two ends, and they are one. */
  lemma EndIsUnique(x: nat, y: nat, cursor: nat, n: nat)
    requires x < n && y < n && EndsAt([x], cursor, n)
    ensures EndsAt([y], cursor, n) <==> x == y
  {
  }

  /** The items that stay when `i` is pushed to the tail, and whether the result is in order. */
  lemma PushedInOrder(w: Window<nat>, i: nat, cursor: nat, n: nat, kept: seq<nat>)
    requires w.Valid() && i + 1 < n && w.items != [] && Consecutive(w.items, n) && EndsAt(w.items, cursor, n)
    requires kept == if w.Full() then w.items[..|w.items| - 1] else w.items
    ensures Consecutive([i] + kept, n) && (if w.Full() then EndsBefore([i] + kept, cursor, n) else EndsAt([i] + kept, cursor, n))
      <==> w.items[0] == i + 1
  {
    LastDropped(w.items, cursor, n);
    ConsecutivePrepend(i, kept, n);
    if kept == [] {
      assert [i] + kept == [i];
      EndIsUnique(w.items[0], Follow(i, n), cursor, n);
    } else if w.Full() {
      TailKeepsBefore(i, kept, cursor, n);
    } else {
      TailKeepsEnd(i, kept, cursor, n);
    }
  }

  /** The state after a push to the tail: the log starts afresh. */
  lemma FreshLog(w: Window<nat>, cursor: nat, moved: bool, n: nat)
    requires w.Valid() && w.items != [] && n > 1 && cursor <= n
    ensures Inv(Started(w, cursor, Checking(true, moved)), n) <==>
      Consecutive(w.items, n) && if moved then EndsBefore(w.items, cursor, n) else EndsAt(w.items, cursor, n)
  {
    assert IsSuffix(w.items, w.items);
  }

  /** A push to the tail of a window with items. */
  lemma PushTailToItems(s: State, n: nat)
    requires Inv(s, n) && s.phase.Tailing? && s.window.items != [] && !(s.window.Full() && s.window.CaughtUp())
    ensures Inv(Take(s, PushTail, n), n) <==> Keeps(s, PushTail, n)
  {
    var w, i := s.window, s.phase.i;
    var kept := if w.Full() then w.items[..|w.items| - 1] else w.items;
    ConsecutiveSuffix(w.items, s.log, n);
    EndsAtSuffix(w.items, s.log, s.cursor, n);
    PushedInOrder(w, i, s.cursor, n, kept);
    OperationsKeepValid(w, i);
    FreshLog(w.PushTail(i).0, s.cursor, w.Full(), n);
  }

  lemma OneEndsBefore(i: nat, cursor: nat, n: nat)
    requires i + 1 < n && cursor <= n
    ensures Consecutive([i], n)
    ensures EndsBefore([i], cursor, n) <==> cursor == i + 1 || cursor == n == i + 2
  {
  }

  lemma TailOfNothing(w: Window<nat>, i: nat, u: Window<nat>)
    requires w.Valid() && w.items == [] && !w.Full() && u == w.PushTail(i).0
    ensures w.PushTail(i).1 && u.Valid() && u.items == [i]
  {
    assert [i] + w.items == [i];
  }

  lemma PushTailToNothing(s: State, n: nat, u: Window<nat>)
    requires Inv(s, n) && s.phase.Tailing? && s.window.items == [] && !s.window.Full()
    requires u == s.window.PushTail(s.phase.i).0
    ensures Inv(Started(u, s.cursor, Checking(true, true)), n) <==> s.cursor == s.phase.i + 1 || s.cursor == n == s.phase.i + 2
  {
    TailOfNothing(s.window, s.phase.i, u);
    OneEndsBefore(s.phase.i, s.cursor, n);
    FreshLog(u, s.cursor, true, n);
  }

  /** A push to the tail keeps the invariant exactly under that condition. */
  lemma PushTailKeepsExactly(s: State, n: nat)
    requires Inv(s, n) && s.phase.Tailing?
    ensures Inv(Take(s, PushTail, n), n) <==> Keeps(s, PushTail, n)
  {
    if !(s.window.Full() && s.window.CaughtUp()) {
      if s.window.items == [] {
        var u := s.window.PushTail(s.phase.i).0;
        TailOfNothing(s.window, s.phase.i, u);
        PushTailToNothing(s, n, u);
      } else {
        PushTailToItems(s, n);
      }
    }
  }

  /** So does the test whether the window is full. */
  lemma CheckFullKeepsExactly(s: State, n: nat)
    requires Inv(s, n) && s.phase.Checking?
    ensures Inv(Take(s, CheckFull, n), n) <==> Keeps(s, CheckFull, n)
  {
    assert s.log[|s.log| - 1] < n;
  }

  /** A whole backward step of a worker that the reader does not disturb. */
  function BackwardStep(s: State, n: nat): State
    requires s.window.Valid() && s.cursor <= n && n > 0 && s.phase.Idle?
  {
    var t := Take(s, Backward, n);
    if t.phase.Tailing? then Take(Take(t, PushTail, n), CheckFull, n) else t
  }

  /** When it keeps the cursor at the end of the window: it pushes nothing, or room is left afterwards, or the cursor
      stands at the end position just in case the window had room before. */
  predicate BackwardKeeps(w: Window<nat>, cursor: nat, n: nat) {
    || w.items == [] || w.items[0] == 0 || (w.Full() && w.CaughtUp())
    || |w.items| + 1 < w.capacity
    || (w.Full() <==> cursor != n)
  }

  /** The tail is still the one that was looked at. */
  lemma UndisturbedPush(t: State, u: State, n: nat)
    requires Inv(t, n) && t.phase.Tailing? && t.window.items != [] && t.window.items[0] == t.phase.i + 1
    requires u == Take(t, PushTail, n)
    ensures Inv(u, n) && u.cursor == t.cursor && u.phase.Checking?
    ensures Keeps(u, CheckFull, n) <==> BackwardKeeps(t.window, t.cursor, n)
  {
    PushTailKeepsExactly(t, n);
    OperationsKeepValid(t.window, t.phase.i);
  }

  /** An undisturbed backward step keeps the invariant exactly under that condition. */
  lemma BackwardKeepsExactly(s: State, n: nat)
    requires Inv(s, n) && s.phase.Idle?
    ensures Inv(BackwardStep(s, n), n) <==> BackwardKeeps(s.window, s.cursor, n)
  {
    BackwardStarts(s, n);
    var t := Take(s, Backward, n);
    if t.phase.Tailing? {
      var u := Take(t, PushTail, n);
      UndisturbedPush(t, u, n);
      CheckFullKeepsExactly(u, n);
    }
  }

  // ---- whole runs ----

  /** The worker has just been started: an empty window, the cursor at the end position. */
  predicate Initial(s: State, n: nat) {
    && s.window.Valid() && s.window.items == [] && s.cursor == n > 0
    && s.phase == Idle && s.log == []
  }

  /** Worker and reader interleaved in any way. */
  ghost predicate MayStepTo(s: State, step: Step, t: State, n: nat) {
    && s.window.Valid() && s.cursor <= n && n > 0
    && Enabled(s, step, n)
    && t == Take(s, step, n)
  }

  /** The same, with no step taken that breaks the invariant. */
  ghost predicate StepsTo(s: State, step: Step, t: State, n: nat) {
    MayStepTo(s, step, t, n) && Keeps(s, step, n)
  }

  ghost predicate IsRun(run: seq<State>, steps: seq<Step>, n: nat) {
    && |run| == |steps| + 1
    && Initial(run[0], n)
    && forall k {:trigger steps[k]} :: 0 <= k < |steps| ==> StepsTo(run[k], steps[k], run[k + 1], n)
  }

  /** Every step, of worker or reader, keeps the invariant exactly under its condition. */
  lemma StepKeepsExactly(s: State, step: Step, t: State, n: nat)
    requires Inv(s, n) && MayStepTo(s, step, t, n)
    ensures Inv(t, n) <==> Keeps(s, step, n)
  {
    match step {
      case Forward => ForwardKeeps(s, n);
      case Push => PushKeeps(s, n);
      case Jump(i) =>
      case Clear => ClearKeeps(s, n);
      case Refill => RefillKeeps(s, n);
      case Backward => BackwardStarts(s, n);
      case PushTail => PushTailKeepsExactly(s, n);
      case CheckFull => CheckFullKeepsExactly(s, n);
      case _ => ReaderKeeps(s, step, n);
    }
  }

  lemma StepKeeps(s: State, step: Step, t: State, n: nat)
    requires Inv(s, n) && StepsTo(s, step, t, n)
    ensures Inv(t, n)
  {
    StepKeepsExactly(s, step, t, n);
  }

  /** In every run, at every moment: the window is a consecutive cyclic run of snapshots, nothing skipped and
      nothing repeated, and between steps it ends where the cursor stands. */
  lemma {:induction false} RunKeepsInv(run: seq<State>, steps: seq<Step>, n: nat, k: nat)
    requires IsRun(run, steps, n) && k < |run|
    ensures Inv(run[k], n)
    ensures Consecutive(run[k].window.items, n)
  {
    if k > 0 {
      RunKeepsInv(run, steps, n, k - 1);
      assert StepsTo(run[k - 1], steps[k - 1], run[k], n);
      StepKeeps(run[k - 1], steps[k - 1], run[k], n);
    }
    ConsecutiveSuffix(run[k].window.items, run[k].log, n);
  }

  // ---- what the reader does within a backward step ----

  predicate Reads(step: Step) { step.ReadForward? || step.ReadBackward? || step.Shutdown? }

  /** Nothing but steps of the reader. */
  ghost predicate ReadsOnly(run: seq<State>, steps: seq<Step>, n: nat, k: nat, m: nat) {
    && k <= m < |run| == |steps| + 1
    && forall l {:trigger steps[l]} :: k <= l < m ==> Reads(steps[l]) && MayStepTo(run[l], steps[l], run[l + 1], n)
  }

  /** How many items have left the tail. */
  function Dropped(s: State, t: State): int { |s.window.items| - |t.window.items| }

  /** Nothing but the window has changed, and items have left its tail. */
  ghost predicate DropsTo(s: State, t: State) {
    && t == s.(window := t.window)
    && 0 <= Dropped(s, t) <= |s.window.items|
    && t.window.items == s.window.items[Dropped(s, t)..]
  }

  lemma ReadDrops(s: State, step: Step, t: State, n: nat)
    requires Inv(s, n) && Reads(step) && t == Take(s, step, n)
    ensures Inv(t, n) && DropsTo(s, t)
  {
    ReaderKeeps(s, step, n);
  }

  lemma DropTwice(r: State, s: State, t: State)
    requires DropsTo(r, s) && DropsTo(s, t)
    ensures DropsTo(r, t)
  {
    var xs := r.window.items;
    assert xs[Dropped(r, s)..][Dropped(s, t)..] == xs[Dropped(r, s) + Dropped(s, t)..];
  }

  lemma {:induction false} ReadsDrop(run: seq<State>, steps: seq<Step>, n: nat, k: nat, m: nat)
    requires ReadsOnly(run, steps, n, k, m) && Inv(run[k], n)
    ensures Inv(run[m], n) && DropsTo(run[k], run[m])
  {
    if k < m {
      ReadsDrop(run, steps, n, k, m - 1);
      assert MayStepTo(run[m - 1], steps[m - 1], run[m], n);
      ReadDrops(run[m - 1], steps[m - 1], run[m], n);
      DropTwice(run[k], run[m - 1], run[m]);
    }
  }

  lemma BackWhereItWas(i: nat, d: nat, n: nat)
    requires i < n
    ensures (i + d) % n == i <==> d % n == 0
  {
    var q, r := d / n, d % n;
    assert d == q * n + r;
    if i + r < n {
      RemainderOf(i + d, q, i + r, n);
    } else {
      assert (q + 1) * n == q * n + n;
      RemainderOf(i + d, q + 1, i + r - n, n);
    }
  }

  /** The item `d` places after the first one is the same snapshot after whole turns only. */
  lemma SameAfterTurns(xs: seq<nat>, n: nat, d: nat)
    requires n > 0 && Consecutive(xs, n) && d < |xs|
    ensures xs[d] == xs[0] <==> d % n == 0
  {
    CyclicFrom(xs, n, xs[0], d);
    TurnIsRemainder(xs[0] + d, n);
    BackWhereItWas(xs[0], d, n);
  }

  /** What `d` items less mean for the push of the snapshot before the first one. */
  lemma GuardAfterDrop(xs: seq<nat>, cursor: nat, n: nat, d: nat)
    requires n > 0 && xs != [] && Consecutive(xs, n) && EndsAt(xs, cursor, n) && cursor <= n && d <= |xs|
    ensures d < |xs| ==> (xs[d] == xs[0] <==> d % n == 0)
    ensures d == |xs| ==> (cursor == xs[0] || (cursor == n == xs[0] + 1) <==> (d - 1) % n == 0)
  {
    if d < |xs| {
      SameAfterTurns(xs, n, d);
    } else {
      SameAfterTurns(xs, n, d - 1);
      EndIsUnique(xs[d - 1], xs[0], cursor, n);
    }
  }

  lemma LooksAtTail(s: State, t: State, n: nat)
    requires Inv(s, n) && s.phase.Idle? && t == Take(s, Backward, n) && t.phase.Tailing?
    ensures Inv(t, n) && t.window == s.window && t.window.items != [] && t.window.items[0] == t.phase.i + 1
    ensures Consecutive(t.window.items, n) && EndsAt(t.window.items, t.cursor, n)
  {
    BackwardStarts(s, n);
    ConsecutiveSuffix(s.window.items, s.log, n);
    EndsAtSuffix(s.window.items, s.log, s.cursor, n);
  }

  /** After `d` items have left the tail: a push of the snapshot before them would push nothing, or the items have made
      whole turns, or the window has been emptied, the first of the items being the last, too. */
  predicate StillFollows(w: Window<nat>, d: int, n: nat)
    requires n > 0
  {
    (w.Full() && w.CaughtUp()) || (if w.items != [] then d % n == 0 else (d - 1) % n == 0)
  }

  lemma PushTailAfterDrop(s: State, t: State, n: nat)
    requires Inv(s, n) && s.phase.Tailing? && s.window.items != [] && s.window.items[0] == s.phase.i + 1
    requires Consecutive(s.window.items, n) && EndsAt(s.window.items, s.cursor, n)
    requires Inv(t, n) && DropsTo(s, t)
    ensures Inv(Take(t, PushTail, n), n) <==> StillFollows(t.window, Dropped(s, t), n)
  {
    PushTailKeepsExactly(t, n);
    GuardAfterDrop(s.window.items, s.cursor, n, Dropped(s, t));
    assert t.window.items != [] ==> t.window.items[0] == s.window.items[Dropped(s, t)];
  }

  /** The reader moves between the look at the tail and the push to it. The push keeps the invariant exactly when it pushes
      nothing, or no item has left the tail since (or as many as make whole turns), or the window has been emptied, the
      snapshot that was at the tail being its last. */
  lemma PushTailAfterReads(run: seq<State>, steps: seq<Step>, n: nat, k: nat, m: nat)
    requires 0 < k && ReadsOnly(run, steps, n, k, m) && Inv(run[k - 1], n)
    requires steps[k - 1] == Backward && MayStepTo(run[k - 1], Backward, run[k], n) && run[k].phase.Tailing?
    ensures Inv(run[m], n) && run[m].phase.Tailing? && 0 <= Dropped(run[k], run[m])
    ensures Inv(Take(run[m], PushTail, n), n) <==> StillFollows(run[m].window, Dropped(run[k], run[m]), n)
  {
    LooksAtTail(run[k - 1], run[k], n);
    ReadsDrop(run, steps, n, k, m);
    PushTailAfterDrop(run[k], run[m], n);
  }

  // ---- runs that go wrong ----

  /** A run in which nothing but step `b` breaks the invariant. */
  ghost predicate GoesWrongAt(run: seq<State>, steps: seq<Step>, n: nat, b: nat) {
    && |run| == |steps| + 1 && b < |steps|
    && Initial(run[0], n)
    && (forall k :: 0 <= k < |steps| ==> MayStepTo(run[k], steps[k], run[k + 1], n))
    && (forall k :: 0 <= k < |steps| ==> (StepsTo(run[k], steps[k], run[k + 1], n) <==> k != b))
  }

  /** Where the worker is in its loop: after a jump it must go forward; requests for backward steps are waiting. */
  datatype Loop = Loop(mustForward: bool, requests: nat)

  /** In every pass the worker takes the backward steps that are asked for, then a jump if one is asked for,
      and then a step forward. */
  predicate LoopAllows(l: Loop, step: Step) {
    match step
    case Backward => !l.mustForward && l.requests > 0
    case Jump(_) => !l.mustForward && l.requests == 0
    case Forward => l.mustForward || l.requests == 0
    case _ => true
  }

  /** The player asks for a backward step when it has read backward, whether or not there was anything to read. */
  function LoopAfter(l: Loop, step: Step): Loop
    requires LoopAllows(l, step)
  {
    match step
    case ReadBackward => l.(requests := l.requests + 1)
    case Backward => l.(requests := l.requests - 1)
    case Refill => l.(mustForward := true)
    case Forward => l.(mustForward := false)
    case _ => l
  }

  predicate LoopGoes(l: Loop, step: Step, m: Loop) { LoopAllows(l, step) && m == LoopAfter(l, step) }

  /** `loops` is where the worker stands before every step, and after the last. */
  ghost predicate ObeysLoop(steps: seq<Step>, loops: seq<Loop>) {
    && |loops| == |steps| + 1 && loops[0] == Loop(false, 0)
    && forall k :: 0 <= k < |steps| ==> LoopGoes(loops[k], steps[k], loops[k + 1])
  }

  const TOP := Loop(false, 0)
  const ASKED := Loop(false, 1)
  const ASKED_TWICE := Loop(false, 2)
  const JUMPED := Loop(true, 0)

  // Runs over three snapshots, with a window of two that retains one item behind the reader.

  function Two(items: seq<nat>, behind: nat): Window<nat> { Window(items, behind, 2, 1, false) }

  /** A jump to snapshot 1 and a step forward. */
  const OPENING: seq<Step> := [Jump(1), Clear, Refill, Forward, Push]

  function Opening(): seq<State> {
    [State(Two([], 0), 3, Idle, []), State(Two([], 0), 1, Clearing(1), []), State(Two([], 0), 1, Refilling(1), []),
     State(Two([1], 0), 1, Idle, [1]), State(Two([1], 0), 2, Pushing(2), [1])]
  }

  lemma OpeningSteps()
    ensures forall k :: 0 <= k < 4 ==> StepsTo(Opening()[k], OPENING[k], Opening()[k + 1], 3)
    ensures StepsTo(Opening()[4], Push, State(Two([1, 2], 0), 2, Idle, [1, 2]), 3)
  {
    assert [] + [1] == [1] && [1] + [2] == [1, 2];
  }

  /** Two reads forward and one back, and the backward step that the last one asks for: it fills the last free slot,
      and the cursor falls back to 1. */
  const REPEATING: seq<Step> :=
    [ReadForward, ReadForward, ReadBackward, Backward, PushTail, CheckFull, ReadForward, Forward, Push]

  function Repeating(): seq<State> {
    [State(Two([1, 2], 0), 2, Idle, [1, 2]), State(Two([1, 2], 1), 2, Idle, [1, 2]), State(Two([2], 1), 2, Idle, [1, 2]),
     State(Two([2], 0), 2, Idle, [1, 2]), State(Two([2], 0), 2, Tailing(1), [1, 2]),
     State(Two([1, 2], 1), 2, Checking(true, false), [1, 2]), State(Two([1, 2], 1), 1, Idle, [1, 2]),
     State(Two([2], 1), 1, Idle, [1, 2]), State(Two([2], 1), 2, Pushing(2), [1, 2]),
     State(Two([2, 2], 1), 2, Idle, [1, 2, 2])]
  }

  lemma RepeatingReads()
    ensures forall k :: 0 <= k < 3 ==> StepsTo(Repeating()[k], REPEATING[k], Repeating()[k + 1], 3)
  {
    assert [1, 2][1..] == [2];
  }

  lemma RepeatingGoesBack()
    ensures StepsTo(Repeating()[3], Backward, Repeating()[4], 3) && StepsTo(Repeating()[4], PushTail, Repeating()[5], 3)
    ensures MayStepTo(Repeating()[5], CheckFull, Repeating()[6], 3) && !Keeps(Repeating()[5], CheckFull, 3)
  {
    assert [1] + [2] == [1, 2];
    assert Two([2], 0).PushTail(1) == (Two([1, 2], 1), true);
  }

  lemma RepeatingGoesForward()
    ensures forall k :: 6 <= k < 9 ==> StepsTo(Repeating()[k], REPEATING[k], Repeating()[k + 1], 3)
  {
    assert [1, 2][1..] == [2] && [2] + [2] == [2, 2] && [1, 2] + [2] == [1, 2, 2];
  }

  lemma RepeatingGoesWrong()
    ensures GoesWrongAt(Opening() + Repeating(), OPENING + REPEATING, 3, 10)
  {
    OpeningSteps();
    RepeatingReads();
    RepeatingGoesBack();
    RepeatingGoesForward();
  }

  lemma RepeatingObeysLoop()
    ensures ObeysLoop(OPENING + REPEATING, [TOP, TOP, TOP, JUMPED, TOP, TOP, TOP, TOP, ASKED, TOP, TOP, TOP, TOP, TOP, TOP])
  {
  }

  /** A backward step that fills the last free slot makes the window repeat a snapshot. */
  lemma FillingTheLastSlotRepeats()
    ensures GoesWrongAt(Opening() + Repeating(), OPENING + REPEATING, 3, 10)
    ensures ObeysLoop(OPENING + REPEATING, [TOP, TOP, TOP, JUMPED, TOP, TOP, TOP, TOP, ASKED, TOP, TOP, TOP, TOP, TOP, TOP])
    ensures Repeating()[9].window.items == [2, 2] && !Consecutive([2, 2], 3)
  {
    RepeatingGoesWrong();
    RepeatingObeysLoop();
    assert [2, 2][1] != Follow([2, 2][0], 3);
  }

  /** After a jump to the last snapshot and on across the end, two reads back that find nothing, and the two backward
      steps that they ask for: the first leaves the cursor at the end position, the second on snapshot 2, although the
      window then ends with snapshot 1. */
  const SKIPPING: seq<Step> :=
    [Jump(2), Clear, Refill, Forward, Forward, Push, ReadBackward, ReadBackward, Backward, PushTail, CheckFull,
     Backward, PushTail, CheckFull, ReadForward, Forward, Forward, Push]

  function Skipping(): seq<State> {
    [State(Two([], 0), 3, Idle, []), State(Two([], 0), 2, Clearing(2), []), State(Two([], 0), 2, Refilling(2), []),
     State(Two([2], 0), 2, Idle, [2]), State(Two([2], 0), 3, Idle, [2]), State(Two([2], 0), 0, Pushing(0), [2]),
     State(Two([2, 0], 0), 0, Idle, [2, 0]), State(Two([2, 0], 0), 0, Idle, [2, 0]),
     State(Two([2, 0], 0), 0, Idle, [2, 0]), State(Two([2, 0], 0), 0, Tailing(1), [2, 0]),
     State(Two([1, 2], 1), 0, Checking(true, true), [1, 2]), State(Two([1, 2], 1), 3, Idle, [1, 2]),
     State(Two([1, 2], 1), 3, Tailing(0), [1, 2]), State(Two([0, 1], 1), 3, Checking(true, true), [0, 1]),
     State(Two([0, 1], 1), 2, Idle, [0, 1]), State(Two([1], 1), 2, Idle, [0, 1]),
     State(Two([1], 1), 3, Idle, [0, 1]), State(Two([1], 1), 0, Pushing(0), [0, 1]),
     State(Two([1, 0], 1), 0, Idle, [0, 1, 0])]
  }

  lemma SkippingJumps()
    ensures forall k :: 0 <= k < 3 ==> StepsTo(Skipping()[k], SKIPPING[k], Skipping()[k + 1], 3)
  {
    assert [] + [2] == [2];
  }

  lemma SkippingGoesForward()
    ensures forall k :: 3 <= k < 8 ==> StepsTo(Skipping()[k], SKIPPING[k], Skipping()[k + 1], 3)
  {
    assert [2] + [0] == [2, 0];
  }

  lemma SkippingGoesBack()
    ensures forall k :: 8 <= k < 11 ==> StepsTo(Skipping()[k], SKIPPING[k], Skipping()[k + 1], 3)
  {
    assert [2, 0][..1] == [2] && [1] + [2] == [1, 2];
    assert Two([2, 0], 0).PushTail(1) == (Two([1, 2], 1), true);
  }

  lemma SkippingGoesBackAgain()
    ensures StepsTo(Skipping()[11], Backward, Skipping()[12], 3) && StepsTo(Skipping()[12], PushTail, Skipping()[13], 3)
    ensures MayStepTo(Skipping()[13], CheckFull, Skipping()[14], 3) && !Keeps(Skipping()[13], CheckFull, 3)
  {
    assert [1, 2][..1] == [1] && [0] + [1] == [0, 1];
    assert Two([1, 2], 1).PushTail(0) == (Two([0, 1], 1), true);
  }

  lemma SkippingGoesOn()
    ensures forall k :: 14 <= k < 18 ==> StepsTo(Skipping()[k], SKIPPING[k], Skipping()[k + 1], 3)
  {
    assert [0, 1][1..] == [1] && [1] + [0] == [1, 0] && [0, 1] + [0] == [0, 1, 0];
  }

  lemma SkippingGoesWrong()
    ensures GoesWrongAt(Skipping(), SKIPPING, 3, 13)
  {
    SkippingJumps();
    SkippingGoesForward();
    SkippingGoesBack();
    SkippingGoesBackAgain();
    SkippingGoesOn();
  }

  const SKIPPING_LOOPS: seq<Loop> :=
    [TOP, TOP, TOP, JUMPED, TOP, TOP, TOP, ASKED, ASKED_TWICE, ASKED, ASKED, ASKED, TOP, TOP, TOP, TOP, TOP, TOP, TOP]

  lemma SkippingLoopBegins()
    ensures forall k :: 0 <= k < 8 ==> LoopGoes(SKIPPING_LOOPS[k], SKIPPING[k], SKIPPING_LOOPS[k + 1])
  {
  }

  lemma SkippingLoopEnds()
    ensures forall k :: 8 <= k < 18 ==> LoopGoes(SKIPPING_LOOPS[k], SKIPPING[k], SKIPPING_LOOPS[k + 1])
  {
  }

  lemma SkippingObeysLoop()
    ensures ObeysLoop(SKIPPING, SKIPPING_LOOPS)
  {
    SkippingLoopBegins();
    SkippingLoopEnds();
  }

  /** A backward step with the cursor left at the end position makes the window skip a snapshot. */
  lemma SteppingBackOverTheWrapSkips()
    ensures GoesWrongAt(Skipping(), SKIPPING, 3, 13)
    ensures ObeysLoop(SKIPPING, SKIPPING_LOOPS)
    ensures Skipping()[18].window.items == [1, 0] && !Consecutive([1, 0], 3)
  {
    SkippingGoesWrong();
    SkippingObeysLoop();
    assert [1, 0][1] != Follow([1, 0][0], 3);
  }

  /** After the opening, one read forward, one back, and forward again; the backward step that the read back asks for has
      looked at the tail when the reader drops it. */
  const RACING: seq<Step> := [ReadForward, ReadBackward, ReadForward, Backward, ReadForward, PushTail]

  function Racing(): seq<State> {
    [State(Two([1, 2], 0), 2, Idle, [1, 2]), State(Two([1, 2], 1), 2, Idle, [1, 2]), State(Two([1, 2], 0), 2, Idle, [1, 2]),
     State(Two([1, 2], 1), 2, Idle, [1, 2]), State(Two([1, 2], 1), 2, Tailing(0), [1, 2]),
     State(Two([2], 1), 2, Tailing(0), [1, 2]), State(Two([0, 2], 1), 2, Checking(true, false), [0, 2])]
  }

  lemma RacingSteps()
    ensures forall k :: 0 <= k < 5 ==> StepsTo(Racing()[k], RACING[k], Racing()[k + 1], 3)
    ensures MayStepTo(Racing()[5], PushTail, Racing()[6], 3) && !Keeps(Racing()[5], PushTail, 3)
  {
    assert [1, 2][1..] == [2] && [0] + [2] == [0, 2];
    assert Two([2], 1).PushTail(0) == (Two([0, 2], 1), true);
  }

  lemma RacingGoesWrong()
    ensures GoesWrongAt(Opening() + Racing(), OPENING + RACING, 3, 10)
  {
    OpeningSteps();
    RacingSteps();
  }

  lemma RacingObeysLoop()
    ensures ObeysLoop(OPENING + RACING, [TOP, TOP, TOP, JUMPED, TOP, TOP, TOP, ASKED, ASKED, TOP, TOP, TOP])
  {
  }

  /** A read forward within a backward step makes the window skip a snapshot. */
  lemma ReadingWithinBackwardSkips()
    ensures GoesWrongAt(Opening() + Racing(), OPENING + RACING, 3, 10)
    ensures ObeysLoop(OPENING + RACING, [TOP, TOP, TOP, JUMPED, TOP, TOP, TOP, ASKED, ASKED, TOP, TOP, TOP])
    ensures Racing()[6].window.items == [0, 2] && !Consecutive([0, 2], 3)
  {
    RacingGoesWrong();
    RacingObeysLoop();
    assert [0, 2][1] != Follow([0, 2][0], 3);
  }

  // ---- what the reader is shown ----

  /** The reader's place in the log. */
  function ReadPosition(s: State): int { |s.log| - |s.window.items| + s.window.cursor }

  /** A step of undisturbed playback. */
  predicate Plays(step: Step) {
    step.Forward? || step.Push? || step.Refill? || step.ReadForward? || step.Shutdown?
  }

  /** What a step shows: the item that a forward read returns. */
  function Shown(s: State, step: Step): seq<nat>
    requires s.window.Valid()
  {
    if step != ReadForward then []
    else match s.window.ReadForward().1 case None => [] case Some(i) => [i]
  }

  /** Everything shown from step `j` up to step `k`. */
  ghost function ShownBetween(run: seq<State>, steps: seq<Step>, n: nat, j: nat, k: nat): seq<nat>
    requires IsRun(run, steps, n) && j <= k <= |steps|
  {
    if j == k then []
    else
      assert StepsTo(run[k - 1], steps[k - 1], run[k], n);
      ShownBetween(run, steps, n, j, k - 1) + Shown(run[k - 1], steps[k - 1])
  }

  lemma PlayingRead(s: State, n: nat)
    requires Inv(s, n)
    ensures var t := Take(s, ReadForward, n);
      && ReadPosition(t) == ReadPosition(s) + |Shown(s, ReadForward)|
      && (Shown(s, ReadForward) != [] ==>
        ReadPosition(s) < |s.log| && Shown(s, ReadForward) == [s.log[ReadPosition(s)]])
  {
  }

  lemma PlayingPush(s: State, t: State, n: nat)
    requires Inv(s, n) && Enabled(s, Push, n) && t == Take(s, Push, n)
    ensures ReadPosition(t) == ReadPosition(s) && |s.log| <= |t.log| && s.log == t.log[..|s.log|]
  {
    assert t.log == s.log || t.log == s.log + [s.phase.i];
  }

  lemma PlayingRefill(s: State, t: State, n: nat)
    requires Inv(s, n) && Enabled(s, Refill, n) && t == Take(s, Refill, n)
    ensures ReadPosition(t) == ReadPosition(s) && s.log == []
  {
  }

  lemma PlayingWrite(s: State, step: Step, t: State, n: nat)
    requires Inv(s, n) && Enabled(s, step, n) && Plays(step) && step != ReadForward && t == Take(s, step, n)
    ensures ReadPosition(t) == ReadPosition(s) && |s.log| <= |t.log| && s.log == t.log[..|s.log|]
  {
    match step {
      case Push => PlayingPush(s, t, n);
      case Refill => PlayingRefill(s, t, n);
      case _ =>
    }
  }

  lemma PlayingStep(s: State, step: Step, t: State, n: nat)
    requires Inv(s, n) && StepsTo(s, step, t, n) && Plays(step)
    ensures 0 <= ReadPosition(s) <= |s.log| <= |t.log| && s.log == t.log[..|s.log|]
    ensures ReadPosition(t) == ReadPosition(s) + |Shown(s, step)|
    ensures Shown(s, step) != [] ==> ReadPosition(s) < |s.log| && Shown(s, step) == [s.log[ReadPosition(s)]]
  {
    if step == ReadForward {
      PlayingRead(s, n);
    } else {
      PlayingWrite(s, step, t, n);
    }
  }

  /** Nothing can be pushed to the head any more. */
  predicate Refuses(w: Window<nat>) { w.closed || w.capacity == 0 }

  /** The log starts with snapshot `i`, or will. */
  predicate StartsAt(s: State, n: nat, i: nat) {
    if s.log != [] then s.log[0] == i
    else
      || Refuses(s.window)
      || (i == 0 && ((s.phase.Idle? && s.cursor == n) || s.phase == Pushing(0)))
      || s.phase == Refilling(i)
  }

  lemma PushKeepsStart(s: State, t: State, n: nat, i: nat)
    requires Inv(s, n) && Enabled(s, Push, n) && t == Take(s, Push, n) && StartsAt(s, n, i)
    ensures StartsAt(t, n, i)
  {
    assert Refuses(s.window) ==> Refuses(t.window);
    assert t.log == s.log || t.log == s.log + [s.phase.i];
  }

  lemma RefillKeepsStart(s: State, t: State, n: nat, i: nat)
    requires Inv(s, n) && Enabled(s, Refill, n) && t == Take(s, Refill, n) && StartsAt(s, n, i)
    ensures StartsAt(t, n, i)
  {
    assert Refuses(s.window) ==> Refuses(t.window);
    assert s.window.items == [] && s.log == [];
  }

  lemma ReaderKeepsStart(s: State, step: Step, t: State, n: nat, i: nat)
    requires Inv(s, n) && (step.ReadForward? || step.Shutdown?) && t == Take(s, step, n) && StartsAt(s, n, i)
    ensures StartsAt(t, n, i)
  {
    assert t == s.(window := t.window) && (Refuses(s.window) ==> Refuses(t.window));
  }

  lemma PlayingKeepsStart(s: State, step: Step, t: State, n: nat, i: nat)
    requires Inv(s, n) && StepsTo(s, step, t, n) && Plays(step) && StartsAt(s, n, i)
    ensures StartsAt(t, n, i)
  {
    match step {
      case Push => PushKeepsStart(s, t, n, i);
      case Refill => RefillKeepsStart(s, t, n, i);
      case Forward =>
      case _ => ReaderKeepsStart(s, step, t, n, i);
    }
  }

  /** One step of playback shows the next item of the log, or nothing. */
  lemma PlayingShowsLog(s: State, step: Step, t: State, n: nat, shown: seq<nat>)
    requires Inv(s, n) && StepsTo(s, step, t, n) && Plays(step)
    requires 0 <= ReadPosition(s) <= |s.log| && shown == s.log[..ReadPosition(s)]
    ensures 0 <= ReadPosition(t) <= |t.log| && shown + Shown(s, step) == t.log[..ReadPosition(t)]
  {
    PlayingStep(s, step, t, n);
    assert t.log[..ReadPosition(s)] == shown;
  }

  /** Counting around the snapshots. */
  function Turn(k: nat, n: nat): nat { if k == 0 then 0 else Follow(Turn(k - 1, n), n) }

  lemma {:induction false} TurnIsRemainder(k: nat, n: nat)
    requires n > 0
    ensures Turn(k, n) == k % n
  {
    if k > 0 {
      TurnIsRemainder(k - 1, n);
      TurnOnce(k - 1, n);
    }
  }

  lemma TurnOnce(m: nat, n: nat)
    requires n > 0 && Turn(m, n) == m % n
    ensures Turn(m + 1, n) == (m + 1) % n
  {
    NextRemainder(m, n);
    assert Turn(m + 1, n) == Follow(Turn(m, n), n);
  }

  lemma NextRemainder(k: nat, n: nat)
    requires n > 0
    ensures (k + 1) % n == if k % n + 1 == n then 0 else k % n + 1
  {
    var q, r: nat := k / n, k % n;
    if r + 1 == n {
      RemainderOf(k + 1, q + 1, 0, n);
    } else {
      RemainderOf(k + 1, q, r + 1, n);
    }
  }

  lemma {:induction false} CyclicFrom(xs: seq<nat>, n: nat, i: nat, k: nat)
    requires Consecutive(xs, n) && k < |xs| && xs[0] == i
    ensures xs[k] == Turn(i + k, n)
  {
    if k > 0 {
      CyclicFrom(xs, n, i, k - 1);
      assert xs[k - 1 + 1] == Follow(xs[k - 1], n);
    } else {
      TurnIsRemainder(i, n);
      RemainderOf(i, 0, i, n);
    }
  }

  /** Playback from snapshot `i` has shown `shown` when it stands at `s`. */
  ghost predicate Playing(s: State, n: nat, i: nat, shown: seq<nat>) {
    && Inv(s, n) && StartsAt(s, n, i)
    && 0 <= ReadPosition(s) <= |s.log| && shown == s.log[..ReadPosition(s)]
  }

  lemma PlayingOn(s: State, step: Step, t: State, n: nat, i: nat, shown: seq<nat>)
    requires Playing(s, n, i, shown) && StepsTo(s, step, t, n) && Plays(step)
    ensures Playing(t, n, i, shown + Shown(s, step))
  {
    StepKeeps(s, step, t, n);
    PlayingKeepsStart(s, step, t, n, i);
    PlayingShowsLog(s, step, t, n, shown);
  }

  /** Playback starts afresh at snapshot `i`: with the worker at snapshot 0, or when a jump to `i` has cleared
      the window. */
  ghost predicate StartsAfresh(run: seq<State>, steps: seq<Step>, j: nat, i: nat) {
    && j < |run| == |steps| + 1
    && if j == 0 then i == 0 else steps[j - 1] == Clear && run[j].phase == Refilling(i)
  }

  lemma PlayingAfresh(run: seq<State>, steps: seq<Step>, n: nat, j: nat, i: nat)
    requires IsRun(run, steps, n) && StartsAfresh(run, steps, j, i)
    ensures Playing(run[j], n, i, ShownBetween(run, steps, n, j, j))
  {
    RunKeepsInv(run, steps, n, j);
    if j > 0 {
      assert StepsTo(run[j - 1], steps[j - 1], run[j], n);
    }
  }

  lemma PlaybackGoesOn(run: seq<State>, steps: seq<Step>, n: nat, j: nat, k: nat, i: nat)
    requires IsRun(run, steps, n) && j < k <= |steps| && Plays(steps[k - 1])
    requires Playing(run[k - 1], n, i, ShownBetween(run, steps, n, j, k - 1))
    ensures Playing(run[k], n, i, ShownBetween(run, steps, n, j, k))
  {
    assert StepsTo(run[k - 1], steps[k - 1], run[k], n);
    PlayingOn(run[k - 1], steps[k - 1], run[k], n, i, ShownBetween(run, steps, n, j, k - 1));
  }

  /** In every run of playback, what was shown is the part of the log before the reader. */
  lemma {:induction false} PlaybackShowsLog(run: seq<State>, steps: seq<Step>, n: nat, j: nat, k: nat, i: nat)
    requires IsRun(run, steps, n) && j <= k <= |steps| && StartsAfresh(run, steps, j, i)
    requires forall l :: j <= l < k ==> Plays(steps[l])
    ensures Playing(run[k], n, i, ShownBetween(run, steps, n, j, k))
  {
    if j == k {
      PlayingAfresh(run, steps, n, k, i);
    } else {
      PlaybackShowsLog(run, steps, n, j, k - 1, i);
      PlaybackGoesOn(run, steps, n, j, k, i);
    }
  }

  /** In every run of playback, whatever the interleaving of worker and reader, and however small the window:
      from a start, the reader is shown snapshots 0, 1, 2, ... in order, starting over after the last; from a jump
      to snapshot i, it is shown i, i + 1, i + 2, ... in the same way. */
  lemma PlaybackInOrder(run: seq<State>, steps: seq<Step>, n: nat, j: nat, k: nat, i: nat, m: nat)
    requires IsRun(run, steps, n) && j <= k <= |steps| && StartsAfresh(run, steps, j, i)
    requires forall l :: j <= l < k ==> Plays(steps[l])
    requires m < |ShownBetween(run, steps, n, j, k)|
    ensures ShownBetween(run, steps, n, j, k)[m] == (i + m) % n
  {
    PlaybackShowsLog(run, steps, n, j, k, i);
    CyclicFrom(run[k].log, n, i, m);
    TurnIsRemainder(i + m, n);
  }
}
