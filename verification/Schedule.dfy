/** The event schedule of the individual time-step simulator: one key per particle, its time plus its step. */
module Schedule {
  import Systems

  datatype Clock = Clock(schedule: map<real, nat>, times: seq<real>, steps: seq<real>, now: real) {
    function Count(): nat { |times| }

    function Key(i: nat): real
      requires i < |times| && |steps| == |times|
    {
      times[i] + steps[i]
    }

    /** The particles that still have an entry. */
    ghost function Scheduled(): set<nat> { set k | k in schedule :: schedule[k] }

    ghost predicate Valid() {
      && |steps| == |times|
      && (forall i :: 0 <= i < |times| ==> times[i] <= now && steps[i] > 0.0)
      && (forall k :: k in schedule ==> schedule[k] < |times| && k == Key(schedule[k]) && now < k)
      && (|times| > 0 ==> schedule != map[])
    }
  }

  /** The earliest key. */
  ghost predicate IsFirst(first: real, schedule: map<real, nat>) {
    first in schedule && forall k :: k in schedule ==> first <= k
  }

  /** Inserting an entry has no effect when the key is taken. */
  function Insert(schedule: map<real, nat>, key: real, i: nat): map<real, nat> {
    if key in schedule then schedule else schedule[key := i]
  }

  /** One event: the particle with the earliest key is advanced to it, and scheduled again one step later. */
  function Advance(c: Clock, first: real, step: real): Clock
    requires first in c.schedule && c.schedule[first] < |c.times| && |c.steps| == |c.times|
  {
    var i := c.schedule[first];
    Clock(Insert(c.schedule - {first}, first + step, i), c.times[i := first], c.steps[i := step], first)
  }

  /** The new key of the particle that is advanced is already taken. */
  predicate Collides(c: Clock, first: real, step: real)
    requires first in c.schedule
  {
    first + step in c.schedule - {first}
  }

  lemma {:induction false} FirstExists(keys: set<real>) returns (first: real)
    requires keys != {}
    ensures first in keys && forall k :: k in keys ==> first <= k
    decreases |keys|
  {
    assert (forall k :: k !in keys) ==> keys == {};
    first :| first in keys;
    var rest := keys - {first};
    assert forall k :: k in keys ==> k == first || k in rest;
    if rest != {} {
      var other := FirstExists(rest);
      if other < first {
        first := other;
      }
    }
  }

  // ---- one event ----

  /** A particle has at most one entry: its key is determined by its time and step. */
  lemma ScheduledOnce(c: Clock, k: real, l: real)
    requires c.Valid() && k in c.schedule && l in c.schedule && c.schedule[k] == c.schedule[l]
    ensures k == l
  {
  }

  /** An event keeps the schedule valid and moves the system time strictly forward. */
  lemma EventKeepsValid(c: Clock, first: real, step: real)
    requires c.Valid() && IsFirst(first, c.schedule) && step > 0.0
    ensures Advance(c, first, step).Valid()
    ensures Advance(c, first, step).now > c.now
  {
    var i, d := c.schedule[first], Advance(c, first, step);
    forall k | k in d.schedule
      ensures d.schedule[k] < |d.times| && k == d.Key(d.schedule[k]) && d.now < k
    {
      if k in c.schedule - {first} {
        assert c.schedule[k] != i by {
          if c.schedule[k] == i {
            ScheduledOnce(c, k, first);
          }
        }
      }
    }
    assert d.schedule != map[] by {
      assert first + step in d.schedule;
    }
  }

  /** Who stays scheduled: everybody, unless the new key was taken; then the advanced particle is dropped. */
  lemma EventKeepsScheduled(c: Clock, first: real, step: real)
    requires c.Valid() && IsFirst(first, c.schedule) && step > 0.0
    ensures Advance(c, first, step).Scheduled() ==
      if Collides(c, first, step) then c.Scheduled() - {c.schedule[first]} else c.Scheduled()
    ensures |Advance(c, first, step).schedule| == |c.schedule| - if Collides(c, first, step) then 1 else 0
  {
    var i, d, rest := c.schedule[first], Advance(c, first, step), c.schedule - {first};
    assert |rest| == |c.schedule| - 1 by {
      assert rest.Keys == c.schedule.Keys - {first};
      assert |c.schedule.Keys - {first}| == |c.schedule.Keys| - 1;
    }
    assert Clock(rest, c.times, c.steps, c.now).Scheduled() == c.Scheduled() - {i} by {
      forall j | j in c.Scheduled() && j != i
        ensures j in Clock(rest, c.times, c.steps, c.now).Scheduled()
      {
        var k :| k in c.schedule && c.schedule[k] == j;
        assert k in rest;
      }
      forall k | k in rest
        ensures rest[k] != i
      {
        if c.schedule[k] == i {
          ScheduledOnce(c, k, first);
        }
      }
    }
    if !Collides(c, first, step) {
      assert d.schedule == rest[first + step := i];
      forall j | j in c.Scheduled()
        ensures j in d.Scheduled()
      {
        if j == i {
          assert first + step in d.schedule;
        } else {
          var k :| k in c.schedule && c.schedule[k] == j;
          assert k in rest && k in d.schedule;
        }
      }
    }
  }

  /** A prediction to the time of the next event never reaches beyond a scheduled particle's own step;
      for the particle that is advanced it spans exactly its step. */
  lemma PredictionStaysInStep(c: Clock, first: real, i: nat)
    requires c.Valid() && IsFirst(first, c.schedule) && i in c.Scheduled()
    ensures 0.0 <= first - c.times[i] <= c.steps[i]
    ensures i == c.schedule[first] ==> first - c.times[i] == c.steps[i]
  {
    var k :| k in c.schedule && c.schedule[k] == i;
    if i == c.schedule[first] {
      ScheduledOnce(c, k, first);
    }
  }

  /** A prediction to the current time stays strictly inside every scheduled particle's step. */
  lemma SynchronizationStaysInStep(c: Clock, i: nat)
    requires c.Valid() && i in c.Scheduled()
    ensures 0.0 <= c.now - c.times[i] < c.steps[i]
  {
    var k :| k in c.schedule && c.schedule[k] == i;
  }

  // ---- whole runs ----

  /** A run of the scheduler, with the steps that were chosen. */
  ghost predicate IsRun(run: seq<Clock>, steps: seq<real>) {
    && |run| == |steps| + 1
    && run[0].Valid()
    && (forall n :: 0 <= n < |steps| ==> EventAt(run[n], run[n + 1], steps[n]))
  }

  ghost predicate EventAt(c: Clock, d: Clock, step: real) {
    c.Valid() && step > 0.0 && exists first :: IsFirst(first, c.schedule) && d == Advance(c, first, step)
  }

  /** The key chosen in an event was already taken. */
  ghost predicate CollisionAt(c: Clock, step: real) {
    exists first :: IsFirst(first, c.schedule) && Collides(c, first, step)
  }

  /** `d` comes after `c`: a particle without an entry in `c` has none in `d`, and has not been updated. */
  ghost predicate Follows(c: Clock, d: Clock) {
    && d.Count() == c.Count() && |c.steps| == |d.steps| == |c.times|
    && d.Scheduled() <= c.Scheduled()
    && forall i :: 0 <= i < c.Count() && i !in c.Scheduled() ==>
      d.times[i] == c.times[i] && d.steps[i] == c.steps[i]
  }

  lemma FollowsTransitive(c: Clock, d: Clock, e: Clock)
    requires Follows(c, d) && Follows(d, e)
    ensures Follows(c, e)
  {
  }

  lemma EventFacts(c: Clock, d: Clock, step: real)
    requires EventAt(c, d, step)
    ensures d.Valid() && d.now > c.now && Follows(c, d)
  {
    var first :| IsFirst(first, c.schedule) && d == Advance(c, first, step);
    EventKeepsValid(c, first, step);
    EventKeepsScheduled(c, first, step);
    assert c.schedule[first] in c.Scheduled();
  }

  /** A collision drops one particle; without one, nobody is dropped. */
  lemma EventDrops(c: Clock, d: Clock, step: real)
    requires EventAt(c, d, step)
    ensures d.Scheduled() == c.Scheduled() <==> !CollisionAt(c, step)
    ensures |d.schedule| == |c.schedule| - if CollisionAt(c, step) then 1 else 0
  {
    var first :| IsFirst(first, c.schedule) && d == Advance(c, first, step);
    assert CollisionAt(c, step) <==> Collides(c, first, step) by {
      if CollisionAt(c, step) {
        var other :| IsFirst(other, c.schedule) && Collides(c, other, step);
        assert other == first;
      }
    }
    EventKeepsScheduled(c, first, step);
    assert c.schedule[first] in c.Scheduled();
  }

  lemma FollowsItself(c: Clock)
    requires c.Valid()
    ensures Follows(c, c)
  {
  }

  /** What is known of the clock some events after `c`. */
  ghost predicate Later(c: Clock, d: Clock) {
    d.Valid() && Follows(c, d) && c.now <= d.now && (c.Count() > 0 ==> d.schedule != map[])
  }

  lemma LaterByOne(c: Clock, d: Clock, e: Clock, step: real)
    requires Later(c, d) && EventAt(d, e, step)
    ensures Later(c, e) && c.now < e.now
  {
    EventFacts(d, e, step);
    FollowsTransitive(c, d, e);
  }

  lemma ValidThroughout(run: seq<Clock>, steps: seq<real>, n: nat)
    requires IsRun(run, steps) && n < |run|
    ensures run[n].Valid()
  {
    if n > 0 {
      assert EventAt(run[n - 1], run[n], steps[n - 1]);
      EventFacts(run[n - 1], run[n], steps[n - 1]);
    }
  }

  /** Over every run: the schedule stays valid and is never empty, time strictly increases,
      and a particle that lost its entry never gets one again and is never updated again. */
  lemma {:induction false} RunKeepsValid(run: seq<Clock>, steps: seq<real>, m: nat, n: nat)
    requires IsRun(run, steps) && m <= n < |run|
    ensures Later(run[m], run[n])
    ensures m < n ==> run[m].now < run[n].now
  {
    if m == n {
      ValidThroughout(run, steps, n);
      FollowsItself(run[n]);
    } else {
      RunKeepsValid(run, steps, m, n - 1);
      assert EventAt(run[n - 1], run[n], steps[n - 1]);
      LaterByOne(run[m], run[n - 1], run[n], steps[n - 1]);
    }
  }

  lemma ScheduledAfter(run: seq<Clock>, steps: seq<real>, m: nat)
    requires IsRun(run, steps) && m < |steps|
    ensures run[m + 1].Scheduled() == run[0].Scheduled() <==>
      run[m].Scheduled() == run[0].Scheduled() && !CollisionAt(run[m], steps[m])
    ensures |run[m + 1].schedule| == |run[m].schedule| - if CollisionAt(run[m], steps[m]) then 1 else 0
  {
    var a, b, c := run[0].Scheduled(), run[m].Scheduled(), run[m + 1].Scheduled();
    assert EventAt(run[m], run[m + 1], steps[m]);
    EventDrops(run[m], run[m + 1], steps[m]);
    assert c <= b by {
      RunKeepsValid(run, steps, m, m + 1);
    }
    assert b <= a by {
      RunKeepsValid(run, steps, 0, m);
    }
  }

  /** How many of the first `n` flags are up. */
  ghost function CountUp(flags: seq<bool>, n: nat): nat
    requires n <= |flags|
  {
    if n == 0 then 0 else CountUp(flags, n - 1) + if flags[n - 1] then 1 else 0
  }

  lemma {:induction false} CountedDown(sizes: seq<int>, flags: seq<bool>, n: nat)
    requires n <= |flags| < |sizes|
    requires forall m :: 0 <= m < n ==> sizes[m + 1] == sizes[m] - if flags[m] then 1 else 0
    ensures sizes[n] == sizes[0] - CountUp(flags, n)
  {
    if n > 0 {
      CountedDown(sizes, flags, n - 1);
    }
  }

  /** Which events of a run collided. */
  ghost function Collisions(run: seq<Clock>, steps: seq<real>): (r: seq<bool>)
    requires |run| == |steps| + 1
    ensures |r| == |steps| && forall m :: 0 <= m < |r| ==> r[m] == CollisionAt(run[m], steps[m])
  {
    seq(|steps|, m requires 0 <= m < |steps| => CollisionAt(run[m], steps[m]))
  }

  /** Every collision costs one particle its entry, and nothing else does. */
  lemma CollisionsCost(run: seq<Clock>, steps: seq<real>, n: nat)
    requires IsRun(run, steps) && n <= |steps|
    ensures |run[n].schedule| == |run[0].schedule| - CountUp(Collisions(run, steps), n)
  {
    var sizes := seq(|run|, m requires 0 <= m < |run| => |run[m].schedule|);
    forall m | 0 <= m < n
      ensures sizes[m + 1] == sizes[m] - if Collisions(run, steps)[m] then 1 else 0
    {
      ScheduledAfter(run, steps, m);
    }
    CountedDown(sizes, Collisions(run, steps), n);
  }

  lemma {:induction false} KeptByEach(kept: seq<bool>, flags: seq<bool>, n: nat)
    requires n <= |flags| < |kept| && kept[0]
    requires forall m :: 0 <= m < n ==> (kept[m + 1] <==> kept[m] && !flags[m])
    ensures kept[n] <==> forall m :: 0 <= m < n ==> !flags[m]
  {
    if n > 0 {
      KeptByEach(kept, flags, n - 1);
    }
  }

  /** Nobody loses an entry exactly when no two keys ever coincide. */
  lemma NoCollisionKeepsAll(run: seq<Clock>, steps: seq<real>, n: nat)
    requires IsRun(run, steps) && n <= |steps|
    ensures run[n].Scheduled() == run[0].Scheduled() <==>
      forall m :: 0 <= m < n ==> !Collisions(run, steps)[m]
  {
    var kept := seq(|run|, m requires 0 <= m < |run| => run[m].Scheduled() == run[0].Scheduled());
    forall m | 0 <= m < n
      ensures kept[m + 1] <==> kept[m] && !Collisions(run, steps)[m]
    {
      ScheduledAfter(run, steps, m);
    }
    KeptByEach(kept, Collisions(run, steps), n);
  }

  // ---- is everybody scheduled? ----

  ghost predicate AllScheduled(c: Clock) { c.Scheduled() == Systems.All(c.Count()) }

  ghost predicate Distinct(xs: seq<real>) { forall i, j :: 0 <= i < j < |xs| ==> xs[i] != xs[j] }

  /** No two particles have the same key. */
  ghost predicate DistinctKeys(c: Clock)
    requires |c.steps| == |c.times|
  {
    forall i, j :: 0 <= i < j < c.Count() ==> c.Key(i) != c.Key(j)
  }

  /** The first clock, for the first steps of all particles: every step is a key, and of particles
      with equal steps the last one has it. */
  ghost predicate IsFirstClock(c: Clock, firstSteps: seq<real>) {
    && c.Valid() && c.now == 0.0 && c.steps == firstSteps
    && (forall i :: 0 <= i < c.Count() ==> c.times[i] == 0.0 && c.Key(i) in c.schedule)
    && (forall k :: k in c.schedule ==> forall j :: c.schedule[k] < j < c.Count() ==> c.Key(j) != k)
  }

  /** The schedule after every particle has been entered in turn at its first step, overwriting. */
  ghost predicate IsFirstSchedule(schedule: map<real, nat>, steps: seq<real>) {
    && (forall i :: 0 <= i < |steps| ==> steps[i] > 0.0 && steps[i] in schedule)
    && (forall k :: k in schedule ==> schedule[k] < |steps| && steps[schedule[k]] == k)
    && (forall k :: k in schedule ==> forall j :: schedule[k] < j < |steps| ==> steps[j] != k)
    && (|steps| > 0 ==> schedule != map[])
  }

  lemma MakeFirstClock(schedule: map<real, nat>, steps: seq<real>, c: Clock)
    requires c == Clock(schedule, seq(|steps|, _ => 0.0), steps, 0.0)
    requires IsFirstSchedule(schedule, steps)
    ensures IsFirstClock(c, steps)
  {
    forall i: nat | i < |steps| ensures c.Key(i) == steps[i] {
      assert c.times[i] == 0.0;
    }
  }

  /** At first everybody is scheduled exactly when the first steps are pairwise different. */
  lemma FirstClockHoldsAll(c: Clock, firstSteps: seq<real>)
    requires IsFirstClock(c, firstSteps)
    ensures AllScheduled(c) <==> Distinct(firstSteps)
  {
    assert DistinctKeys(c) <==> Distinct(firstSteps) by {
      forall i | 0 <= i < c.Count() ensures c.Key(i) == firstSteps[i] {}
    }
    if DistinctKeys(c) {
      forall i: nat | i < c.Count() ensures i in c.Scheduled() {
        assert c.schedule[c.Key(i)] == i;
      }
      assert AllScheduled(c);
    } else {
      var i, j :| 0 <= i < j < c.Count() && c.Key(i) == c.Key(j);
      SharedKeyLosesOne(c, firstSteps, i, j);
    }
  }

  /** Of two particles with equal first steps the earlier one has no entry. */
  lemma SharedKeyLosesOne(c: Clock, firstSteps: seq<real>, i: nat, j: nat)
    requires IsFirstClock(c, firstSteps) && i < j < |firstSteps| && firstSteps[i] == firstSteps[j]
    ensures i !in c.Scheduled()
  {
    assert c.Key(i) == firstSteps[i] && c.Key(j) == firstSteps[j];
    assert forall k :: k in c.schedule && c.schedule[k] == i ==> k == c.Key(j);
  }

  /** At event n every particle is scheduled, and each exactly once, if and only if the first steps are pairwise
      different and no two keys have coincided since. */
  lemma AllStayScheduled(run: seq<Clock>, steps: seq<real>, firstSteps: seq<real>, n: nat)
    requires IsRun(run, steps) && IsFirstClock(run[0], firstSteps) && n <= |steps|
    ensures AllScheduled(run[n]) <==>
      Distinct(firstSteps) && forall m :: 0 <= m < n ==> !Collisions(run, steps)[m]
    ensures forall k, l :: k in run[n].schedule && l in run[n].schedule && run[n].schedule[k] == run[n].schedule[l] ==> k == l
  {
    RunKeepsValid(run, steps, 0, n);
    NoCollisionKeepsAll(run, steps, n);
    FirstClockHoldsAll(run[0], firstSteps);
    assert run[n].Scheduled() <= run[0].Scheduled() <= Systems.All(run[0].Count());
  }
}
