/** Leapfrog in kick-drift-kick form, over any force field that depends on positions and masses. */
module KickDrift {
  import opened Vectors
  import opened Systems
  import opened Gravity
  import opened TreeField

  /** The two fields: direct summation, and the octree walk. */
  datatype Field =
    | Direct(law: Law)
    | BarnesHut(law: Law, thetaSqr: real)

  /** The field is defined for these bodies: the tree can be built. */
  ghost predicate Admits(f: Field, sys: Bodies) {
    sys.Valid() && f.law.Valid() && (f.BarnesHut? ==> Buildable(sys))
  }

  ghost function Accelerations(f: Field, sys: Bodies): (r: seq<Vec>)
    requires Admits(f, sys)
    ensures |r| == sys.Count()
  {
    seq(sys.Count(), i requires 0 <= i < sys.Count() =>
      match f
      case Direct(law) => DirectPull(sys, law, i).vec
      case BarnesHut(law, thetaSqr) => TreePull(sys, law, thetaSqr, i).vec)
  }

  /** Particles with their cached accelerations. */
  datatype State = State(sys: System, accelerations: seq<Vec>) {
    predicate Valid() { sys.Valid() && |accelerations| == sys.Count() }
  }

  /** The cache holds the accelerations at the current positions. */
  ghost predicate Consistent(f: Field, s: State) {
    s.Valid() && Admits(f, s.sys.Matter()) && s.accelerations == Accelerations(f, s.sys.Matter())
  }

  function KickOne(v: Vec, a: Vec, dt: real): Vec { Add(v, Scale(Scale(a, dt), 0.5)) }

  function Kick(vs: seq<Vec>, accs: seq<Vec>, dt: real): (r: seq<Vec>)
    requires |vs| == |accs|
    ensures |r| == |vs| && forall i :: 0 <= i < |r| ==> r[i] == KickOne(vs[i], accs[i], dt)
  {
    seq(|vs|, i requires 0 <= i < |vs| => KickOne(vs[i], accs[i], dt))
  }

  function DriftOne(p: Vec, v: Vec, dt: real): Vec { Add(p, Scale(v, dt)) }

  function Drift(ps: seq<Vec>, vs: seq<Vec>, dt: real): (r: seq<Vec>)
    requires |ps| == |vs|
    ensures |r| == |ps| && forall i :: 0 <= i < |r| ==> r[i] == DriftOne(ps[i], vs[i], dt)
  {
    seq(|ps|, i requires 0 <= i < |ps| => DriftOne(ps[i], vs[i], dt))
  }

  /** Where the particles are after the drift. */
  function Drifted(s: State, dt: real): (r: Bodies)
    requires s.Valid()
    ensures r.Valid() && r.Count() == s.sys.Count()
  {
    Bodies(Drift(s.sys.positions, Kick(s.sys.velocities, s.accelerations, dt), dt), s.sys.masses)
  }

  ghost predicate CanStep(f: Field, s: State, dt: real) { s.Valid() && Admits(f, Drifted(s, dt)) }

  /** Half kick, drift, new accelerations, half kick. */
  ghost function Step(f: Field, s: State, dt: real): (r: State)
    requires CanStep(f, s, dt)
    ensures r.Valid() && r.sys.masses == s.sys.masses && Consistent(f, r)
  {
    var half := Kick(s.sys.velocities, s.accelerations, dt);
    var next := Drifted(s, dt);
    var accelerations := Accelerations(f, next);
    State(System(next.positions, Kick(half, accelerations, dt), s.sys.masses), accelerations)
  }

  ghost predicate StepsTo(f: Field, dt: real, s: State, t: State) { CanStep(f, s, dt) && t == Step(f, s, dt) }

  /** A run: every state but the first is one step from the one before it. */
  ghost predicate IsRun(f: Field, dt: real, run: seq<State>) {
    && run != []
    && Consistent(f, run[0])
    && forall i :: 0 <= i < |run| - 1 ==> StepsTo(f, dt, run[i], run[i + 1])
  }

  /** The same particles, moving the other way. */
  function Reversed(s: State): State {
    s.(sys := s.sys.(velocities := seq(|s.sys.velocities|, i requires 0 <= i < |s.sys.velocities| => Neg(s.sys.velocities[i]))))
  }

  // ---- time reversal ----

  lemma KickReverses(v: Vec, a: Vec, dt: real)
    ensures KickOne(Neg(KickOne(v, a, dt)), a, dt) == Neg(v)
  {
  }

  lemma DriftReverses(p: Vec, v: Vec, dt: real)
    ensures DriftOne(DriftOne(p, v, dt), Neg(v), dt) == p
  {
  }

  /** A step from the reversed end of a step leads back to its reversed start. */
  lemma StepReverses(f: Field, s: State, dt: real)
    requires Consistent(f, s) && CanStep(f, s, dt)
    ensures var e := Reversed(Step(f, s, dt));
      CanStep(f, e, dt) && Step(f, e, dt) == Reversed(s)
  {
    var end := Step(f, s, dt);
    var e := Reversed(end);
    var half := Kick(s.sys.velocities, s.accelerations, dt);
    var back := Kick(e.sys.velocities, e.accelerations, dt);
    forall i | 0 <= i < s.sys.Count()
      ensures back[i] == Neg(half[i])
    {
      KickReverses(half[i], end.accelerations[i], dt);
    }
    forall i | 0 <= i < s.sys.Count()
      ensures Drifted(e, dt).positions[i] == s.sys.positions[i]
    {
      DriftReverses(s.sys.positions[i], half[i], dt);
    }
    assert Drifted(e, dt) == s.sys.Matter();
    var r := Step(f, e, dt);
    forall i | 0 <= i < s.sys.Count()
      ensures r.sys.velocities[i] == Neg(s.sys.velocities[i])
    {
      KickReverses(s.sys.velocities[i], s.accelerations[i], dt);
    }
    assert r.sys.velocities == Reversed(s).sys.velocities;
  }

  lemma AlwaysConsistent(f: Field, dt: real, run: seq<State>, i: nat)
    requires IsRun(f, dt, run) && i < |run|
    ensures Consistent(f, run[i])
  {
    if i > 0 {
      assert StepsTo(f, dt, run[i - 1], run[i]);
    }
  }

  lemma ReversedStaysConsistent(f: Field, s: State)
    requires Consistent(f, s)
    ensures Consistent(f, Reversed(s))
  {
  }

  lemma {:induction false} StepBack(f: Field, dt: real, s: State, t: State)
    requires Consistent(f, s) && StepsTo(f, dt, s, t)
    ensures StepsTo(f, dt, Reversed(t), Reversed(s))
  {
    StepReverses(f, s, dt);
  }

  lemma ReversedTwice(s: State)
    ensures Reversed(Reversed(s)) == s
  {
    assert Reversed(Reversed(s)).sys.velocities == s.sys.velocities;
  }

  /** The run read backwards, velocities reversed. */
  function Retraced(run: seq<State>): (r: seq<State>)
    ensures |r| == |run| && forall i :: 0 <= i < |r| ==> r[i] == Reversed(run[|run| - 1 - i])
  {
    seq(|run|, i requires 0 <= i < |run| => Reversed(run[|run| - 1 - i]))
  }

  lemma RetracedSteps(f: Field, dt: real, run: seq<State>, i: nat)
    requires IsRun(f, dt, run) && i < |run| - 1
    ensures StepsTo(f, dt, Retraced(run)[i], Retraced(run)[i + 1])
  {
    var k := |run| - 2 - i;
    assert StepsTo(f, dt, run[k], run[k + 1]);
    AlwaysConsistent(f, dt, run, k);
    StepBack(f, dt, run[k], run[k + 1]);
  }

  /** Turn every velocity round at the end of a run, and the simulator retraces it state by state,
      back to its start. */
  lemma RunReverses(f: Field, dt: real, run: seq<State>)
    requires IsRun(f, dt, run)
    ensures IsRun(f, dt, Retraced(run))
    ensures Retraced(run)[0] == Reversed(run[|run| - 1])
    ensures Reversed(Retraced(run)[|run| - 1]) == run[0]
  {
    AlwaysConsistent(f, dt, run, |run| - 1);
    ReversedStaysConsistent(f, run[|run| - 1]);
    forall i | 0 <= i < |run| - 1
      ensures StepsTo(f, dt, Retraced(run)[i], Retraced(run)[i + 1])
    {
      RetracedSteps(f, dt, run, i);
    }
    ReversedTwice(run[0]);
  }

  /** A run is determined by its start and its length. */
  lemma {:induction false} RunsAgree(f: Field, dt: real, run: seq<State>, other: seq<State>, i: nat)
    requires IsRun(f, dt, run) && IsRun(f, dt, other) && run[0] == other[0]
    requires i < |run| && i < |other|
    ensures run[i] == other[i]
  {
    if i > 0 {
      RunsAgree(f, dt, run, other, i - 1);
      assert StepsTo(f, dt, run[i - 1], run[i]) && StepsTo(f, dt, other[i - 1], other[i]);
    }
  }

  // ---- what is integrated ----

  lemma DriftForward(p: Vec, v: Vec, a: Vec, dt: real)
    ensures DriftOne(p, KickOne(v, a, dt), dt) == Add(Add(p, Scale(v, dt)), Scale(a, 0.5 * dt * dt))
  {
    var r := DriftOne(p, KickOne(v, a, dt), dt);
    assert r.x == p.x + v.x * dt + a.x * (0.5 * dt * dt) by { HalfSquare(p.x, v.x, a.x, dt); }
    assert r.y == p.y + v.y * dt + a.y * (0.5 * dt * dt) by { HalfSquare(p.y, v.y, a.y, dt); }
    assert r.z == p.z + v.z * dt + a.z * (0.5 * dt * dt) by { HalfSquare(p.z, v.z, a.z, dt); }
  }

  lemma HalfSquare(p: real, v: real, a: real, t: real)
    ensures p + (v + a * t * 0.5) * t == p + v * t + a * (0.5 * t * t)
  {
  }

  lemma DriftBackward(half: Vec, a: Vec, dt: real)
    ensures Sub(Scale(KickOne(half, a, dt), dt), Scale(a, 0.5 * dt * dt)) == Scale(half, dt)
  {
    DriftForward(ZERO, half, a, dt);
  }

  lemma StepBackwards(p: Vec, half: Vec, a: Vec, q: Vec, w: Vec, dt: real)
    requires q == DriftOne(p, half, dt) && w == KickOne(half, a, dt)
    ensures p == Add(Sub(q, Scale(w, dt)), Scale(a, 0.5 * dt * dt))
  {
    DriftBackward(half, a, dt);
    SubtractsBoth(p, Scale(half, dt), Scale(w, dt), Scale(a, 0.5 * dt * dt));
  }

  lemma SubtractsBoth(p: Vec, d: Vec, u: Vec, v: Vec)
    requires Sub(u, v) == d
    ensures p == Add(Sub(Add(p, d), u), v)
  {
  }

  /** Particle `k` moves on from the start as under its first acceleration, and arrives at the end as under its last.
      So under an acceleration that stays the same, motion is exact. */
  lemma StepIsVerlet(f: Field, s: State, dt: real, k: nat)
    requires Consistent(f, s) && CanStep(f, s, dt) && k < s.sys.Count()
    ensures var t := Step(f, s, dt);
      var a, b := Accelerations(f, s.sys.Matter())[k], Accelerations(f, t.sys.Matter())[k];
      && t.sys.positions[k] == Add(Add(s.sys.positions[k], Scale(s.sys.velocities[k], dt)), Scale(a, 0.5 * dt * dt))
      && s.sys.positions[k] == Add(Sub(t.sys.positions[k], Scale(t.sys.velocities[k], dt)), Scale(b, 0.5 * dt * dt))
  {
    var t := Step(f, s, dt);
    var p, v, a := s.sys.positions[k], s.sys.velocities[k], s.accelerations[k];
    DriftForward(p, v, a, dt);
    StepBackwards(p, KickOne(v, a, dt), t.accelerations[k], t.sys.positions[k], t.sys.velocities[k], dt);
  }

  lemma SecondDifference(p: Vec, q: Vec, r: Vec, v: Vec, a: Vec, dt: real)
    requires p == Add(Sub(q, Scale(v, dt)), Scale(a, 0.5 * dt * dt))
    requires r == Add(Add(q, Scale(v, dt)), Scale(a, 0.5 * dt * dt))
    ensures Sub(Sub(r, q), Sub(q, p)) == Scale(a, dt * dt)
    ensures Sub(r, p) == Scale(v, 2.0 * dt)
  {
  }

  /** In every run, whatever the field: second differences of the positions are accelerations times the step
      squared, and velocities are the central differences. */
  lemma RunFollowsField(f: Field, dt: real, run: seq<State>, i: nat, k: nat)
    requires IsRun(f, dt, run) && 0 < i < |run| - 1 && k < run[i].sys.Count()
    ensures run[i - 1].Valid() && run[i - 1].sys.Count() == run[i].sys.Count()
    ensures run[i + 1].Valid() && run[i + 1].sys.Count() == run[i].sys.Count()
    ensures Admits(f, run[i].sys.Matter())
    ensures var p, q, r := run[i - 1].sys.positions[k], run[i].sys.positions[k], run[i + 1].sys.positions[k];
      && Sub(Sub(r, q), Sub(q, p)) == Scale(Accelerations(f, run[i].sys.Matter())[k], dt * dt)
      && Sub(r, p) == Scale(run[i].sys.velocities[k], 2.0 * dt)
  {
    AlwaysConsistent(f, dt, run, i - 1);
    AlwaysConsistent(f, dt, run, i);
    assert StepsTo(f, dt, run[i - 1], run[i]) && StepsTo(f, dt, run[i], run[i + 1]);
    StepIsVerlet(f, run[i - 1], dt, k);
    StepIsVerlet(f, run[i], dt, k);
    SecondDifference(run[i - 1].sys.positions[k], run[i].sys.positions[k], run[i + 1].sys.positions[k],
                     run[i].sys.velocities[k], run[i].accelerations[k], dt);
  }
}
