/** What direct-force leapfrog conserves exactly, over any number of steps. */
module Conservation {
  import opened Vectors
  import opened Systems
  import opened Gravity
  import opened PairForces
  import opened KickDrift

  /** Mass times velocity, with mass. */
  ghost function Momenta(sys: System): (r: seq<Term>)
    requires sys.Valid()
    ensures |r| == sys.Count()
    ensures forall i :: 0 <= i < |r| ==> r[i] == Term(Scale(sys.velocities[i], sys.masses[i]), sys.masses[i])
  {
    seq(sys.Count(), i requires 0 <= i < sys.Count() => Term(Scale(sys.velocities[i], sys.masses[i]), sys.masses[i]))
  }

  /** Position wedge momentum. */
  ghost function Spins(sys: System): (r: seq<Term>)
    requires sys.Valid()
    ensures |r| == sys.Count()
    ensures forall i :: 0 <= i < |r| ==>
      r[i] == Term(Wedge(sys.positions[i], Scale(sys.velocities[i], sys.masses[i])), 0.0)
  {
    seq(sys.Count(), i requires 0 <= i < sys.Count() =>
      Term(Wedge(sys.positions[i], Scale(sys.velocities[i], sys.masses[i])), 0.0))
  }

  ghost function Sum(xs: seq<Term>): Term { Total(xs, All(|xs|), |xs|) }

  ghost function Momentum(sys: System): Vec
    requires sys.Valid()
  {
    Sum(Momenta(sys)).vec
  }

  ghost function AngularMomentum(sys: System): Vec
    requires sys.Valid()
  {
    Sum(Spins(sys)).vec
  }

  ghost function MassMoment(sys: System): Vec
    requires sys.Valid()
  {
    Sum(Moments(sys.Matter())).vec
  }

  // ---- a kick ----

  function HalfKick(t: Term, dt: real): Term { Term(Scale(Scale(t.vec, dt), 0.5), 0.0) }

  lemma HalfKickAdditive(a: Term, b: Term, dt: real)
    ensures HalfKick(Plus(a, b), dt) == Plus(HalfKick(a, dt), HalfKick(b, dt))
  {
  }

  lemma ScalesCommute(v: Vec, a: real, b: real, c: real)
    ensures Scale(Scale(Scale(v, a), b), c) == Scale(Scale(Scale(v, c), a), b)
  {
    ScaleTwice(v, a, b);
    ScaleTwice(v, a * b, c);
    ScaleTwice(v, c, a);
    ScaleTwice(v, c * a, b);
    assert a * b * c == c * a * b;
  }

  lemma ScaleOfSum(a: Vec, b: Vec, m: real)
    ensures Scale(Add(a, b), m) == Add(Scale(a, m), Scale(b, m))
  {
  }

  lemma WedgeOfSum(p: Vec, a: Vec, b: Vec)
    ensures Wedge(p, Add(a, b)) == Add(Wedge(p, a), Wedge(p, b))
  {
  }

  lemma WedgeScaled(p: Vec, a: Vec, m: real)
    ensures Wedge(p, Scale(a, m)) == Scale(Wedge(p, a), m)
  {
    MinorScaled(p.x, p.y, a.x, a.y, m);
    MinorScaled(p.x, p.z, a.x, a.z, m);
    MinorScaled(p.y, p.z, a.y, a.z, m);
  }

  lemma MinorScaled(p: real, q: real, a: real, b: real, m: real)
    ensures Minor(p, q, a * m, b * m) == Minor(p, q, a, b) * m
  {
  }

  /** A kick adds the scaled force to the momentum of a particle, and the scaled torque to its spin. */
  lemma KickOfOne(p: Vec, v: Vec, a: Vec, m: real, dt: real)
    ensures Scale(KickOne(v, a, dt), m) == Add(Scale(v, m), Scale(Scale(Scale(a, m), dt), 0.5))
    ensures Wedge(p, Scale(KickOne(v, a, dt), m))
         == Add(Wedge(p, Scale(v, m)), Scale(Scale(Wedge(p, Scale(a, m)), dt), 0.5))
  {
    var kick := Scale(Scale(a, dt), 0.5);
    ScaleOfSum(v, kick, m);
    ScalesCommute(a, dt, 0.5, m);
    var force := Scale(a, m);
    WedgeOfSum(p, Scale(v, m), Scale(Scale(force, dt), 0.5));
    WedgeScaled(p, Scale(force, dt), 0.5);
    WedgeScaled(p, force, dt);
  }

  lemma ScaleZero(a: real)
    ensures Scale(ZERO, a) == ZERO
  {
  }

  lemma KickOfNothing(t: Term, dt: real)
    requires t.vec == ZERO
    ensures HalfKick(t, dt) == NOTHING
  {
    ScaleZero(dt);
    ScaleZero(0.5);
  }

  ghost function HalfKicks(forces: seq<Term>, dt: real): (r: seq<Term>)
    ensures |r| == |forces| && forall i :: 0 <= i < |r| ==> r[i] == HalfKick(forces[i], dt)
  {
    seq(|forces|, i requires 0 <= i < |forces| => HalfKick(forces[i], dt))
  }

  /** Kicks by terms that cancel change no sum. */
  lemma KicksCancel(forces: seq<Term>, dt: real, before: seq<Term>, after: seq<Term>)
    requires |before| == |after| == |forces| && Sum(forces).vec == ZERO
    requires forall i :: 0 <= i < |forces| ==> after[i] == Plus(before[i], HalfKick(forces[i], dt))
    ensures Sum(after) == Sum(before)
  {
    var l := (t: Term) => HalfKick(t, dt);
    var kicks, n := HalfKicks(forces, dt), |forces|;
    forall a, b ensures l(Plus(a, b)) == Plus(l(a), l(b)) { HalfKickAdditive(a, b, dt); }
    KickOfNothing(NOTHING, dt);
    TotalMap(l, forces, kicks, All(n), n);
    KickOfNothing(Sum(forces), dt);
    TotalPlus(before, kicks, after, All(n), n);
    PlusNothing(Sum(before));
  }

  /** A kick by direct forces at the current positions changes neither momentum nor angular momentum. */
  lemma KickConserves(sys: System, law: Law, dt: real)
    requires sys.Valid() && law.Valid()
    ensures var kicked := sys.(velocities :=
        Kick(sys.velocities, Accelerations(Direct(law), sys.Matter()), dt));
      Momentum(kicked) == Momentum(sys) && AngularMomentum(kicked) == AngularMomentum(sys)
  {
    var bodies := sys.Matter();
    var kicked := sys.(velocities := Kick(sys.velocities, Accelerations(Direct(law), bodies), dt));
    NoNetForce(bodies, law);
    forall i | 0 <= i < sys.Count()
      ensures Momenta(kicked)[i] == Plus(Momenta(sys)[i], HalfKick(Forces(bodies, law)[i], dt))
      ensures Spins(kicked)[i] == Plus(Spins(sys)[i], HalfKick(Torques(bodies, law)[i], dt))
    {
      KickOfOne(sys.positions[i], sys.velocities[i], DirectPull(bodies, law, i).vec, sys.masses[i], dt);
    }
    KicksCancel(Forces(bodies, law), dt, Momenta(sys), Momenta(kicked));
    KicksCancel(Torques(bodies, law), dt, Spins(sys), Spins(kicked));
  }

  // ---- a drift ----

  /** Moving along its own velocity does not change the spin of a particle. */
  lemma DriftOfOne(p: Vec, v: Vec, m: real, dt: real)
    ensures Scale(DriftOne(p, v, dt), m) == Add(Scale(p, m), Scale(Scale(v, m), dt))
    ensures Wedge(DriftOne(p, v, dt), Scale(v, m)) == Wedge(p, Scale(v, m))
  {
    ScaleOfSum(p, Scale(v, dt), m);
    TwoScalesCommute(v, dt, m);
    WedgeScaled(DriftOne(p, v, dt), v, m);
    WedgeScaled(p, v, m);
    WedgeDrifted(p, v, dt);
  }

  lemma WedgeDrifted(p: Vec, v: Vec, dt: real)
    ensures Wedge(DriftOne(p, v, dt), v) == Wedge(p, v)
  {
    DriftSpin(p.x, p.y, v.x, v.y, dt);
    DriftSpin(p.x, p.z, v.x, v.z, dt);
    DriftSpin(p.y, p.z, v.y, v.z, dt);
  }

  lemma TwoScalesCommute(v: Vec, a: real, b: real)
    ensures Scale(Scale(v, a), b) == Scale(Scale(v, b), a)
  {
  }

  lemma DriftSpin(p: real, q: real, v: real, w: real, dt: real)
    ensures (p + v * dt) * w - (q + w * dt) * v == p * w - q * v
  {
  }

  function Slide(t: Term, dt: real): Term { Term(Scale(t.vec, dt), 0.0) }

  lemma SlideAdditive(a: Term, b: Term, dt: real)
    ensures Slide(Plus(a, b), dt) == Plus(Slide(a, dt), Slide(b, dt))
  {
  }

  /** A drift changes no momentum, no angular momentum, and moves the mass moment along the momentum. */
  lemma DriftConserves(sys: System, dt: real)
    requires sys.Valid()
    ensures var moved := sys.(positions := Drift(sys.positions, sys.velocities, dt));
      && Momentum(moved) == Momentum(sys)
      && AngularMomentum(moved) == AngularMomentum(sys)
      && MassMoment(moved) == Add(MassMoment(sys), Scale(Momentum(sys), dt))
  {
    var n := sys.Count();
    var moved := sys.(positions := Drift(sys.positions, sys.velocities, dt));
    assert Momenta(moved) == Momenta(sys);
    forall i | 0 <= i < n
      ensures Spins(moved)[i] == Spins(sys)[i]
    {
      DriftOfOne(sys.positions[i], sys.velocities[i], sys.masses[i], dt);
    }
    assert Spins(moved) == Spins(sys);
    var l := (t: Term) => Slide(t, dt);
    var slides := seq(n, i requires 0 <= i < n => l(Momenta(sys)[i]));
    forall a, b ensures l(Plus(a, b)) == Plus(l(a), l(b)) { SlideAdditive(a, b, dt); }
    ScaleZero(dt);
    TotalMap(l, Momenta(sys), slides, All(n), n);
    forall i | 0 <= i < n
      ensures Moments(moved.Matter())[i] == Plus(Moments(sys.Matter())[i], slides[i])
    {
      DriftOfOne(sys.positions[i], sys.velocities[i], sys.masses[i], dt);
    }
    TotalPlus(Moments(sys.Matter()), slides, Moments(moved.Matter()), All(n), n);
  }

  // ---- steps and runs ----

  lemma StepConserves(law: Law, s: State, dt: real)
    requires Consistent(Direct(law), s)
    ensures CanStep(Direct(law), s, dt)
    ensures var next := Step(Direct(law), s, dt).sys;
      && Momentum(next) == Momentum(s.sys)
      && AngularMomentum(next) == AngularMomentum(s.sys)
      && MassMoment(next) == Add(MassMoment(s.sys), Scale(Momentum(s.sys), dt))
  {
    var kicked := s.sys.(velocities := Kick(s.sys.velocities, s.accelerations, dt));
    KickConserves(s.sys, law, dt);
    assert MassMoment(kicked) == MassMoment(s.sys);
    var moved := kicked.(positions := Drift(kicked.positions, kicked.velocities, dt));
    DriftConserves(kicked, dt);
    KickConserves(moved, law, dt);
    var next := Step(Direct(law), s, dt).sys;
    assert next == moved.(velocities := Kick(moved.velocities, Accelerations(Direct(law), moved.Matter()), dt));
    assert MassMoment(next) == MassMoment(moved);
  }

  lemma SlidesAdd(x: Vec, v: Vec, a: real, b: real, c: real)
    requires c == a + b
    ensures Add(Add(x, Scale(v, a)), Scale(v, b)) == Add(x, Scale(v, c))
  {
  }

  lemma NoSlide(x: Vec, v: Vec, t: real)
    requires t == 0.0
    ensures Add(x, Scale(v, t)) == x
  {
  }

  function Elapsed(dt: real, n: nat): real { if n == 0 then 0.0 else Elapsed(dt, n - 1) + dt }

  lemma {:induction false} ElapsedIsProduct(dt: real, n: nat)
    ensures Elapsed(dt, n) == n as real * dt
  {
    if n > 0 {
      ElapsedIsProduct(dt, n - 1);
      assert n as real * dt == (n - 1) as real * dt + dt;
    }
  }

  /** Momentum and angular momentum of `t` are those of `s`, and its mass moment has moved uniformly for `time`. */
  ghost predicate ConservedFor(s: System, t: System, time: real)
    requires s.Valid() && t.Valid()
  {
    && t.masses == s.masses
    && Momentum(t) == Momentum(s)
    && AngularMomentum(t) == AngularMomentum(s)
    && MassMoment(t) == Add(MassMoment(s), Scale(Momentum(s), time))
  }

  lemma ConservedAtOnce(s: System)
    requires s.Valid()
    ensures ConservedFor(s, s, 0.0)
  {
    NoSlide(MassMoment(s), Momentum(s), 0.0);
  }

  lemma ConservedForLonger(s: System, t: System, u: System, a: real, b: real)
    requires s.Valid() && t.Valid() && u.Valid() && ConservedFor(s, t, a) && ConservedFor(t, u, b)
    ensures ConservedFor(s, u, a + b)
  {
    SlidesAdd(MassMoment(s), Momentum(s), a, b, a + b);
  }

  lemma {:induction false} ConservedThroughout(systems: seq<System>, dt: real, i: nat)
    requires i < |systems| && forall k :: 0 <= k < |systems| ==> systems[k].Valid()
    requires forall k :: 0 <= k < i ==> ConservedFor(systems[k], systems[k + 1], dt)
    ensures ConservedFor(systems[0], systems[i], Elapsed(dt, i))
  {
    if i == 0 {
      ConservedAtOnce(systems[0]);
    } else {
      ConservedThroughout(systems, dt, i - 1);
      ConservedForLonger(systems[0], systems[i - 1], systems[i], Elapsed(dt, i - 1), dt);
    }
  }

  lemma StepConservesFor(law: Law, dt: real, run: seq<State>, i: nat)
    requires IsRun(Direct(law), dt, run) && i < |run| - 1
    ensures run[i].sys.Valid() && run[i + 1].sys.Valid() && ConservedFor(run[i].sys, run[i + 1].sys, dt)
  {
    AlwaysConsistent(Direct(law), dt, run, i);
    assert StepsTo(Direct(law), dt, run[i], run[i + 1]);
    StepConserves(law, run[i], dt);
  }

  /** In every run with direct forces, momentum and angular momentum never change, and the mass moment
      moves uniformly: by n * dt times the momentum in n steps. */
  lemma RunConserves(law: Law, dt: real, run: seq<State>, i: nat)
    requires IsRun(Direct(law), dt, run) && i < |run|
    ensures run[0].sys.Valid() && run[i].sys.Valid()
    ensures ConservedFor(run[0].sys, run[i].sys, Elapsed(dt, i))
  {
    var systems := seq(|run|, k requires 0 <= k < |run| => run[k].sys);
    forall k | 0 <= k < |systems| ensures systems[k].Valid() {
      AlwaysConsistent(Direct(law), dt, run, k);
    }
    forall k | 0 <= k < i ensures ConservedFor(systems[k], systems[k + 1], dt) {
      StepConservesFor(law, dt, run, k);
    }
    ConservedThroughout(systems, dt, i);
  }

  // ---- another origin ----

  /** The system moved by `c` as a whole. */
  ghost function MovedBy(sys: System, c: Vec): (r: System)
    requires sys.Valid()
    ensures r.Valid() && r.masses == sys.masses && r.velocities == sys.velocities
  {
    System(seq(sys.Count(), i requires 0 <= i < sys.Count() => Add(sys.positions[i], c)), sys.velocities, sys.masses)
  }

  lemma WedgeMoved(p: Vec, c: Vec, q: Vec)
    ensures Wedge(Add(p, c), q) == Add(Wedge(p, q), Wedge(c, q))
  {
  }

  lemma WedgeWithZero(c: Vec)
    ensures Wedge(c, ZERO) == ZERO
  {
  }

  /** Seen from another origin, angular momentum differs by the offset wedge the momentum. */
  lemma AngularMomentumMoves(sys: System, c: Vec)
    requires sys.Valid()
    ensures AngularMomentum(MovedBy(sys, c)) == Add(AngularMomentum(sys), Wedge(c, Momentum(sys)))
  {
    var n, moved := sys.Count(), MovedBy(sys, c);
    var l := (t: Term) => Term(Wedge(c, t.vec), 0.0);
    var offsets := seq(n, i requires 0 <= i < n => l(Momenta(sys)[i]));
    forall a, b ensures l(Plus(a, b)) == Plus(l(a), l(b)) { WedgeOfSum(c, a.vec, b.vec); }
    WedgeWithZero(c);
    TotalMap(l, Momenta(sys), offsets, All(n), n);
    forall i | 0 <= i < n ensures Spins(moved)[i] == Plus(Spins(sys)[i], offsets[i]) {
      WedgeMoved(sys.positions[i], c, Scale(sys.velocities[i], sys.masses[i]));
    }
    TotalPlus(Spins(sys), offsets, Spins(moved), All(n), n);
  }
}
