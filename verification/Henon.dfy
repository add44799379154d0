/** Energies, centring, and scaling to Hénon units. */
module Henon {
  import opened Vectors
  import opened Systems
  import opened Gravity
  import opened PairForces
  import opened KickDrift
  import opened Conservation

  /** The gravitational constant in pc, solar masses and km/s. */
  const G := 0.004300917271

  // ---- weighted sums ----

  /** The sum of the first `n` vectors times their masses, with the sum of the masses. */
  ghost function WeightedSum(vs: seq<Vec>, ms: seq<real>, n: nat): Term
    requires n <= |vs| && n <= |ms|
  {
    if n == 0 then NOTHING else Plus(WeightedSum(vs, ms, n - 1), Term(Scale(vs[n - 1], ms[n - 1]), ms[n - 1]))
  }

  lemma {:induction false} WeightedSumIsTotal(vs: seq<Vec>, ms: seq<real>, xs: seq<Term>, n: nat)
    requires n <= |xs| == |vs| == |ms|
    requires forall i :: 0 <= i < |xs| ==> xs[i] == Term(Scale(vs[i], ms[i]), ms[i])
    ensures WeightedSum(vs, ms, n) == Total(xs, All(|xs|), n)
  {
    if n > 0 {
      WeightedSumIsTotal(vs, ms, xs, n - 1);
    }
  }

  ghost function MomentSum(sys: System): Term
    requires sys.Valid()
  {
    WeightedSum(sys.positions, sys.masses, sys.Count())
  }

  ghost function MomentumSum(sys: System): Term
    requires sys.Valid()
  {
    WeightedSum(sys.velocities, sys.masses, sys.Count())
  }

  ghost function TotalMass(sys: System): real
    requires sys.Valid()
  {
    MomentSum(sys).scalar
  }

  lemma {:induction false} SameMass(us: seq<Vec>, vs: seq<Vec>, ms: seq<real>, n: nat)
    requires n <= |us| && n <= |vs| && n <= |ms|
    ensures WeightedSum(us, ms, n).scalar == WeightedSum(vs, ms, n).scalar
  {
    if n > 0 {
      SameMass(us, vs, ms, n - 1);
    }
  }

  /** The sums are the ones that runs conserve. */
  lemma SumsAreConserved(sys: System)
    requires sys.Valid()
    ensures MassMoment(sys) == MomentSum(sys).vec && Momentum(sys) == MomentumSum(sys).vec
    ensures MomentumSum(sys).scalar == TotalMass(sys)
  {
    WeightedSumIsTotal(sys.positions, sys.masses, Moments(sys.Matter()), sys.Count());
    WeightedSumIsTotal(sys.velocities, sys.masses, Momenta(sys), sys.Count());
    SameMass(sys.positions, sys.velocities, sys.masses, sys.Count());
  }

  // ---- centring ----

  datatype CenterOfMass = CenterOfMass(position: Vec, velocity: Vec)

  /** Zero for a system without mass. */
  ghost function CenterOf(sys: System): CenterOfMass
    requires sys.Valid()
  {
    if TotalMass(sys) == 0.0 then CenterOfMass(ZERO, ZERO)
    else CenterOfMass(Div(MomentSum(sys).vec, TotalMass(sys)), Div(MomentumSum(sys).vec, TotalMass(sys)))
  }

  ghost function ShiftedAll(vs: seq<Vec>, c: Vec): (r: seq<Vec>)
    ensures |r| == |vs| && forall i :: 0 <= i < |r| ==> r[i] == Sub(vs[i], c)
  {
    seq(|vs|, i requires 0 <= i < |vs| => Sub(vs[i], c))
  }

  ghost function Centered(sys: System): (r: System)
    requires sys.Valid()
    ensures r.Valid()
  {
    var c := CenterOf(sys);
    System(ShiftedAll(sys.positions, c.position), ShiftedAll(sys.velocities, c.velocity), sys.masses)
  }

  function Less(s: real, c: real, m: real): real { s - c * m }

  function More(s: real, v: real, k: real): real { s + v * k }

  lemma LessVec(s: Vec, c: Vec, m: real)
    ensures Sub(s, Scale(c, m)) == Vec(Less(s.x, c.x, m), Less(s.y, c.y, m), Less(s.z, c.z, m))
  {
  }

  lemma MoreVec(s: Vec, v: Vec, k: real)
    ensures Add(s, Scale(v, k)) == Vec(More(s.x, v.x, k), More(s.y, v.y, k), More(s.z, v.z, k))
  {
  }

  lemma ShiftScalar(s: real, m: real, v: real, c: real, k: real)
    ensures More(Less(s, c, m), v - c, k) == Less(More(s, v, k), c, m + k)
  {
  }

  lemma ShiftOne(s: Vec, m: real, v: Vec, c: Vec, k: real)
    ensures Add(Sub(s, Scale(c, m)), Scale(Sub(v, c), k)) == Sub(Add(s, Scale(v, k)), Scale(c, m + k))
  {
    LessVec(s, c, m);
    MoreVec(Sub(s, Scale(c, m)), Sub(v, c), k);
    MoreVec(s, v, k);
    LessVec(Add(s, Scale(v, k)), c, m + k);
    ShiftScalar(s.x, m, v.x, c.x, k);
    ShiftScalar(s.y, m, v.y, c.y, k);
    ShiftScalar(s.z, m, v.z, c.z, k);
  }

  /** Shifting every vector shifts the weighted sum by the mass times the shift. */
  lemma {:induction false} ShiftedSum(vs: seq<Vec>, c: Vec, ms: seq<real>, n: nat)
    requires n <= |vs| && n <= |ms|
    ensures WeightedSum(ShiftedAll(vs, c), ms, n)
         == Term(Sub(WeightedSum(vs, ms, n).vec, Scale(c, WeightedSum(vs, ms, n).scalar)), WeightedSum(vs, ms, n).scalar)
  {
    if n > 0 {
      ShiftedSum(vs, c, ms, n - 1);
      var before := WeightedSum(vs, ms, n - 1);
      ShiftOne(before.vec, before.scalar, vs[n - 1], c, ms[n - 1]);
    }
  }

  lemma CenterTimesMass(s: Vec, m: real)
    requires m != 0.0
    ensures Sub(s, Scale(Div(s, m), m)) == ZERO && Div(ZERO, m) == ZERO
  {
  }

  /** A centred system has its centre of mass at rest at the origin; unless it has no mass,
      its mass moment and its momentum vanish. */
  lemma CenteredIsCentered(sys: System)
    requires sys.Valid()
    ensures CenterOf(Centered(sys)) == CenterOfMass(ZERO, ZERO)
    ensures TotalMass(Centered(sys)) == TotalMass(sys)
    ensures TotalMass(sys) != 0.0 ==> MomentSum(Centered(sys)).vec == ZERO && MomentumSum(Centered(sys)).vec == ZERO
  {
    var c, m := CenterOf(sys), TotalMass(sys);
    ShiftedSum(sys.positions, c.position, sys.masses, sys.Count());
    ShiftedSum(sys.velocities, c.velocity, sys.masses, sys.Count());
    SumsAreConserved(sys);
    if m != 0.0 {
      CenterTimesMass(MomentSum(sys).vec, m);
      CenterTimesMass(MomentumSum(sys).vec, m);
    }
  }

  /** With direct forces, a system that is centred stays centred in every run. */
  lemma CenteredStaysCentered(law: Law, dt: real, run: seq<State>, sys: System, i: nat)
    requires IsRun(Direct(law), dt, run) && i < |run|
    requires sys.Valid() && TotalMass(sys) != 0.0 && run[0].sys == Centered(sys)
    ensures run[i].sys.Valid() && MassMoment(run[i].sys) == ZERO && Momentum(run[i].sys) == ZERO
  {
    CenteredIsCentered(sys);
    SumsAreConserved(Centered(sys));
    RunConserves(law, dt, run, i);
    ZeroMoves(Elapsed(dt, i));
  }

  lemma QuotientOfMore(a: real, b: real, t: real, m: real)
    requires m != 0.0
    ensures More(a, b, t) / m == More(a / m, b / m, t)
  {
    assert (a / m + b / m * t) * m == a / m * m + b / m * m * t;
  }

  lemma DivOfSlide(a: Vec, b: Vec, t: real, m: real)
    requires m != 0.0
    ensures Div(Add(a, Scale(b, t)), m) == Add(Div(a, m), Scale(Div(b, m), t))
  {
    MoreVec(a, b, t);
    MoreVec(Div(a, m), Div(b, m), t);
    QuotientOfMore(a.x, b.x, t, m);
    QuotientOfMore(a.y, b.y, t, m);
    QuotientOfMore(a.z, b.z, t, m);
  }

  lemma MassIsKept(s: System, t: System)
    requires s.Valid() && t.Valid() && s.masses == t.masses
    ensures TotalMass(s) == TotalMass(t)
  {
    SameMass(s.positions, t.positions, s.masses, s.Count());
  }

  /** With direct forces, the centre of mass moves uniformly in every run: after n steps it is n * dt times its
      velocity further, and has the velocity that it had. */
  lemma CenterMovesUniformly(law: Law, dt: real, run: seq<State>, n: nat)
    requires IsRun(Direct(law), dt, run) && n < |run| && TotalMass(run[0].sys) != 0.0
    ensures var c := CenterOf(run[0].sys);
      run[n].sys.Valid() && CenterOf(run[n].sys) == CenterOfMass(Add(c.position, Scale(c.velocity, n as real * dt)), c.velocity)
  {
    var first, last := run[0].sys, run[n].sys;
    RunConserves(law, dt, run, n);
    ElapsedIsProduct(dt, n);
    SumsAreConserved(first);
    SumsAreConserved(last);
    MassIsKept(first, last);
    DivOfSlide(MassMoment(first), Momentum(first), n as real * dt, TotalMass(first));
  }

  lemma ZeroMoves(time: real)
    ensures Add(ZERO, Scale(ZERO, time)) == ZERO
  {
  }

  // ---- energies ----

  ghost function RealSum(xs: seq<real>, n: nat): real
    requires n <= |xs|
  {
    if n == 0 then 0.0 else RealSum(xs, n - 1) + xs[n - 1]
  }

  /** Twice the kinetic energy of one body. */
  function DoubleEnergy(m: real, v: Vec): real { m * Norm2(v) }

  /** Twice the kinetic energy of every particle. */
  ghost function DoubleKinetics(vs: seq<Vec>, ms: seq<real>): (r: seq<real>)
    requires |ms| == |vs|
    ensures |r| == |vs| && forall i :: 0 <= i < |r| ==> r[i] == DoubleEnergy(ms[i], vs[i])
  {
    seq(|vs|, i requires 0 <= i < |vs| => DoubleEnergy(ms[i], vs[i]))
  }

  ghost function KineticEnergy(sys: System): real
    requires sys.Valid()
  {
    RealSum(DoubleKinetics(sys.velocities, sys.masses), sys.Count()) * 0.5
  }

  function SoftenedLaw(softening: real, inv: real -> real): Law { Law(softening * softening, inv) }

  /** The energy of all pairs, each counted once. */
  ghost function PotentialEnergy(sys: System, softening: real, inv: real -> real): real
    requires sys.Valid()
  {
    PairEnergy(sys.Matter(), SoftenedLaw(softening, inv), sys.Count(), sys.Count())
  }

  /** No pair is without a softened distance: the formula divides by it. */
  ghost predicate Apart(sys: System, law: Law) {
    forall i, j :: 0 <= i < j < sys.Count() ==> DistSqr(sys.positions[j], sys.positions[i], law) > 0.0
  }

  lemma NormTimes(w: real, a: Vec)
    ensures w * Norm2(a) == w * (a.x * a.x) + w * (a.y * a.y) + w * (a.z * a.z)
  {
  }

  /** Twice the kinetic energy `k` of particles with momentum `p` and mass `m`, seen from a frame that moves with `c`. */
  function SeenFrom(k: real, p: Vec, m: real, c: Vec): real { k - 2.0 * Dot(c, p) + DoubleEnergy(m, c) }

  lemma OneSeenFrom(v: Vec, c: Vec, w: real)
    ensures DoubleEnergy(w, Sub(v, c)) == SeenFrom(DoubleEnergy(w, v), Scale(v, w), w, c)
  {
    ShiftCoordinate(v.x, c.x, w);
    ShiftCoordinate(v.y, c.y, w);
    ShiftCoordinate(v.z, c.z, w);
    NormTimes(w, Sub(v, c));
    NormTimes(w, v);
    NormTimes(w, c);
  }

  lemma ShiftCoordinate(v: real, c: real, w: real)
    ensures w * ((v - c) * (v - c)) == w * (v * v) - 2.0 * (c * (v * w)) + w * (c * c)
  {
  }

  lemma SeenFromAdds(k: real, a: Term, l: real, b: Term, c: Vec)
    ensures SeenFrom(k + l, Plus(a, b).vec, Plus(a, b).scalar, c)
         == SeenFrom(k, a.vec, a.scalar, c) + SeenFrom(l, b.vec, b.scalar, c)
  {
    ProductsAdd(a.scalar, b.scalar, Norm2(c));
    ProductsAdd(a.vec.x, b.vec.x, c.x);
    ProductsAdd(a.vec.y, b.vec.y, c.y);
    ProductsAdd(a.vec.z, b.vec.z, c.z);
  }

  lemma ProductsAdd(a: real, b: real, c: real)
    ensures (a + b) * c == a * c + b * c
  {
  }

  /** An additive function of the summands is that function of the sums. */
  lemma {:induction false} SumsMap(f: (real, Term) -> real, ks: seq<real>, vs: seq<Vec>, ms: seq<real>,
      rs: seq<real>, n: nat)
    requires n <= |ks| && n <= |vs| && n <= |ms| && n <= |rs| && f(0.0, NOTHING) == 0.0
    requires forall k, a, l, b :: f(k + l, Plus(a, b)) == f(k, a) + f(l, b)
    requires forall i :: 0 <= i < n ==> rs[i] == f(ks[i], Term(Scale(vs[i], ms[i]), ms[i]))
    ensures RealSum(rs, n) == f(RealSum(ks, n), WeightedSum(vs, ms, n))
  {
    if n > 0 {
      SumsMap(f, ks, vs, ms, rs, n - 1);
    }
  }

  lemma KineticShift(vs: seq<Vec>, c: Vec, ms: seq<real>, n: nat)
    requires n <= |vs| == |ms|
    ensures RealSum(DoubleKinetics(ShiftedAll(vs, c), ms), n)
         == SeenFrom(RealSum(DoubleKinetics(vs, ms), n), WeightedSum(vs, ms, n).vec, WeightedSum(vs, ms, n).scalar, c)
  {
    var f := (k: real, t: Term) => SeenFrom(k, t.vec, t.scalar, c);
    var ks, rs := DoubleKinetics(vs, ms), DoubleKinetics(ShiftedAll(vs, c), ms);
    NothingSeenFrom(c);
    forall k, a, l, b ensures f(k + l, Plus(a, b)) == f(k, a) + f(l, b) { SeenFromAdds(k, a, l, b, c); }
    forall i | 0 <= i < n ensures rs[i] == f(ks[i], Term(Scale(vs[i], ms[i]), ms[i])) { OneSeenFrom(vs[i], c, ms[i]); }
    SumsMap(f, ks, vs, ms, rs, n);
  }

  lemma NothingSeenFrom(c: Vec)
    ensures SeenFrom(0.0, ZERO, 0.0, c) == 0.0
  {
  }

  lemma SeenFromCenter(k: real, p: Vec, m: real, c: Vec)
    requires m != 0.0 && c == Div(p, m)
    ensures SeenFrom(k, p, m, c) == k - DoubleEnergy(m, c)
  {
    assert p == Scale(c, m);
    NormTimes(m, c);
    CommuteThree(c.x, m);
    CommuteThree(c.y, m);
    CommuteThree(c.z, m);
  }

  lemma CommuteThree(c: real, m: real)
    ensures c * (c * m) == m * (c * c)
  {
  }

  lemma {:induction false} RowEnergyIsRelative(a: Bodies, b: Bodies, law: Law, i: nat, j: nat)
    requires a.Valid() && b.Valid() && a.masses == b.masses && i < a.Count() == b.Count() && j <= a.Count()
    requires forall k, l :: 0 <= k < a.Count() && 0 <= l < a.Count() ==>
      Sub(a.positions[k], a.positions[l]) == Sub(b.positions[k], b.positions[l])
    ensures RowEnergy(a, law, i, j) == RowEnergy(b, law, i, j)
  {
    if j > i + 1 {
      RowEnergyIsRelative(a, b, law, i, j - 1);
      assert PairPull(a, law, i, j - 1) == PairPull(b, law, i, j - 1);
    }
  }

  lemma {:induction false} PairEnergyIsRelative(a: Bodies, b: Bodies, law: Law, i: nat)
    requires a.Valid() && b.Valid() && a.masses == b.masses && i <= a.Count() == b.Count()
    requires forall k, l :: 0 <= k < a.Count() && 0 <= l < a.Count() ==>
      Sub(a.positions[k], a.positions[l]) == Sub(b.positions[k], b.positions[l])
    ensures PairEnergy(a, law, i, a.Count()) == PairEnergy(b, law, i, b.Count())
  {
    if i > 0 {
      PairEnergyIsRelative(a, b, law, i - 1);
      RowEnergyIsRelative(a, b, law, i - 1, a.Count());
    }
  }

  /** Centring leaves the potential energy alone and takes the energy of the centre of mass
      off the kinetic energy. */
  lemma CenteringEnergies(sys: System, softening: real, inv: real -> real)
    requires sys.Valid()
    ensures PotentialEnergy(Centered(sys), softening, inv) == PotentialEnergy(sys, softening, inv)
    ensures KineticEnergy(Centered(sys))
         == KineticEnergy(sys) - DoubleEnergy(TotalMass(sys), CenterOf(sys).velocity) * 0.5
  {
    var c, m := CenterOf(sys), TotalMass(sys);
    var k := RealSum(DoubleKinetics(sys.velocities, sys.masses), sys.Count());
    PairEnergyIsRelative(Centered(sys).Matter(), sys.Matter(), SoftenedLaw(softening, inv), sys.Count());
    KineticShift(sys.velocities, c.velocity, sys.masses, sys.Count());
    SumsAreConserved(sys);
    if m != 0.0 {
      SeenFromCenter(k, MomentumSum(sys).vec, m, c.velocity);
    } else {
      assert ShiftedAll(sys.velocities, c.velocity) == sys.velocities;
      ZeroTimes(m, Norm2(c.velocity));
    }
  }

  lemma ZeroTimes(a: real, b: real)
    requires a == 0.0
    ensures a * b == 0.0
  {
  }
}
