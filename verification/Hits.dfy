/** The individual time-step simulator: predict everybody, correct one particle, schedule it again. */
module Hits {
  import opened Options
  import opened Vectors
  import opened Systems
  import opened Gravity
  import opened Hermite
  import opened Schedule
  import Henon
  import HenonUnits

  // ---- one particle ----

  /** The motion of a particle at its own time, coordinate by coordinate. */
  datatype Orbit = Orbit(x: Taylor, y: Taylor, z: Taylor) {
    function Position(): Vec { Vec(x.x, y.x, z.x) }

    function Velocity(): Vec { Vec(x.v, y.v, z.v) }

    function Acceleration(): Vec { Vec(x.a, y.a, z.a) }

    function Jerk(): Vec { Vec(x.j, y.j, z.j) }

    function Snap(): Vec { Vec(x.s, y.s, z.s) }

    function Crackle(): Vec { Vec(x.c, y.c, z.c) }

    /** Position and velocity `dt` later, up to the jerk. */
    function PredictedPosition(dt: real): Vec { Vec(x.PredictX(dt), y.PredictX(dt), z.PredictX(dt)) }

    function PredictedVelocity(dt: real): Vec { Vec(x.PredictV(dt), y.PredictV(dt), z.PredictV(dt)) }

    /** Position and velocity `dt` later, up to the crackle. */
    function SyncedPosition(dt: real): Vec { Vec(x.XAt(dt), y.XAt(dt), z.XAt(dt)) }

    function SyncedVelocity(dt: real): Vec { Vec(x.VAt(dt), y.VAt(dt), z.VAt(dt)) }

    /** After the correction with the acceleration and jerk found `dt` later. */
    function Correct(dt: real, acc: Vec, jrk: Vec): Orbit
      requires dt != 0.0
    {
      Orbit(Ends(x, acc.x, jrk.x).Corrected(dt), Ends(y, acc.y, jrk.y).Corrected(dt), Ends(z, acc.z, jrk.z).Corrected(dt))
    }
  }

  /** Synchronizing a corrected particle back to the time of its previous correction returns the position
      and velocity it had then, exactly. */
  lemma SyncBackIsExact(o: Orbit, dt: real, acc: Vec, jrk: Vec)
    requires dt != 0.0
    ensures o.Correct(dt, acc, jrk).SyncedPosition(-dt) == o.Position()
    ensures o.Correct(dt, acc, jrk).SyncedVelocity(-dt) == o.Velocity()
  {
    CorrectionLosesNothing(Ends(o.x, acc.x, jrk.x), dt, -dt);
    CorrectionLosesNothing(Ends(o.y, acc.y, jrk.y), dt, -dt);
    CorrectionLosesNothing(Ends(o.z, acc.z, jrk.z), dt, -dt);
  }

  // ---- evaluation ----

  function DistInv(sys: System, law: Law, i: nat, j: nat): real
    requires sys.Valid() && i < sys.Count() && j < sys.Count()
  {
    law.inv(DistSqr(sys.positions[j], sys.positions[i], law))
  }

  /** Acceleration of `i` towards `j`; no distance is skipped here. */
  function PairAcceleration(sys: System, law: Law, i: nat, j: nat): Vec
    requires sys.Valid() && i < sys.Count() && j < sys.Count()
  {
    var distInv := DistInv(sys, law, i, j);
    Scale(Scale(Sub(sys.positions[j], sys.positions[i]), sys.masses[j]), Cubed(distInv))
  }

  function Approach(dot: real, distInv: real): real { 3.0 * dot * distInv * distInv }

  /** The vector that the jerk of a pair points along. */
  function JerkTerm(r: Vec, v: Vec, distInv: real): Vec { Sub(v, Scale(r, Approach(Dot(r, v), distInv))) }

  function PairJerk(sys: System, law: Law, i: nat, j: nat): Vec
    requires sys.Valid() && i < sys.Count() && j < sys.Count()
  {
    var r := Sub(sys.positions[j], sys.positions[i]);
    var v := Sub(sys.velocities[j], sys.velocities[i]);
    var distInv := DistInv(sys, law, i, j);
    Scale(Scale(JerkTerm(r, v, distInv), sys.masses[j]), Cubed(distInv))
  }

  /** Acceleration and jerk of `i` from the particles before `n`. */
  ghost function AccelerationFrom(sys: System, law: Law, i: nat, n: nat): Vec
    requires sys.Valid() && i < sys.Count() && n <= sys.Count()
  {
    if n == 0 then ZERO
    else if n - 1 == i then AccelerationFrom(sys, law, i, n - 1)
    else Add(AccelerationFrom(sys, law, i, n - 1), PairAcceleration(sys, law, i, n - 1))
  }

  ghost function JerkFrom(sys: System, law: Law, i: nat, n: nat): Vec
    requires sys.Valid() && i < sys.Count() && n <= sys.Count()
  {
    if n == 0 then ZERO
    else if n - 1 == i then JerkFrom(sys, law, i, n - 1)
    else Add(JerkFrom(sys, law, i, n - 1), PairJerk(sys, law, i, n - 1))
  }

  /** When no two particles meet, the evaluator finds the acceleration of direct summation. */
  lemma {:induction false} EvaluatesDirectPull(sys: System, law: Law, i: nat, n: nat)
    requires sys.Valid() && i < sys.Count() && n <= sys.Count()
    requires forall j :: 0 <= j < sys.Count() && j != i ==> DistSqr(sys.positions[j], sys.positions[i], law) > 0.0
    ensures AccelerationFrom(sys, law, i, n) == Total(Pulls(sys.Matter(), law, i), All(sys.Count()), n).vec
  {
    if n > 0 {
      var j := n - 1;
      EvaluatesDirectPull(sys, law, i, j);
      assert j in All(sys.Count());
      var pulls := Pulls(sys.Matter(), law, i);
      assert Total(pulls, All(sys.Count()), n) == Plus(Total(pulls, All(sys.Count()), j), pulls[j]);
      if j == i {
        PlusNothing(Total(pulls, All(sys.Count()), j));
      } else {
        PairAccelerationIsPull(sys, law, i, j);
      }
    }
  }

  lemma PairAccelerationIsPull(sys: System, law: Law, i: nat, j: nat)
    requires sys.Valid() && i < sys.Count() && j < sys.Count() && i != j
    requires DistSqr(sys.positions[j], sys.positions[i], law) > 0.0
    ensures PairAcceleration(sys, law, i, j) == PairPull(sys.Matter(), law, i, j).vec
  {
  }

  method CalculateAccJrk(sys: System, law: Law, i: nat) returns (acc: Vec, jrk: Vec)
    requires sys.Valid() && i < sys.Count()
    ensures acc == AccelerationFrom(sys, law, i, sys.Count()) && jrk == JerkFrom(sys, law, i, sys.Count())
  {
    acc, jrk := ZERO, ZERO;
    for j := 0 to sys.Count()
      invariant acc == AccelerationFrom(sys, law, i, j) && jrk == JerkFrom(sys, law, i, j)
    {
      if j == i {
        continue;
      }
      acc := Add(acc, PairAcceleration(sys, law, i, j));
      jrk := Add(jrk, PairJerk(sys, law, i, j));
    }
  }

  // ---- time steps ----

  function Norm(v: Vec, law: Law): real { Root(law.inv, Norm2(v)) }

  /** The first step from the norms of acceleration and jerk. */
  function FirstLength(a: real, j: real, eta: real): real { if a == 0.0 || j == 0.0 then eta else eta * a / j }

  /** The first step of a particle. */
  function FirstStep(acc: Vec, jrk: Vec, law: Law, eta: real): real {
    FirstLength(Norm(acc, law), Norm(jrk, law), eta)
  }

  // ---- two bodies share their first step ----

  lemma RootScales(n: real, n': real, m: real, inv: real -> real)
    requires InverseRoot(inv) && n >= 0.0 && n' >= 0.0 && m > 0.0 && n' == m * m * n
    ensures Root(inv, n') == m * Root(inv, n)
  {
    RootSquares(inv, n);
    RootSquares(inv, n');
    ScaledRoot(m, Root(inv, n), n, n', Root(inv, n'));
  }

  lemma NormScales(v: Vec, m: real, law: Law)
    requires law.Valid() && m > 0.0
    ensures Norm(Scale(v, m), law) == m * Norm(v, law)
  {
    Norm2Positive(v);
    Norm2Positive(Scale(v, m));
    ScaledNorm2(v, m);
    RootScales(Norm2(v), Norm2(Scale(v, m)), m, law.inv);
  }

  lemma ScaledNorm2(v: Vec, m: real)
    ensures Norm2(Scale(v, m)) == m * m * Norm2(v)
  {
    ScaledSquare(v.x, m);
    ScaledSquare(v.y, m);
    ScaledSquare(v.z, m);
    SumOfThree(m * m, v.x * v.x, v.y * v.y, v.z * v.z);
  }

  lemma ScaledSquare(a: real, m: real)
    ensures a * m * (a * m) == m * m * (a * a)
  {
  }

  lemma SumOfThree(k: real, a: real, b: real, c: real)
    ensures k * (a + b + c) == k * a + k * b + k * c
  {
  }

  lemma ScaledRoot(m: real, r: real, n: real, n': real, r': real)
    requires m > 0.0 && r >= 0.0 && r' >= 0.0 && r * r == n && r' * r' == n' && n' == m * m * n
    ensures r' == m * r
  {
    ProductNonNegative(m, r);
    ScaledSquare(r, m);
    RootUnique(r', m * r);
  }

  lemma QuotientScales(eta: real, a: real, b: real, m: real)
    requires b != 0.0 && m != 0.0
    ensures m * b != 0.0 && eta * (m * a) / (m * b) == eta * a / b
  {
    var q := eta * a / b;
    assert q * b == eta * a;
    if m * b == 0.0 {
      ZeroProduct(m, b);
    }
    assert q * (m * b) == m * (q * b);
    assert eta * (m * a) == m * (eta * a);
    QuotientIs(eta * (m * a), m * b, q);
  }

  lemma ZeroProduct(a: real, b: real)
    requires a * b == 0.0 && a != 0.0
    ensures b == 0.0
  {
  }

  lemma TimesZero(a: real, b: real)
    requires b == 0.0
    ensures a * b == 0.0
  {
  }

  lemma QuotientIs(a: real, b: real, q: real)
    requires b != 0.0 && q * b == a
    ensures a / b == q
  {
  }

  lemma FirstLengthScales(a: real, j: real, m: real, eta: real)
    requires m > 0.0
    ensures FirstLength(m * a, m * j, eta) == FirstLength(a, j, eta)
  {
    if a == 0.0 {
      TimesZero(m, a);
    } else if j == 0.0 {
      TimesZero(m, j);
    } else {
      if m * a == 0.0 {
        ZeroProduct(m, a);
      }
      QuotientScales(eta, a, j, m);
    }
  }

  /** The first step does not depend on a common factor of acceleration and jerk. */
  lemma FirstStepScales(acc: Vec, jrk: Vec, m: real, law: Law, eta: real)
    requires law.Valid() && m > 0.0
    ensures FirstStep(Scale(acc, m), Scale(jrk, m), law, eta) == FirstStep(acc, jrk, law, eta)
  {
    NormScales(acc, m, law);
    NormScales(jrk, m, law);
    FirstLengthScales(Norm(acc, law), Norm(jrk, law), m, eta);
  }

  lemma FirstStepReverses(acc: Vec, jrk: Vec, law: Law, eta: real)
    ensures FirstStep(Neg(acc), Neg(jrk), law, eta) == FirstStep(acc, jrk, law, eta)
  {
    assert Norm2(Neg(acc)) == Norm2(acc) && Norm2(Neg(jrk)) == Norm2(jrk);
  }

  /** Acceleration and jerk per mass of the partner at relative position `r` and velocity `v`. */
  function UnitAcceleration(r: Vec, distInv: real): Vec { Scale(r, Cubed(distInv)) }

  function UnitJerk(r: Vec, v: Vec, distInv: real): Vec {
    Scale(JerkTerm(r, v, distInv), Cubed(distInv))
  }

  lemma UnitsReverse(r: Vec, v: Vec, distInv: real)
    ensures UnitAcceleration(Neg(r), distInv) == Neg(UnitAcceleration(r, distInv))
    ensures UnitJerk(Neg(r), Neg(v), distInv) == Neg(UnitJerk(r, v, distInv))
  {
    assert Dot(Neg(r), Neg(v)) == Dot(r, v);
    NegScale(r, Approach(Dot(r, v), distInv));
    assert JerkTerm(Neg(r), Neg(v), distInv) == Neg(JerkTerm(r, v, distInv));
    NegScale(JerkTerm(r, v, distInv), Cubed(distInv));
    NegScale(r, Cubed(distInv));
  }

  lemma NegScale(v: Vec, k: real)
    ensures Scale(Neg(v), k) == Neg(Scale(v, k))
  {
    NegTimes(v.x, k);
    NegTimes(v.y, k);
    NegTimes(v.z, k);
  }

  lemma NegTimes(a: real, k: real)
    ensures (-a) * k == -(a * k)
  {
  }

  lemma ScalesSwap(v: Vec, m: real, c: real)
    ensures Scale(Scale(v, m), c) == Scale(Scale(v, c), m)
  {
    ScaleTwice(v, m, c);
    ScaleTwice(v, c, m);
    assert m * c == c * m;
  }

  /** What two bodies do to each other. */
  lemma OfTwo(sys: System, law: Law, r: Vec, v: Vec, distInv: real)
    requires sys.Valid() && sys.Count() == 2 && distInv == DistInv(sys, law, 0, 1)
    requires r == Sub(sys.positions[1], sys.positions[0]) && v == Sub(sys.velocities[1], sys.velocities[0])
    ensures AccelerationFrom(sys, law, 0, 2) == Scale(UnitAcceleration(r, distInv), sys.masses[1])
    ensures AccelerationFrom(sys, law, 1, 2) == Scale(UnitAcceleration(Neg(r), distInv), sys.masses[0])
    ensures JerkFrom(sys, law, 0, 2) == Scale(UnitJerk(r, v, distInv), sys.masses[1])
    ensures JerkFrom(sys, law, 1, 2) == Scale(UnitJerk(Neg(r), Neg(v), distInv), sys.masses[0])
  {
    DistSqrSymmetric(sys.positions[0], sys.positions[1], law);
    assert Sub(sys.positions[0], sys.positions[1]) == Neg(r) && Sub(sys.velocities[0], sys.velocities[1]) == Neg(v);
    PairsOfUnits(sys, law, 0, 1, r, v, distInv);
    PairsOfUnits(sys, law, 1, 0, Neg(r), Neg(v), distInv);
    OnlyOther(sys, law);
  }

  lemma PairsOfUnits(sys: System, law: Law, i: nat, j: nat, r: Vec, v: Vec, distInv: real)
    requires sys.Valid() && i < sys.Count() && j < sys.Count()
    requires r == Sub(sys.positions[j], sys.positions[i]) && v == Sub(sys.velocities[j], sys.velocities[i])
    requires distInv == DistInv(sys, law, i, j)
    ensures PairAcceleration(sys, law, i, j) == Scale(UnitAcceleration(r, distInv), sys.masses[j])
    ensures PairJerk(sys, law, i, j) == Scale(UnitJerk(r, v, distInv), sys.masses[j])
  {
    ScalesSwap(r, sys.masses[j], Cubed(distInv));
    ScalesSwap(JerkTerm(r, v, distInv), sys.masses[j], Cubed(distInv));
  }

  lemma ZeroPlus(v: Vec)
    ensures Add(ZERO, v) == v
  {
  }

  lemma OnlyOther(sys: System, law: Law)
    requires sys.Valid() && sys.Count() == 2
    ensures AccelerationFrom(sys, law, 0, 2) == PairAcceleration(sys, law, 0, 1)
    ensures AccelerationFrom(sys, law, 1, 2) == PairAcceleration(sys, law, 1, 0)
    ensures JerkFrom(sys, law, 0, 2) == PairJerk(sys, law, 0, 1)
    ensures JerkFrom(sys, law, 1, 2) == PairJerk(sys, law, 1, 0)
  {
    assert AccelerationFrom(sys, law, 0, 0) == ZERO && JerkFrom(sys, law, 0, 0) == ZERO;
    assert AccelerationFrom(sys, law, 0, 1) == ZERO;
    assert JerkFrom(sys, law, 0, 1) == ZERO;
    ZeroPlus(PairAcceleration(sys, law, 0, 1));
    ZeroPlus(PairAcceleration(sys, law, 1, 0));
    ZeroPlus(PairJerk(sys, law, 0, 1));
    ZeroPlus(PairJerk(sys, law, 1, 0));
    assert AccelerationFrom(sys, law, 1, 2) == AccelerationFrom(sys, law, 1, 1);
    assert JerkFrom(sys, law, 1, 2) == JerkFrom(sys, law, 1, 1);
  }

  ghost function FirstStepOf(sys: System, law: Law, eta: real, i: nat): real
    requires sys.Valid() && i < sys.Count()
  {
    FirstStep(AccelerationFrom(sys, law, i, sys.Count()), JerkFrom(sys, law, i, sys.Count()), law, eta)
  }

  ghost function FirstSteps(sys: System, law: Law, eta: real): (r: seq<real>)
    requires sys.Valid()
    ensures |r| == sys.Count() && forall i :: 0 <= i < |r| ==> r[i] == FirstStepOf(sys, law, eta, i)
  {
    seq(sys.Count(), i requires 0 <= i < sys.Count() => FirstStepOf(sys, law, eta, i))
  }

  /** Two bodies of whatever positive masses, positions and velocities have the same first step. */
  lemma TwoBodiesShareFirstStep(sys: System, law: Law, eta: real)
    requires sys.Valid() && sys.Count() == 2 && law.Valid() && sys.masses[0] > 0.0 && sys.masses[1] > 0.0
    ensures FirstStepOf(sys, law, eta, 0) == FirstStepOf(sys, law, eta, 1)
  {
    var r, v := Sub(sys.positions[1], sys.positions[0]), Sub(sys.velocities[1], sys.velocities[0]);
    var distInv := DistInv(sys, law, 0, 1);
    OfTwo(sys, law, r, v, distInv);
    UnitsReverse(r, v, distInv);
    var a, j := UnitAcceleration(r, distInv), UnitJerk(r, v, distInv);
    FirstStepScales(a, j, sys.masses[1], law, eta);
    FirstStepScales(Neg(a), Neg(j), sys.masses[0], law, eta);
    FirstStepReverses(a, j, law, eta);
  }

  /** In every run that starts from two bodies of positive mass the first one is never scheduled: it is never
      updated, and its own time stays at zero. */
  lemma TwoBodiesLoseOne(initial: System, law: Law, eta: real, run: seq<Clock>, steps: seq<real>, n: nat)
    requires law.Valid() && HenonUnits.Scalable(initial, law.softeningSqr, law.inv)
    requires initial.Count() == 2 && PositiveMasses(initial.Matter()) && IsRun(run, steps) && n < |run|
    requires IsFirstClock(run[0], FirstSteps(HenonUnits.Normalized(initial, law.softeningSqr, law.inv), law, eta))
    ensures 0 !in run[n].Scheduled() && run[n].Count() == 2 && run[n].times[0] == 0.0
  {
    var sys := HenonUnits.Normalized(initial, law.softeningSqr, law.inv);
    HenonUnits.MassesStayPositive(initial, law.softeningSqr, law.inv);
    TwoBodiesShareFirstStep(sys, law, eta);
    SharedKeyLosesOne(run[0], FirstSteps(sys, law, eta), 0, 1);
    RunKeepsValid(run, steps, 0, n);
  }

  /** The derivatives of every particle. */
  ghost predicate Evaluated(sys: System, law: Law, accs: seq<Vec>, jrks: seq<Vec>) {
    && sys.Valid() && |accs| == |jrks| == sys.Count()
    && forall i :: 0 <= i < sys.Count() ==>
      accs[i] == AccelerationFrom(sys, law, i, sys.Count()) && jrks[i] == JerkFrom(sys, law, i, sys.Count())
  }

  function Zeros(n: nat): (r: seq<Vec>)
    ensures |r| == n && forall i :: 0 <= i < n ==> r[i] == ZERO
  {
    seq(n, _ => ZERO)
  }

  // ---- later steps ----

  /** The step that the derivatives suggest, from the norms of acceleration, jerk, snap and crackle
      and the squared norms of jerk and snap. */
  function StepLength(a: real, j: real, s: real, c: real, j2: real, s2: real, eta: real, inv: real -> real): real {
    var p := a * s + j2;
    var q := j * c + s2;
    if p != 0.0 && q != 0.0 then Root(inv, p * eta / q) else eta
  }

  function SuggestedStep(o: Orbit, law: Law, eta: real): real {
    StepLength(Norm(o.Acceleration(), law), Norm(o.Jerk(), law), Norm(o.Snap(), law), Norm(o.Crackle(), law),
               Norm2(o.Jerk()), Norm2(o.Snap()), eta, law.inv)
  }

  /** The next step of a particle: at most 30 % longer than the last. */
  function NextStep(o: Orbit, last: real, law: Law, eta: real): real {
    Min(last * 1.3, SuggestedStep(o, law, eta))
  }

  lemma NormNonNegative(v: Vec, law: Law)
    requires law.Valid()
    ensures Norm(v, law) >= 0.0
  {
    Norm2Positive(v);
    RootSquares(law.inv, Norm2(v));
  }

  lemma QuotientPositive(a: real, b: real)
    requires a > 0.0 && b > 0.0
    ensures a / b > 0.0
  {
  }

  lemma FirstStepPositive(acc: Vec, jrk: Vec, law: Law, eta: real)
    requires law.Valid() && eta > 0.0
    ensures FirstStep(acc, jrk, law, eta) > 0.0
  {
    NormNonNegative(acc, law);
    NormNonNegative(jrk, law);
    var a, j := Norm(acc, law), Norm(jrk, law);
    if a != 0.0 && j != 0.0 {
      var p := ProductPositive(eta, a);
      QuotientPositive(p, j);
    }
  }

  lemma RootPositive(inv: real -> real, d: real)
    requires InverseRoot(inv) && d > 0.0
    ensures Root(inv, d) > 0.0
  {
    RootSquares(inv, d);
  }

  lemma StepLengthPositive(a: real, j: real, s: real, c: real, j2: real, s2: real, eta: real, inv: real -> real)
    requires a >= 0.0 && j >= 0.0 && s >= 0.0 && c >= 0.0 && j2 >= 0.0 && s2 >= 0.0 && eta > 0.0
    requires InverseRoot(inv)
    ensures StepLength(a, j, s, c, j2, s2, eta, inv) > 0.0
  {
    ProductNonNegative(a, s);
    ProductNonNegative(j, c);
    var p, q := a * s + j2, j * c + s2;
    if p != 0.0 && q != 0.0 {
      var pe := ProductPositive(p, eta);
      QuotientPositive(pe, q);
      RootPositive(inv, p * eta / q);
    }
  }

  lemma NextStepPositive(o: Orbit, last: real, law: Law, eta: real)
    requires law.Valid() && eta > 0.0 && last > 0.0
    ensures 0.0 < NextStep(o, last, law, eta) <= last * 1.3
  {
    NormNonNegative(o.Acceleration(), law);
    NormNonNegative(o.Jerk(), law);
    NormNonNegative(o.Snap(), law);
    NormNonNegative(o.Crackle(), law);
    Norm2Positive(o.Jerk());
    Norm2Positive(o.Snap());
    StepLengthPositive(Norm(o.Acceleration(), law), Norm(o.Jerk(), law), Norm(o.Snap(), law), Norm(o.Crackle(), law),
                       Norm2(o.Jerk()), Norm2(o.Snap()), eta, law.inv);
  }

  // ---- the simulator ----

  /** What is reported of a system. The energy is computed with the squared softening in place of the softening. */
  ghost function ReportOf(sys: System, law: Law): HenonUnits.Diagnostics
    requires sys.Valid()
  {
    HenonUnits.DiagnosticsOf(sys, Henon.PotentialEnergy(sys, law.softeningSqr, law.inv), law.inv)
  }

  class HitsSimulator {
    const law: Law
    const eta: real

    var system: System
    var temp: System
    var accelerations: seq<Vec>
    var jerks: seq<Vec>
    var snaps: seq<Vec>
    var crackles: seq<Vec>
    var particleTimes: seq<real>
    var particleTimeSteps: seq<real>
    var particleSchedule: map<real, nat>
    var systemTime: real

    ghost function Now(): Clock
      reads this
    {
      Clock(particleSchedule, particleTimes, particleTimeSteps, systemTime)
    }

    ghost predicate HasOrbits()
      reads `system, `accelerations, `jerks, `snaps, `crackles
    {
      system.Valid() && |accelerations| == |jerks| == |snaps| == |crackles| == system.Count()
    }

    ghost predicate Shaped()
      reads this
    {
      && HasOrbits()
      && temp.Valid() && temp.Count() == system.Count()
      && |particleTimes| == |particleTimeSteps| == system.Count()
    }

    ghost predicate Valid()
      reads this
    {
      law.Valid() && eta > 0.0 && Shaped() && Now().Valid()
    }

    /** The motion of particle `i` at its own time. */
    function OrbitOf(i: nat): Orbit
      requires HasOrbits() && i < system.Count()
      reads `system, `accelerations, `jerks, `snaps, `crackles
    {
      var p, v, a, j, s, c := system.positions[i], system.velocities[i],
        accelerations[i], jerks[i], snaps[i], crackles[i];
      Orbit(Taylor(p.x, v.x, a.x, j.x, s.x, c.x),
            Taylor(p.y, v.y, a.y, j.y, s.y, c.y),
            Taylor(p.z, v.z, a.z, j.z, s.z, c.z))
    }

    /** The whole system at `time`. */
    ghost predicate PredictedAt(sys: System, time: real, sync: bool)
      requires HasOrbits() && |particleTimes| == system.Count()
      reads `system, `accelerations, `jerks, `snaps, `crackles, `particleTimes
    {
      && sys.Valid() && sys.Count() == system.Count() && sys.masses == system.masses
      && forall i :: 0 <= i < sys.Count() ==>
        var o, dt := OrbitOf(i), time - particleTimes[i];
        && sys.positions[i] == (if sync then o.SyncedPosition(dt) else o.PredictedPosition(dt))
        && sys.velocities[i] == (if sync then o.SyncedVelocity(dt) else o.PredictedVelocity(dt))
    }

    method PredictSystem(time: real, sync: bool) returns (sys: System)
      requires Shaped()
      ensures PredictedAt(sys, time, sync)
    {
      var positions, velocities := system.positions, system.velocities;
      for i := 0 to system.Count()
        invariant |positions| == |velocities| == system.Count()
        invariant forall j :: 0 <= j < i ==>
          var o, dt := OrbitOf(j), time - particleTimes[j];
          && positions[j] == (if sync then o.SyncedPosition(dt) else o.PredictedPosition(dt))
          && velocities[j] == (if sync then o.SyncedVelocity(dt) else o.PredictedVelocity(dt))
      {
        var o, dt := OrbitOf(i), time - particleTimes[i];
        positions := positions[i := if sync then o.SyncedPosition(dt) else o.PredictedPosition(dt)];
        velocities := velocities[i := if sync then o.SyncedVelocity(dt) else o.PredictedVelocity(dt)];
      }
      sys := System(positions, velocities, system.masses);
    }

    /** Stores the motion of one particle. */
    method SetOrbit(i: nat, o: Orbit)
      requires Shaped() && i < system.Count()
      modifies `system, `accelerations, `jerks, `snaps, `crackles
      ensures Shaped() && system.Count() == old(system.Count()) && system.masses == old(system.masses)
      ensures OrbitOf(i) == o
      ensures forall j :: 0 <= j < system.Count() && j != i ==> OrbitOf(j) == old(OrbitOf(j))
    {
      system := System(system.positions[i := o.Position()], system.velocities[i := o.Velocity()], system.masses);
      accelerations := accelerations[i := o.Acceleration()];
      jerks := jerks[i := o.Jerk()];
      snaps := snaps[i := o.Snap()];
      crackles := crackles[i := o.Crackle()];
    }

    /** Corrects particle `i` from its prediction in `temp` and the derivatives found there. */
    method CorrectParticle(i: nat, acc: Vec, jrk: Vec)
      requires Shaped() && i < system.Count() && systemTime - particleTimes[i] != 0.0
      requires temp.positions[i] == OrbitOf(i).PredictedPosition(systemTime - particleTimes[i])
      requires temp.velocities[i] == OrbitOf(i).PredictedVelocity(systemTime - particleTimes[i])
      modifies `system, `accelerations, `jerks, `snaps, `crackles
      ensures Shaped() && system.Count() == old(system.Count()) && system.masses == old(system.masses)
      ensures OrbitOf(i) == old(OrbitOf(i)).Correct(systemTime - particleTimes[i], acc, jrk)
      ensures forall j :: 0 <= j < system.Count() && j != i ==> OrbitOf(j) == old(OrbitOf(j))
    {
      var dt := systemTime - particleTimes[i];
      var o, p, v := OrbitOf(i), temp.positions[i], temp.velocities[i];
      SetOrbit(i, Orbit(Ends(o.x, acc.x, jrk.x).CorrectedFrom(p.x, v.x, dt),
                        Ends(o.y, acc.y, jrk.y).CorrectedFrom(p.y, v.y, dt),
                        Ends(o.z, acc.z, jrk.z).CorrectedFrom(p.z, v.z, dt)));
    }

    method UpdateParticleTimeStep(i: nat)
      requires law.Valid() && eta > 0.0 && Shaped() && i < system.Count() && particleTimeSteps[i] > 0.0
      modifies `particleTimeSteps
      ensures particleTimeSteps ==
        old(particleTimeSteps)[i := NextStep(OrbitOf(i), old(particleTimeSteps)[i], law, eta)]
      ensures particleTimeSteps[i] > 0.0
    {
      var step := NextStep(OrbitOf(i), particleTimeSteps[i], law, eta);
      NextStepPositive(OrbitOf(i), particleTimeSteps[i], law, eta);
      particleTimeSteps := particleTimeSteps[i := step];
    }

    /** At the system time, where the step of particle `i` ends: predict everybody, evaluate and correct
        particle `i`. */
    method PredictAndCorrect(i: nat) returns (ghost pred: System)
      requires Shaped() && i < system.Count()
      requires systemTime - particleTimes[i] == particleTimeSteps[i] > 0.0
      modifies `system, `temp, `accelerations, `jerks, `snaps, `crackles
      ensures Shaped() && system.Count() == old(system.Count()) && system.masses == old(system.masses)
      ensures old(PredictedAt(pred, systemTime, false))
      ensures OrbitOf(i) == old(OrbitOf(i)).Correct(particleTimeSteps[i],
        AccelerationFrom(pred, law, i, system.Count()), JerkFrom(pred, law, i, system.Count()))
      ensures forall j :: 0 <= j < system.Count() && j != i ==> OrbitOf(j) == old(OrbitOf(j))
    {
      temp := PredictSystem(systemTime, false);
      pred := temp;
      var acc, jrk := CalculateAccJrk(temp, law, i);
      CorrectParticle(i, acc, jrk);
    }

    method UpdateParticle(i: nat) returns (ghost pred: System)
      requires law.Valid() && eta > 0.0 && Shaped() && i < system.Count()
      requires systemTime - particleTimes[i] == particleTimeSteps[i] > 0.0
      modifies `system, `temp, `accelerations, `jerks, `snaps, `crackles, `particleTimeSteps
      ensures Shaped() && system.Count() == old(system.Count()) && system.masses == old(system.masses)
      ensures old(PredictedAt(pred, systemTime, false))
      ensures OrbitOf(i) == old(OrbitOf(i)).Correct(old(particleTimeSteps)[i],
        AccelerationFrom(pred, law, i, system.Count()), JerkFrom(pred, law, i, system.Count()))
      ensures forall j :: 0 <= j < system.Count() && j != i ==> OrbitOf(j) == old(OrbitOf(j))
      ensures particleTimeSteps ==
        old(particleTimeSteps)[i := NextStep(OrbitOf(i), old(particleTimeSteps)[i], law, eta)]
      ensures particleTimeSteps[i] > 0.0
    {
      pred := PredictAndCorrect(i);
      UpdateParticleTimeStep(i);
    }

    /** The earliest key. */
    method FirstKey() returns (key: real)
      requires Valid() && particleSchedule != map[]
      ensures IsFirst(key, particleSchedule)
      ensures particleSchedule[key] < system.Count()
      ensures key - particleTimes[particleSchedule[key]] == particleTimeSteps[particleSchedule[key]] > 0.0
    {
      assert particleSchedule.Keys != {};
      ghost var least := FirstExists(particleSchedule.Keys);
      key :| key in particleSchedule && forall k :: k in particleSchedule ==> key <= k;
    }

    /** Moves the entry at `key` one step of its particle further. */
    method Reschedule(key: real, ghost before: Clock)
      requires key in particleSchedule && particleSchedule[key] < |particleTimes|
      requires |particleTimeSteps| == |particleTimes| == |before.steps|
      requires before.schedule == particleSchedule && before.times == particleTimes && systemTime == key
      requires var i := particleSchedule[key]; particleTimeSteps == before.steps[i := particleTimeSteps[i]]
      modifies `particleTimes, `particleSchedule
      ensures |particleTimes| == old(|particleTimes|)
      ensures Now() == Advance(before, key, particleTimeSteps[old(particleSchedule)[key]])
    {
      var i := particleSchedule[key];
      particleSchedule := particleSchedule - {key};
      particleTimes := particleTimes[i := systemTime];
      particleSchedule := Insert(particleSchedule, key + particleTimeSteps[i], i);
    }

    /** The event at `key`: its particle is updated and scheduled again. */
    method RunEvent(key: real) returns (ghost pred: System)
      requires law.Valid() && eta > 0.0 && Shaped()
      requires key in particleSchedule && particleSchedule[key] < system.Count()
      requires key - particleTimes[particleSchedule[key]] == particleTimeSteps[particleSchedule[key]] > 0.0
      modifies `system, `temp, `accelerations, `jerks, `snaps, `crackles,
        `particleTimes, `particleTimeSteps, `particleSchedule, `systemTime
      ensures Shaped() && system.Count() == old(system.Count()) && system.masses == old(system.masses)
      ensures old(PredictedAt(pred, key, false))
      ensures OrbitOf(old(particleSchedule)[key]) ==
        old(OrbitOf(particleSchedule[key])).Correct(old(particleTimeSteps[particleSchedule[key]]),
          AccelerationFrom(pred, law, old(particleSchedule)[key], system.Count()),
          JerkFrom(pred, law, old(particleSchedule)[key], system.Count()))
      ensures forall j :: 0 <= j < system.Count() && j != old(particleSchedule)[key] ==> OrbitOf(j) == old(OrbitOf(j))
      ensures var step := NextStep(OrbitOf(old(particleSchedule)[key]), old(particleTimeSteps[particleSchedule[key]]), law, eta);
        step > 0.0 && Now() == Advance(old(Now()), key, step)
    {
      ghost var before := Now();
      systemTime := key;
      pred := UpdateParticle(particleSchedule[key]);
      Reschedule(key, before);
    }

    /** One event: the particle with the earliest key is updated and scheduled again. */
    method CalculateNextSystemState() returns (ghost first: real, ghost pred: System)
      requires Valid()
      modifies `system, `temp, `accelerations, `jerks, `snaps, `crackles,
        `particleTimes, `particleTimeSteps, `particleSchedule, `systemTime
      ensures Valid() && system.Count() == old(system.Count()) && system.masses == old(system.masses)
      ensures system.Count() == 0 ==> Now() == old(Now())
      ensures system.Count() > 0 ==>
        && IsFirst(first, old(particleSchedule)) && old(PredictedAt(pred, first, false))
        && var i, dt := old(particleSchedule)[first], old(particleTimeSteps)[old(particleSchedule)[first]];
        && i < system.Count()
        && OrbitOf(i) == old(OrbitOf(i)).Correct(dt,
             AccelerationFrom(pred, law, i, system.Count()), JerkFrom(pred, law, i, system.Count()))
        && (forall j :: 0 <= j < system.Count() && j != i ==> OrbitOf(j) == old(OrbitOf(j)))
        && var step := NextStep(OrbitOf(i), dt, law, eta);
        step > 0.0 && Now() == Advance(old(Now()), first, step)
    {
      first, pred := 0.0, system;
      if particleSchedule == map[] {
        return;
      }
      ghost var before := Now();
      var key := FirstKey();
      first := key;
      pred := RunEvent(key);
      EventKeepsValid(before, key, particleTimeSteps[before.schedule[key]]);
    }

    /** Scales the initial system, evaluates every particle and schedules its first step.
        A particle whose first step equals that of a later one is overwritten in the schedule. */
    constructor (law: Law, eta: real, initial: System, buffer: System)
      requires law.Valid() && eta > 0.0 && HenonUnits.Scalable(initial, law.softeningSqr, law.inv)
      requires |buffer.positions| == |buffer.velocities| == initial.Count()
      ensures Valid() && this.law == law && this.eta == eta
      ensures system == HenonUnits.Normalized(initial, law.softeningSqr, law.inv)
      ensures Evaluated(system, law, accelerations, jerks)
      ensures snaps == crackles == Zeros(system.Count())
      ensures IsFirstClock(Now(), FirstSteps(system, law, eta))
      ensures AllScheduled(Now()) <==> Distinct(FirstSteps(system, law, eta))
    {
      var scaled := HenonUnits.ScaleInitial(initial, law);
      var accs, jrks, steps, schedule := FirstEvaluation(scaled, law, eta);
      this.law := law;
      this.eta := eta;
      system := scaled;
      temp := buffer.(masses := scaled.masses);
      systemTime := 0.0;
      accelerations, jerks := accs, jrks;
      snaps, crackles := Zeros(|scaled.positions|), Zeros(|scaled.positions|);
      particleTimes := seq(|scaled.positions|, _ => 0.0);
      particleTimeSteps := steps;
      particleSchedule := schedule;
      new;
      ClockAtFirst(steps);
    }

    /** The clock after initialization. */
    lemma ClockAtFirst(steps: seq<real>)
      requires systemTime == 0.0 && particleTimes == seq(|steps|, _ => 0.0) && particleTimeSteps == steps
      requires IsFirstSchedule(particleSchedule, steps)
      ensures IsFirstClock(Now(), steps)
      ensures AllScheduled(Now()) <==> Distinct(steps)
    {
      MakeFirstClock(particleSchedule, steps, Now());
      FirstClockHoldsAll(Now(), steps);
    }

    /** Derivatives, first steps and first schedule of a system. */
    static method FirstEvaluation(initial: System, law: Law, eta: real)
      returns (accs: seq<Vec>, jrks: seq<Vec>, steps: seq<real>, schedule: map<real, nat>)
      requires law.Valid() && eta > 0.0 && initial.Valid()
      ensures Evaluated(initial, law, accs, jrks) && steps == FirstSteps(initial, law, eta)
      ensures IsFirstSchedule(schedule, steps)
    {
      var n := initial.Count();
      accs, jrks, steps, schedule := Zeros(n), Zeros(n), seq(n, _ => 0.0), map[];
      for i := 0 to n
        invariant |accs| == |jrks| == |steps| == n
        invariant forall j :: 0 <= j < i ==>
          && accs[j] == AccelerationFrom(initial, law, j, n)
          && jrks[j] == JerkFrom(initial, law, j, n)
          && steps[j] == FirstStep(accs[j], jrks[j], law, eta) > 0.0
          && steps[j] in schedule
        invariant forall k :: k in schedule ==> schedule[k] < i && steps[schedule[k]] == k
        invariant forall k :: k in schedule ==> forall j :: schedule[k] < j < i ==> steps[j] != k
      {
        var acc, jrk := CalculateAccJrk(initial, law, i);
        FirstStepPositive(acc, jrk, law, eta);
        var step := FirstStep(acc, jrk, law, eta);
        accs, jrks, steps := accs[i := acc], jrks[i := jrk], steps[i := step];
        schedule := schedule[step := i];
      }
      assert n > 0 ==> steps[0] in schedule;
    }

    /** A report on the whole system at the system time, to full order. */
    method Report() returns (diagnostics: Option<HenonUnits.Diagnostics>)
      requires Valid() && law.softeningSqr > 0.0
      modifies `temp
      ensures Valid() && Now() == old(Now()) && PredictedAt(temp, systemTime, true)
      ensures diagnostics == Some(ReportOf(temp, law))
    {
      temp := PredictSystem(systemTime, true);
      diagnostics := HenonUnits.DiagnoseSoftened(temp, law.softeningSqr, law.inv);
    }

    /** One event. */
    method TakeStep()
      requires Valid()
      modifies `system, `temp, `accelerations, `jerks, `snaps, `crackles,
        `particleTimes, `particleTimeSteps, `particleSchedule, `systemTime
      ensures Valid() && system.Count() == old(system.Count())
      ensures system.Count() > 0 ==> EventAt(old(Now()), Now(), Now().steps[UpdatedBy(old(Now()))])
    {
      ghost var before := Now();
      ghost var first, pred := CalculateNextSystemState();
      if before.Count() > 0 {
        EventIsAdvance(before, first, Now().steps[before.schedule[first]]);
      }
    }

    /** One event; then, if asked for, the whole system at the new system time, to full order, and a report on it. */
    method StepOnce(retrieve: bool, diagnose: bool)
      returns (synced: System, diagnostics: Option<HenonUnits.Diagnostics>)
      requires Valid() && (diagnose ==> law.softeningSqr > 0.0)
      modifies `system, `temp, `accelerations, `jerks, `snaps, `crackles,
        `particleTimes, `particleTimeSteps, `particleSchedule, `systemTime
      ensures Valid() && system.Count() == old(system.Count())
      ensures system.Count() > 0 ==> EventAt(old(Now()), Now(), Now().steps[UpdatedBy(old(Now()))])
      ensures retrieve ==> PredictedAt(synced, systemTime, true)
      ensures diagnose ==> PredictedAt(temp, systemTime, true)
      ensures diagnostics == if diagnose then Some(ReportOf(temp, law)) else None
    {
      TakeStep();
      synced, diagnostics := system, None;
      if retrieve {
        synced := PredictSystem(systemTime, true);
      }
      if diagnose {
        diagnostics := Report();
      }
    }
  }

  lemma CorrectedHere(h: HitsSimulator, sys: System, i: nat, time: real, o: Orbit, dt: real)
    requires h.Shaped() && i < h.system.Count() && h.PredictedAt(sys, time, true)
    requires o == h.OrbitOf(i) && dt == time - h.particleTimes[i]
    ensures sys.positions[i] == o.SyncedPosition(dt) && sys.velocities[i] == o.SyncedVelocity(dt)
  {
  }

  /** After the correction of a particle, the system synchronized to the time of its correction before has it where it
      was then, with the velocity it had. */
  lemma SyncedToThen(h: HitsSimulator, sys: System, i: nat, o: Orbit, dt: real, acc: Vec, jrk: Vec)
    requires h.Shaped() && i < h.system.Count() && dt != 0.0 && h.OrbitOf(i) == o.Correct(dt, acc, jrk)
    requires h.PredictedAt(sys, h.particleTimes[i] - dt, true)
    ensures sys.positions[i] == o.Position() && sys.velocities[i] == o.Velocity()
  {
    CorrectedHere(h, sys, i, h.particleTimes[i] - dt, h.OrbitOf(i), -dt);
    SyncBackIsExact(o, dt, acc, jrk);
  }

  lemma AtOnce(t: Taylor)
    ensures t.XAt(0.0) == t.x == t.PredictX(0.0) && t.VAt(0.0) == t.v == t.PredictV(0.0)
  {
    SumsAtZero(t.x, t.v, t.a, t.j, t.s, t.c);
  }

  /** The system predicted to the own time of a particle, to whatever order, has it as it is stored. */
  lemma PredictedToNow(h: HitsSimulator, sys: System, i: nat, sync: bool)
    requires h.Shaped() && i < h.system.Count() && h.PredictedAt(sys, h.particleTimes[i], sync)
    ensures sys.positions[i] == h.system.positions[i] && sys.velocities[i] == h.system.velocities[i]
  {
    var o := h.OrbitOf(i);
    AtOnce(o.x);
    AtOnce(o.y);
    AtOnce(o.z);
  }

  /** The particle that the next event updates. */
  ghost function UpdatedBy(c: Clock): (i: nat)
    requires c.Valid() && c.Count() > 0
    ensures i < c.Count()
  {
    assert c.schedule.Keys != {};
    assert exists first :: IsFirst(first, c.schedule) by {
      var least := FirstExists(c.schedule.Keys);
      assert IsFirst(least, c.schedule);
    }
    var first :| IsFirst(first, c.schedule);
    c.schedule[first]
  }

  lemma EventIsAdvance(c: Clock, first: real, step: real)
    requires c.Valid() && IsFirst(first, c.schedule) && step > 0.0
    ensures c.Count() > 0 && UpdatedBy(c) == c.schedule[first] && EventAt(c, Advance(c, first, step), step)
  {
    assert c.schedule[first] < c.Count();
  }
}
