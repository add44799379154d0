/** The leapfrog simulator with direct forces, as it changes its state in place. */
module Leapfrog {
  import opened Options
  import opened Vectors
  import opened Systems
  import opened Gravity
  import opened PairForces
  import opened KickDrift
  import HenonUnits

  // ---- the triangular pair loop ----

  /** The partners of `t` seen after all rows before `i`, and row `i` up to column `j`. */
  ghost function Seen(n: nat, t: nat, i: nat, j: nat): set<nat> {
    set p | p in All(n) && p != t && (if p < t then p < i || (p == i && t < j) else t < i || (t == i && p < j))
  }

  lemma PullFromOneMore(sys: Bodies, law: Law, t: nat, s: set<nat>, p: nat)
    requires sys.Valid() && t < sys.Count() && p < sys.Count() && p !in s
    ensures PullFrom(sys, law, t, s + {p}) == Plus(PullFrom(sys, law, t, s), PairPull(sys, law, t, p))
  {
    TotalUnion(Pulls(sys, law, t), s, {p}, sys.Count());
    TotalOne(Pulls(sys, law, t), p, sys.Count());
  }

  /** The pull on `t` from the partners seen when the pair loop stands at row `i`, column `j`. */
  ghost function SeenPull(sys: Bodies, law: Law, t: nat, i: nat, j: nat): Term
    requires sys.Valid() && t < sys.Count()
  {
    PullFrom(sys, law, t, Seen(sys.Count(), t, i, j))
  }

  /** One more pair adds one partner to `i` and to `j`, and to no other particle. */
  lemma SeenPair(sys: Bodies, law: Law, t: nat, i: nat, j: nat)
    requires sys.Valid() && t < sys.Count() && i < j < sys.Count()
    ensures SeenPull(sys, law, t, i, j + 1) ==
      if t == i then Plus(SeenPull(sys, law, t, i, j), PairPull(sys, law, i, j))
      else if t == j then Plus(SeenPull(sys, law, t, i, j), PairPull(sys, law, j, i))
      else SeenPull(sys, law, t, i, j)
  {
    var n := sys.Count();
    var before, after := Seen(n, t, i, j), Seen(n, t, i, j + 1);
    if t == i {
      assert after == before + {j};
      PullFromOneMore(sys, law, t, before, j);
    } else if t == j {
      assert after == before + {i};
      PullFromOneMore(sys, law, t, before, i);
    } else {
      assert after == before;
    }
  }

  lemma SeenRow(sys: Bodies, law: Law, t: nat, i: nat)
    requires sys.Valid() && t < sys.Count() && i < sys.Count()
    ensures SeenPull(sys, law, t, i, sys.Count()) == SeenPull(sys, law, t, i + 1, i + 2)
  {
    assert Seen(sys.Count(), t, i, sys.Count()) == Seen(sys.Count(), t, i + 1, i + 2);
  }

  /** A particle does not pull itself. */
  lemma PullFromOthers(sys: Bodies, law: Law, t: nat)
    requires sys.Valid() && t < sys.Count()
    ensures DirectPull(sys, law, t) == PullFrom(sys, law, t, All(sys.Count()) - {t})
  {
    var others := All(sys.Count()) - {t};
    assert others + {t} == All(sys.Count());
    PullFromOneMore(sys, law, t, others, t);
    PlusNothing(PullFrom(sys, law, t, others));
  }

  /** Before the loop nobody has been seen; after it, everybody else. */
  lemma SeenEnds(sys: Bodies, law: Law, t: nat)
    requires sys.Valid() && t < sys.Count()
    ensures SeenPull(sys, law, t, 0, 1) == NOTHING
    ensures SeenPull(sys, law, t, sys.Count(), sys.Count() + 1) == DirectPull(sys, law, t)
  {
    var n := sys.Count();
    assert Seen(n, t, 0, 1) == {};
    TotalEmpty(Pulls(sys, law, t), n);
    assert Seen(n, t, n, n + 1) == All(n) - {t};
    PullFromOthers(sys, law, t);
  }

  /** The accelerations of both partners of a pair, and the energy, after the pair is added. */
  function PairKernel(sys: Bodies, law: Law, i: nat, j: nat, accI: Vec, accJ: Vec, energy: real): (Vec, Vec, real)
    requires sys.Valid() && i < j < sys.Count()
  {
    var r := Sub(sys.positions[j], sys.positions[i]);
    var distSqr := Norm2(r) + law.softeningSqr;
    if distSqr <= 0.0 then (accI, accJ, energy)
    else
      var distInv := law.inv(distSqr);
      var cubed := Cubed(distInv);
      (Add(accI, Scale(Scale(r, sys.masses[j]), cubed)),
       Sub(accJ, Scale(Scale(r, sys.masses[i]), cubed)),
       energy - sys.masses[i] * sys.masses[j] * distInv)
  }

  /** The pulls of a pair on each other, with one inverse distance. */
  lemma PairPulls(sys: Bodies, law: Law, i: nat, j: nat, distInv: real)
    requires sys.Valid() && i < j < sys.Count() && DistSqr(sys.positions[j], sys.positions[i], law) > 0.0
    requires distInv == law.inv(DistSqr(sys.positions[j], sys.positions[i], law))
    ensures PairPull(sys, law, i, j) ==
      Term(Scale(Scale(Sub(sys.positions[j], sys.positions[i]), sys.masses[j]), Cubed(distInv)),
           -(sys.masses[i] * sys.masses[j] * distInv))
    ensures PairPull(sys, law, j, i).vec ==
      Scale(Scale(Sub(sys.positions[i], sys.positions[j]), sys.masses[i]), Cubed(distInv))
  {
    DistSqrSymmetric(sys.positions[i], sys.positions[j], law);
  }

  lemma PairKernelMeaning(sys: Bodies, law: Law, i: nat, j: nat, accI: Vec, accJ: Vec, energy: real)
    requires sys.Valid() && i < j < sys.Count()
    ensures PairKernel(sys, law, i, j, accI, accJ, energy).0 == Add(accI, PairPull(sys, law, i, j).vec)
    ensures PairKernel(sys, law, i, j, accI, accJ, energy).1 == Add(accJ, PairPull(sys, law, j, i).vec)
    ensures PairKernel(sys, law, i, j, accI, accJ, energy).2 == energy + PairPull(sys, law, i, j).scalar
  {
    var p, q := sys.positions[i], sys.positions[j];
    var d := DistSqr(q, p, law);
    if d <= 0.0 {
      DistSqrSymmetric(p, q, law);
      AddNothing(accI);
      AddNothing(accJ);
    } else {
      PairPulls(sys, law, i, j, law.inv(d));
      OppositePull(accJ, p, q, sys.masses[i], Cubed(law.inv(d)));
    }
  }

  /** The accelerations while the pair loop stands at row `i`, column `j`. */
  ghost predicate Accumulated(accs: seq<Vec>, sys: Bodies, law: Law, i: nat, j: nat)
    requires sys.Valid()
  {
    && |accs| == sys.Count()
    && forall t :: 0 <= t < |accs| ==> accs[t] == SeenPull(sys, law, t, i, j).vec
  }

  /** Before the pair loop no particle has been accelerated; after it, every one fully. */
  lemma NothingSeen(sys: Bodies, law: Law, accs: seq<Vec>)
    requires sys.Valid() && 0 < |accs| == sys.Count() && forall t :: 0 <= t < |accs| ==> accs[t] == ZERO
    ensures Accumulated(accs, sys, law, 0, 1)
  {
    forall t | 0 <= t < |accs| ensures accs[t] == SeenPull(sys, law, t, 0, 1).vec {
      SeenEnds(sys, law, t);
    }
  }

  lemma AllSeen(sys: Bodies, law: Law, accs: seq<Vec>)
    requires sys.Valid() && law.Valid() && Accumulated(accs, sys, law, sys.Count(), sys.Count() + 1)
    ensures accs == Accelerations(Direct(law), sys)
  {
    forall t | 0 <= t < |accs| ensures accs[t] == Accelerations(Direct(law), sys)[t] {
      SeenEnds(sys, law, t);
    }
  }

  /** Adding the pair `i`, `j` moves the loop one column on. */
  lemma AccumulatePair(sys: Bodies, law: Law, accs: seq<Vec>, i: nat, j: nat)
    requires sys.Valid() && i < j < sys.Count() && Accumulated(accs, sys, law, i, j)
    ensures Accumulated(
      accs[i := Add(accs[i], PairPull(sys, law, i, j).vec)][j := Add(accs[j], PairPull(sys, law, j, i).vec)],
      sys, law, i, j + 1)
  {
    forall t | 0 <= t < |accs|
      ensures SeenPull(sys, law, t, i, j + 1).vec ==
        if t == i then Add(accs[i], PairPull(sys, law, i, j).vec)
        else if t == j then Add(accs[j], PairPull(sys, law, j, i).vec)
        else accs[t]
    {
      SeenPair(sys, law, t, i, j);
    }
  }

  /** The end of one row is the beginning of the next. */
  lemma AccumulateRow(sys: Bodies, law: Law, accs: seq<Vec>, i: nat)
    requires sys.Valid() && i < sys.Count() && Accumulated(accs, sys, law, i, sys.Count())
    ensures Accumulated(accs, sys, law, i + 1, i + 2)
  {
    forall t | 0 <= t < |accs| ensures accs[t] == SeenPull(sys, law, t, i + 1, i + 2).vec {
      SeenRow(sys, law, t, i);
    }
  }

  class LeapfrogSimulator {
    const timeStep: real
    const law: Law

    var previous: System
    var system: System
    var accelerations: seq<Vec>
    var potentialEnergy: real
    var systemTime: real

    ghost predicate Valid()
      reads this
    {
      && law.Valid()
      && previous.Valid() && system.Valid()
      && system.masses == previous.masses
      && |accelerations| == previous.Count()
    }

    /** The state between steps. */
    ghost function Current(): State
      reads this
    {
      State(previous, accelerations)
    }

    /** One pair of the loop: both partners are accelerated, and their energy is added. */
    method AddPair(i: nat, j: nat)
      requires Valid() && i < j < system.Count()
      modifies `accelerations, `potentialEnergy
      ensures accelerations == old(accelerations)
        [i := Add(old(accelerations[i]), PairPull(system.Matter(), law, i, j).vec)]
        [j := Add(old(accelerations[j]), PairPull(system.Matter(), law, j, i).vec)]
      ensures potentialEnergy == old(potentialEnergy) + PairPull(system.Matter(), law, i, j).scalar
    {
      var kernel := PairKernel(system.Matter(), law, i, j, accelerations[i], accelerations[j], potentialEnergy);
      PairKernelMeaning(system.Matter(), law, i, j, accelerations[i], accelerations[j], potentialEnergy);
      accelerations := accelerations[i := kernel.0][j := kernel.1];
      potentialEnergy := kernel.2;
    }

    method AddRow(i: nat)
      requires Valid() && i < system.Count() && Accumulated(accelerations, system.Matter(), law, i, i + 1)
      modifies `accelerations, `potentialEnergy
      ensures Accumulated(accelerations, system.Matter(), law, i + 1, i + 2)
      ensures potentialEnergy == old(potentialEnergy) + RowEnergy(system.Matter(), law, i, system.Count())
    {
      for j := i + 1 to system.Count()
        invariant Valid() && Accumulated(accelerations, system.Matter(), law, i, j)
        invariant potentialEnergy == old(potentialEnergy) + RowEnergy(system.Matter(), law, i, j)
      {
        AccumulatePair(system.Matter(), law, accelerations, i, j);
        AddPair(i, j);
      }
      AccumulateRow(system.Matter(), law, accelerations, i);
    }

    /** The pair loop; every pair is visited once. */
    method AddRows()
      requires Valid() && Accumulated(accelerations, system.Matter(), law, 0, 1) && potentialEnergy == 0.0
      modifies `accelerations, `potentialEnergy
      ensures accelerations == Accelerations(Direct(law), system.Matter())
      ensures potentialEnergy == PairEnergy(system.Matter(), law, system.Count(), system.Count())
    {
      for i := 0 to system.Count()
        invariant Valid() && Accumulated(accelerations, system.Matter(), law, i, i + 1)
        invariant potentialEnergy == PairEnergy(system.Matter(), law, i, system.Count())
      {
        AddRow(i);
      }
      AllSeen(system.Matter(), law, accelerations);
    }

    method SumForces()
      requires Valid() && system.Count() > 0
      modifies `accelerations, `potentialEnergy
      ensures Valid()
      ensures accelerations == Accelerations(Direct(law), system.Matter())
      ensures potentialEnergy == PairEnergy(system.Matter(), law, system.Count(), system.Count())
    {
      potentialEnergy := 0.0;
      accelerations := seq(|accelerations|, _ => ZERO);
      NothingSeen(system.Matter(), law, accelerations);
      AddRows();
    }

    /** Every particle's acceleration by direct summation. */
    method UpdateForces()
      requires Valid()
      modifies `accelerations, `potentialEnergy
      ensures Valid()
      ensures accelerations == Accelerations(Direct(law), system.Matter())
      ensures system.Count() > 0 ==>
        potentialEnergy == PairEnergy(system.Matter(), law, system.Count(), system.Count())
    {
      if system.Count() == 0 {
        assert accelerations == Accelerations(Direct(law), system.Matter());
        return;
      }
      SumForces();
    }

    /** Scales the initial system. Accelerations are first computed from the scratch buffer, whose positions
        are not those of the initial system. */
    constructor (law: Law, timeStep: real, initial: System, buffer: System)
      requires law.Valid() && HenonUnits.Scalable(initial, law.softeningSqr, law.inv)
      requires |buffer.positions| == |buffer.velocities| == initial.Count()
      ensures Valid() && this.law == law && this.timeStep == timeStep
      ensures previous == HenonUnits.Normalized(initial, law.softeningSqr, law.inv) && systemTime == 0.0
      ensures accelerations == Accelerations(Direct(law), Bodies(buffer.positions, previous.masses))
    {
      var scaled := HenonUnits.ScaleInitial(initial, law);
      this.law := law;
      this.timeStep := timeStep;
      previous := scaled;
      system := buffer.(masses := scaled.masses);
      accelerations := seq(|scaled.positions|, _ => ZERO);
      potentialEnergy := 0.0;
      systemTime := 0.0;
      new;
      UpdateForces();
    }

    /** Half kick, drift, forces, half kick; the result goes to the scratch buffer. */
    method CalculateNextSystemState()
      requires Valid()
      modifies this
      ensures Valid() && previous == old(previous)
      ensures CanStep(Direct(law), old(Current()), timeStep)
      ensures State(system, accelerations) == Step(Direct(law), old(Current()), timeStep)
      ensures system.Count() > 0 ==> systemTime == old(systemTime) + timeStep
      ensures system.Count() > 0 ==>
        potentialEnergy == PairEnergy(system.Matter(), law, system.Count(), system.Count())
    {
      ghost var before := Current();
      if system.Count() == 0 {
        NothingToStep(Direct(law), before, State(system, accelerations), timeStep);
        return;
      }
      var half := KickAll(previous.velocities, accelerations, timeStep);
      var moved := DriftAll(previous.positions, half, timeStep);
      system := System(moved, half, system.masses);
      assert system.Matter() == Drifted(before, timeStep);
      UpdateForces();
      var full := KickAll(system.velocities, accelerations, timeStep);
      system := system.(velocities := full);
      systemTime := systemTime + timeStep;
    }

    /** One step, into the caller's buffer if there is one, and a report on its result if one is asked for.
        Afterwards the new state is the current one, and the one before it is the scratch buffer. */
    method StepOnce(buffer: Option<System>, diagnose: bool) returns (diagnostics: Option<HenonUnits.Diagnostics>)
      requires Valid()
      requires buffer.Some? ==> |buffer.value.positions| == |buffer.value.velocities| == previous.Count()
      modifies this
      ensures Valid()
      ensures CanStep(Direct(law), old(Current()), timeStep)
      ensures Current() == Step(Direct(law), old(Current()), timeStep) && system == old(previous)
      ensures previous.Count() > 0 ==>
        && systemTime == old(systemTime) + timeStep
        && potentialEnergy == PairEnergy(previous.Matter(), law, previous.Count(), previous.Count())
      ensures diagnostics == if !diagnose then None else Some(HenonUnits.DiagnosticsOf(previous, potentialEnergy, law.inv))
    {
      if buffer.Some? {
        system := buffer.value.(masses := previous.masses);
      }
      CalculateNextSystemState();
      diagnostics := HenonUnits.Diagnose(diagnose, system, potentialEnergy, law.inv);
      previous, system := system, previous;
    }
  }

  /** A system without particles does not change. */
  lemma NothingToStep(f: Field, s: State, t: State, dt: real)
    requires CanStep(f, s, dt) && t.Valid() && s.sys.Count() == 0 && t.sys.Count() == 0
    ensures t == Step(f, s, dt)
  {
    var r := Step(f, s, dt);
    assert |r.sys.positions| == 0 && |r.sys.velocities| == 0 && |r.sys.masses| == 0 && |r.accelerations| == 0;
    assert t.sys == r.sys && t.accelerations == r.accelerations;
  }

  /** The loop that kicks every particle. */
  method KickAll(vs: seq<Vec>, accs: seq<Vec>, dt: real) returns (r: seq<Vec>)
    requires |vs| == |accs|
    ensures r == Kick(vs, accs, dt)
  {
    r := vs;
    for i := 0 to |vs|
      invariant |r| == |vs|
      invariant forall j :: 0 <= j < i ==> r[j] == KickOne(vs[j], accs[j], dt)
    {
      r := r[i := KickOne(vs[i], accs[i], dt)];
    }
  }

  /** The loop that moves every particle. */
  method DriftAll(ps: seq<Vec>, vs: seq<Vec>, dt: real) returns (r: seq<Vec>)
    requires |ps| == |vs|
    ensures r == Drift(ps, vs, dt)
  {
    r := ps;
    for i := 0 to |ps|
      invariant |r| == |ps|
      invariant forall j :: 0 <= j < i ==> r[j] == DriftOne(ps[j], vs[j], dt)
    {
      r := r[i := DriftOne(ps[i], vs[i], dt)];
    }
  }

  lemma AddNothing(v: Vec)
    ensures Add(v, ZERO) == v
  {
  }

  lemma OppositePull(a: Vec, p: Vec, q: Vec, m: real, c: real)
    ensures Sub(a, Scale(Scale(Sub(q, p), m), c)) == Add(a, Scale(Scale(Sub(p, q), m), c))
  {
    OppositeProduct(q.x - p.x, m, c);
    OppositeProduct(q.y - p.y, m, c);
    OppositeProduct(q.z - p.z, m, c);
  }

  lemma OppositeProduct(d: real, m: real, c: real)
    ensures -(d * m * c) == (-d) * m * c
  {
  }

  // ---- the cache after initialization ----

  /** Particles at one point do not attract each other. */
  lemma BlankPulls(sys: Bodies, law: Law, i: nat)
    requires sys.Valid() && law.Valid() && i < sys.Count()
    requires forall j :: 0 <= j < sys.Count() ==> sys.positions[j] == sys.positions[i]
    ensures DirectPull(sys, law, i).vec == ZERO
  {
    var still := (t: Term) => t.vec == ZERO;
    forall j | 0 <= j < sys.Count()
      ensures still(Pulls(sys, law, i)[j])
    {
      BlankPair(sys, law, i, j);
    }
    forall a, b | still(a) && still(b)
      ensures still(Plus(a, b))
    {
      AddZeros(a.vec, b.vec);
    }
    TotalKeeps(still, Pulls(sys, law, i), All(sys.Count()), sys.Count());
  }

  lemma BlankPair(sys: Bodies, law: Law, i: nat, j: nat)
    requires sys.Valid() && i < sys.Count() && j < sys.Count() && sys.positions[j] == sys.positions[i]
    ensures PairPull(sys, law, i, j).vec == ZERO
  {
    var p := sys.positions[i];
    assert Sub(p, p) == ZERO;
    var d := DistSqr(p, p, law);
    if i != j && d > 0.0 {
      NothingScaled(ZERO, sys.masses[j], 0.0);
      NothingScaled(ZERO, Cubed(law.inv(d)), 0.0);
    }
  }

  // Particles in lexicographic order of their coordinates: the first one is pulled strictly onward.

  /** From here on: lexicographically not before zero. */
  predicate Onward(v: Vec) {
    v.x > 0.0 || (v.x == 0.0 && (v.y > 0.0 || (v.y == 0.0 && v.z >= 0.0)))
  }

  lemma OnwardSum(a: Vec, b: Vec)
    requires Onward(a) && Onward(b)
    ensures Onward(Add(a, b))
    ensures b != ZERO ==> Add(a, b) != ZERO
  {
  }

  lemma PositiveTwice(a: real, m: real, c: real)
    requires m > 0.0 && c > 0.0
    ensures a > 0.0 ==> a * m * c > 0.0
    ensures a == 0.0 ==> a * m * c == 0.0
  {
    if a > 0.0 {
      var am := ProductPositive(a, m);
      var amc := ProductPositive(am, c);
    }
  }

  lemma OnwardScaled(v: Vec, m: real, c: real)
    requires Onward(v) && m > 0.0 && c > 0.0
    ensures Onward(Scale(Scale(v, m), c))
    ensures v != ZERO ==> Scale(Scale(v, m), c) != ZERO
  {
    PositiveTwice(v.x, m, c);
    PositiveTwice(v.y, m, c);
    PositiveTwice(v.z, m, c);
  }

  lemma {:induction false} FirstInOrder(ps: seq<Vec>) returns (i: nat)
    requires ps != []
    ensures i < |ps| && forall j :: 0 <= j < |ps| ==> Onward(Sub(ps[j], ps[i]))
  {
    var last := |ps| - 1;
    i := last;
    if last > 0 {
      var k := FirstInOrder(ps[..last]);
      if Onward(Sub(ps[last], ps[k])) {
        i := k;
      } else {
        forall j | 0 <= j < last ensures Onward(Sub(ps[j], ps[last])) {
          assert Onward(Sub(ps[j], ps[k]));
          OnwardSum(Sub(ps[j], ps[k]), Sub(ps[k], ps[last]));
          assert Add(Sub(ps[j], ps[k]), Sub(ps[k], ps[last])) == Sub(ps[j], ps[last]);
        }
      }
    }
  }

  lemma PullsOnward(sys: Bodies, law: Law, i: nat, j: nat)
    requires sys.Valid() && law.Valid() && i < sys.Count() && j < sys.Count() && sys.masses[j] > 0.0
    requires Onward(Sub(sys.positions[j], sys.positions[i]))
    ensures Onward(PairPull(sys, law, i, j).vec)
    ensures sys.positions[j] != sys.positions[i] ==> PairPull(sys, law, i, j).vec != ZERO
  {
    var r := Sub(sys.positions[j], sys.positions[i]);
    var d := DistSqr(sys.positions[j], sys.positions[i], law);
    Norm2Positive(r);
    if i != j && d > 0.0 {
      var c := InverseCubePositive(law.inv, d);
      OnwardScaled(r, sys.masses[j], c);
    }
  }

  lemma InverseCubePositive(inv: real -> real, d: real) returns (c: real)
    requires InverseRoot(inv) && d > 0.0
    ensures c == Cubed(inv(d)) && c > 0.0
  {
    var i := inv(d);
    var i2 := ProductPositive(i, i);
    c := ProductPositive(i2, i);
  }

  ghost predicate AtOnePoint(positions: seq<Vec>) {
    forall i, j :: 0 <= i < |positions| && 0 <= j < |positions| ==> positions[i] == positions[j]
  }

  lemma FirstIsPulled(sys: Bodies, law: Law, i: nat, j: nat)
    requires sys.Valid() && law.Valid() && PositiveMasses(sys) && i < sys.Count() && j < sys.Count()
    requires forall k :: 0 <= k < sys.Count() ==> Onward(Sub(sys.positions[k], sys.positions[i]))
    requires sys.positions[j] != sys.positions[i]
    ensures DirectPull(sys, law, i).vec != ZERO
  {
    var onward := (t: Term) => Onward(t.vec);
    var others := All(sys.Count()) - {j};
    forall k | 0 <= k < sys.Count() ensures onward(Pulls(sys, law, i)[k]) {
      PullsOnward(sys, law, i, k);
    }
    forall a, b | onward(a) && onward(b) ensures onward(Plus(a, b)) {
      OnwardSum(a.vec, b.vec);
    }
    TotalKeeps(onward, Pulls(sys, law, i), others, sys.Count());
    PullFromOneMore(sys, law, i, others, j);
    assert others + {j} == All(sys.Count());
    PullsOnward(sys, law, i, j);
    OnwardSum(PullFrom(sys, law, i, others).vec, PairPull(sys, law, i, j).vec);
  }

  /** No particle is accelerated exactly when all of them sit at one point. */
  lemma NobodyPulled(sys: Bodies, law: Law)
    requires sys.Valid() && law.Valid() && PositiveMasses(sys)
    ensures AtOnePoint(sys.positions) <==> forall i :: 0 <= i < sys.Count() ==> Accelerations(Direct(law), sys)[i] == ZERO
  {
    if AtOnePoint(sys.positions) {
      forall i | 0 <= i < sys.Count() ensures Accelerations(Direct(law), sys)[i] == ZERO {
        BlankPulls(sys, law, i);
      }
    } else {
      var i := FirstInOrder(sys.positions);
      var j :| 0 <= j < sys.Count() && sys.positions[j] != sys.positions[i];
      FirstIsPulled(sys, law, i, j);
      assert Accelerations(Direct(law), sys)[i] != ZERO;
    }
  }

  /** Accelerations at one point are those of a system exactly when that is at one point, too. */
  lemma ZeroCache(sys: System, law: Law, blank: seq<Vec>)
    requires sys.Valid() && law.Valid() && PositiveMasses(sys.Matter()) && |blank| == sys.Count() && AtOnePoint(blank)
    ensures Consistent(Direct(law), State(sys, Accelerations(Direct(law), Bodies(blank, sys.masses)))) <==>
      AtOnePoint(sys.positions)
  {
    NobodyPulled(Bodies(blank, sys.masses), law);
    NobodyPulled(sys.Matter(), law);
  }

  /** With a blank buffer, the cache after initialization belongs to the initial positions if and only if
      all of these are one point. */
  lemma InitialCache(law: Law, initial: System, buffer: System)
    requires law.Valid() && HenonUnits.Scalable(initial, law.softeningSqr, law.inv)
    requires PositiveMasses(initial.Matter()) && AtOnePoint(buffer.positions) && |buffer.positions| == initial.Count()
    ensures var scaled := HenonUnits.Normalized(initial, law.softeningSqr, law.inv);
      Consistent(Direct(law), State(scaled, Accelerations(Direct(law), Bodies(buffer.positions, scaled.masses)))) <==>
      AtOnePoint(initial.positions)
  {
    var scaled := HenonUnits.Normalized(initial, law.softeningSqr, law.inv);
    HenonUnits.MassesStayPositive(initial, law.softeningSqr, law.inv);
    HenonUnits.PositionsStayEqual(initial, law.softeningSqr, law.inv);
    ZeroCache(scaled, law, buffer.positions);
  }

  /** Two unit masses at rest at unit distance, and a blank buffer: the cache is stale, whatever the softening. */
  lemma InitialCacheIsStale(law: Law, softening: real, initial: System, buffer: System)
    requires law.Valid() && softening > 0.0 && law.softeningSqr == softening * softening
    requires HenonUnits.AtUnitDistance(initial) && AtOnePoint(buffer.positions) && |buffer.positions| == 2
    ensures HenonUnits.Scalable(initial, law.softeningSqr, law.inv)
    ensures var scaled := HenonUnits.Normalized(initial, law.softeningSqr, law.inv);
      !Consistent(Direct(law), State(scaled, Accelerations(Direct(law), Bodies(buffer.positions, scaled.masses))))
  {
    var s := ProductPositive(softening, softening);
    HenonUnits.UnitDistanceEnergy(initial, s, law.inv, 1.0 + s * s);
    InitialCache(law, initial, buffer);
    assert Norm2(Sub(ZERO, ZERO)) == 0.0;
    assert initial.positions[0] != initial.positions[1];
  }
}
