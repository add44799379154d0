/** Why the forces and the energies belong together: along the motion that the forces cause, the total energy
    does not change. */
module EnergyRate {
  import opened Vectors
  import opened Systems
  import opened Gravity
  import opened PairForces
  import opened KickDrift
  import opened Henon
  import opened Jerk
  import Hits

  // ---- a pair ----

  /** The potential energy of two particles while both move. Without a distance there is none. */
  function PairRate(sys: System, law: Law, i: nat, j: nat): Rate
    requires sys.Valid() && i < sys.Count() && j < sys.Count()
  {
    if DistSqr(sys.positions[j], sys.positions[i], law) <= 0.0 then Still(0.0)
    else Still(-sys.masses[i]).Times(Still(sys.masses[j])).Times(InverseDistance(sys, law, i, j))
  }

  /** The power of the force of `j` on `i`. */
  ghost function PairPower(sys: System, law: Law, i: nat, j: nat): real
    requires sys.Valid() && i < sys.Count() && j < sys.Count()
  {
    Dot(PairForce(sys.Matter(), law, i, j).vec, sys.velocities[i])
  }

  lemma EnergyOfPair(sys: System, law: Law, i: nat, j: nat)
    requires sys.Valid() && i < sys.Count() && j < sys.Count() && i != j
    ensures PairRate(sys, law, i, j).at == PairPull(sys.Matter(), law, i, j).scalar
  {
  }

  /** A rate that is what two powers take away. */
  predicate Spent(change: real, p: real, q: real) { -change == p + q }

  function Product(s: real, dot: real): real { s * dot }

  lemma PowersOfOpposites(r: Vec, s: real, v: Vec, w: Vec, force: Vec, reaction: Vec)
    requires force == Scale(r, s) && reaction == Neg(force)
    ensures Spent(Product(s, Dot(r, Sub(w, v))), Dot(force, v), Dot(reaction, w))
  {
  }

  lemma RateOfPair(k: real, m: real, i: real, dot: real, s: real)
    requires s == k * m * Cubed(i)
    ensures Still(-k).Times(Still(m)).Times(InverseRate(i, dot)).change == Product(s, dot)
  {
  }

  lemma PairRateForm(sys: System, law: Law, i: nat, j: nat)
    requires sys.Valid() && i < sys.Count() && j < sys.Count()
    ensures PairRate(sys, law, i, j).change
      == Product(Strength(sys.Matter(), law, i, j), Dot(Towards(sys.positions, i, j), Towards(sys.velocities, i, j)))
  {
    if DistSqr(sys.positions[j], sys.positions[i], law) > 0.0 {
      RateOfPair(sys.masses[i], sys.masses[j], Hits.DistInv(sys, law, i, j),
                 Dot(Towards(sys.positions, i, j), Towards(sys.velocities, i, j)), Strength(sys.Matter(), law, i, j));
    }
  }

  /** What the forces of a pair do is taken from its potential energy. */
  lemma PowerOfPair(sys: System, law: Law, i: nat, j: nat)
    requires sys.Valid() && i < sys.Count() && j < sys.Count() && i != j
    ensures Spent(PairRate(sys, law, i, j).change, PairPower(sys, law, i, j), PairPower(sys, law, j, i))
  {
    PairForceForm(sys.Matter(), law, i, j);
    ActionAndReaction(sys.Matter(), law, j, i);
    PairRateForm(sys, law, i, j);
    PowersOfOpposites(Towards(sys.positions, i, j), Strength(sys.Matter(), law, i, j), sys.velocities[i], sys.velocities[j],
                      PairForce(sys.Matter(), law, i, j).vec, PairForce(sys.Matter(), law, j, i).vec);
  }

  // ---- all pairs ----

  /** The potential energy of the pairs of `c` with the particles before `n`. */
  function ColumnRate(sys: System, law: Law, c: nat, n: nat): Rate
    requires sys.Valid() && n <= c < sys.Count()
  {
    if n == 0 then Still(0.0) else ColumnRate(sys, law, c, n - 1).Plus(PairRate(sys, law, n - 1, c))
  }

  /** The potential energy of the first `n` particles. */
  function PotentialRate(sys: System, law: Law, n: nat): Rate
    requires sys.Valid() && n <= sys.Count()
  {
    if n == 0 then Still(0.0) else PotentialRate(sys, law, n - 1).Plus(ColumnRate(sys, law, n - 1, n - 1))
  }

  ghost function PowerGrid(sys: System, law: Law): (r: seq<seq<Term>>)
    requires sys.Valid()
    ensures |r| == sys.Count() && forall i :: 0 <= i < |r| ==> |r[i]| == |r|
    ensures forall i, j :: 0 <= i < |r| && 0 <= j < |r| ==> r[i][j] == Term(ZERO, PairPower(sys, law, i, j))
  {
    seq(sys.Count(), i requires 0 <= i < sys.Count() =>
      seq(sys.Count(), j requires 0 <= j < sys.Count() => Term(ZERO, PairPower(sys, law, i, j))))
  }

  /** What the forces of each pair do together. */
  ghost function PairGrid(sys: System, law: Law): (r: seq<seq<Term>>)
    requires sys.Valid()
    ensures |r| == sys.Count() && forall i :: 0 <= i < |r| ==> |r[i]| == |r|
    ensures forall i, j :: 0 <= i < |r| && 0 <= j < |r| ==> r[i][j] == Term(ZERO, -PairRate(sys, law, i, j).change)
  {
    seq(sys.Count(), i requires 0 <= i < sys.Count() =>
      seq(sys.Count(), j requires 0 <= j < sys.Count() => Term(ZERO, -PairRate(sys, law, i, j).change)))
  }

  lemma SpentFolds(change: real, p: real, q: real, a: Term, b: Term, c: Term)
    requires Spent(change, p, q)
    requires a.vec == ZERO && a.scalar == p && b.vec == ZERO && b.scalar == q && c.vec == ZERO && c.scalar == -change
    ensures c == Plus(a, b)
  {
    AddZeros(a.vec, b.vec);
  }

  lemma PowerFolds(sys: System, law: Law, i: nat, j: nat)
    requires sys.Valid() && i < sys.Count() && j < sys.Count() && i != j
    ensures PairGrid(sys, law)[i][j] == Plus(PowerGrid(sys, law)[i][j], PowerGrid(sys, law)[j][i])
  {
    PowerOfPair(sys, law, i, j);
    SpentFolds(PairRate(sys, law, i, j).change, PairPower(sys, law, i, j), PairPower(sys, law, j, i),
               PowerGrid(sys, law)[i][j], PowerGrid(sys, law)[j][i], PairGrid(sys, law)[i][j]);
  }

  lemma PowersFold(sys: System, law: Law)
    requires sys.Valid()
    ensures Folded(PairGrid(sys, law), PowerGrid(sys, law))
  {
    forall i, j | 0 <= i < j < sys.Count() {
      PowerFolds(sys, law, i, j);
    }
    forall i | 0 <= i < sys.Count() {
      NoPowerOnItself(sys, law, i);
    }
  }

  lemma NoPowerOnItself(sys: System, law: Law, i: nat)
    requires sys.Valid() && i < sys.Count()
    ensures PairPower(sys, law, i, i) == 0.0
  {
    PairWithItself(sys.Matter(), law, i);
  }

  /** A potential energy, and the power that is taken from it. */
  predicate Measures(r: Rate, energy: Term, power: Term) { r.at == energy.scalar && r.change == -power.scalar }

  lemma MeasuresNothing()
    ensures Measures(Still(0.0), NOTHING, NOTHING)
  {
  }

  lemma MeasuresSum(r: Rate, q: Rate, a: Term, b: Term, c: Term, d: Term)
    requires Measures(r, a, b) && Measures(q, c, d)
    ensures Measures(r.Plus(q), Plus(a, c), Plus(b, d))
  {
  }

  lemma {:induction false} ColumnRates(sys: System, law: Law, forces: seq<seq<Term>>, powers: seq<seq<Term>>, c: nat, n: nat)
    requires sys.Valid() && n <= c < sys.Count() && forces == ForceGrid(sys.Matter(), law) && powers == PairGrid(sys, law)
    requires (forall r :: r in forces ==> c < |r|) && (forall r :: r in powers ==> c < |r|)
    ensures Measures(ColumnRate(sys, law, c, n), ColumnTotal(forces, c, n), ColumnTotal(powers, c, n))
    decreases n
  {
    if n == 0 {
      MeasuresNothing();
    } else {
      ColumnRates(sys, law, forces, powers, c, n - 1);
      EnergyOfPair(sys, law, n - 1, c);
      MeasuresSum(ColumnRate(sys, law, c, n - 1), PairRate(sys, law, n - 1, c),
                  ColumnTotal(forces, c, n - 1), ColumnTotal(powers, c, n - 1), forces[n - 1][c], powers[n - 1][c]);
    }
  }

  lemma {:induction false} PotentialRates(sys: System, law: Law, forces: seq<seq<Term>>, powers: seq<seq<Term>>, n: nat)
    requires sys.Valid() && n <= sys.Count() && forces == ForceGrid(sys.Matter(), law) && powers == PairGrid(sys, law)
    requires (forall r :: r in forces ==> n <= |r|) && (forall r :: r in powers ==> n <= |r|)
    ensures Measures(PotentialRate(sys, law, n), TriangleTotal(forces, n), TriangleTotal(powers, n))
    decreases n
  {
    if n == 0 {
      MeasuresNothing();
    } else {
      var c := n - 1;
      PotentialRates(sys, law, forces, powers, c);
      ColumnRates(sys, law, forces, powers, c, c);
      MeasuresSum(PotentialRate(sys, law, c), ColumnRate(sys, law, c, c),
                  TriangleTotal(forces, c), TriangleTotal(powers, c), ColumnTotal(forces, c, c), ColumnTotal(powers, c, c));
    }
  }

  // ---- motion ----

  /** The kinetic energy of a body that is accelerated. */
  function BodyRate(m: real, v: Vec, a: Vec): Rate {
    Still(0.5).Times(Still(m)).Times(Squared(Moving(v, a, 0)).Plus(Squared(Moving(v, a, 1))).Plus(Squared(Moving(v, a, 2))))
  }

  /** A kinetic energy, given twofold, and the power that is put into it. */
  predicate Gains(r: Rate, double: real, power: Term) { r.at == double * 0.5 && r.change == power.scalar }

  lemma BodyRates(m: real, v: Vec, a: Vec)
    ensures Gains(BodyRate(m, v, a), DoubleEnergy(m, v), Term(ZERO, Dot(Scale(a, m), v)))
  {
  }

  /** The kinetic energy of the first `n` particles, with their accelerations. */
  function KineticRate(sys: System, accelerations: seq<Vec>, n: nat): Rate
    requires sys.Valid() && n <= sys.Count() == |accelerations|
  {
    if n == 0 then Still(0.0)
    else KineticRate(sys, accelerations, n - 1).Plus(BodyRate(sys.masses[n - 1], sys.velocities[n - 1], accelerations[n - 1]))
  }

  /** The power of all forces on each particle. */
  ghost function Powers(sys: System, law: Law): (r: seq<Term>)
    requires sys.Valid()
    ensures |r| == sys.Count()
    ensures forall i :: 0 <= i < |r| ==> r[i] == Term(ZERO, Dot(Forces(sys.Matter(), law)[i].vec, sys.velocities[i]))
  {
    seq(sys.Count(), i requires 0 <= i < sys.Count() =>
      Term(ZERO, Dot(Forces(sys.Matter(), law)[i].vec, sys.velocities[i])))
  }

  lemma GainsNothing()
    ensures Gains(Still(0.0), 0.0, NOTHING)
  {
  }

  lemma GainsSum(r: Rate, q: Rate, a: real, b: real, c: Term, d: Term)
    requires Gains(r, a, c) && Gains(q, b, d)
    ensures Gains(r.Plus(q), a + b, Plus(c, d))
  {
  }

  /** Each of the first `n` powers is that of the body's acceleration. */
  ghost predicate Drive(powers: seq<Term>, sys: System, accelerations: seq<Vec>, n: nat) {
    && sys.Valid() && n <= sys.Count() == |accelerations| == |powers|
    && forall i :: 0 <= i < n ==> powers[i] == Term(ZERO, Dot(Scale(accelerations[i], sys.masses[i]), sys.velocities[i]))
  }

  lemma {:induction false} KineticRates(sys: System, accelerations: seq<Vec>, doubles: seq<real>, powers: seq<Term>,
                                        all: set<nat>, n: nat)
    requires Drive(powers, sys, accelerations, n) && doubles == DoubleKinetics(sys.velocities, sys.masses)
    requires forall i :: 0 <= i < n ==> i in all
    ensures Gains(KineticRate(sys, accelerations, n), RealSum(doubles, n), Total(powers, all, n))
    decreases n
  {
    if n == 0 {
      GainsNothing();
    } else {
      var i := n - 1;
      KineticRates(sys, accelerations, doubles, powers, all, i);
      BodyRates(sys.masses[i], sys.velocities[i], accelerations[i]);
      GainsSum(KineticRate(sys, accelerations, i), BodyRate(sys.masses[i], sys.velocities[i], accelerations[i]),
               RealSum(doubles, i), doubles[i], Total(powers, all, i), powers[i]);
    }
  }

  lemma PowerAdditive(a: Term, b: Term, v: Vec)
    ensures Term(ZERO, Dot(Plus(a, b).vec, v)) == Plus(Term(ZERO, Dot(a.vec, v)), Term(ZERO, Dot(b.vec, v)))
  {
    PlusNothing(NOTHING);
  }

  lemma PowerOfRow(sys: System, law: Law, i: nat)
    requires sys.Valid() && i < sys.Count()
    ensures Total(PowerGrid(sys, law)[i], All(sys.Count()), sys.Count()) == Powers(sys, law)[i]
  {
    var v := sys.velocities[i];
    var l := (t: Term) => Term(ZERO, Dot(t.vec, v));
    forall a, b ensures l(Plus(a, b)) == Plus(l(a), l(b)) { PowerAdditive(a, b, v); }
    ForceOfRow(sys.Matter(), law, i);
    TotalMap(l, ForceGrid(sys.Matter(), law)[i], PowerGrid(sys, law)[i], All(sys.Count()), sys.Count());
  }

  /** The power of all forces is that of all pairs. */
  lemma PowersOfPairs(sys: System, law: Law)
    requires sys.Valid()
    ensures Total(Powers(sys, law), All(sys.Count()), sys.Count()) == TriangleTotal(PairGrid(sys, law), sys.Count())
  {
    var n, all := sys.Count(), All(sys.Count());
    forall i | 0 <= i < n {
      PowerOfRow(sys, law, i);
    }
    GridOfRows(PowerGrid(sys, law), Powers(sys, law), all, n, n);
    PowersFold(sys, law);
    FoldedTotal(PairGrid(sys, law), PowerGrid(sys, law), all, n);
  }

  /** The total energy of a system that moves under its own direct forces. */
  ghost function EnergyRate(sys: System, law: Law): Rate
    requires sys.Valid() && law.Valid()
  {
    KineticRate(sys, Accelerations(Direct(law), sys.Matter()), sys.Count()).Plus(PotentialRate(sys, law, sys.Count()))
  }

  /** What is gained is what is taken. */
  lemma GainIsLoss(kinetic: Rate, potential: Rate, double: real, energy: Term, gain: Term, loss: Term)
    requires Gains(kinetic, double, gain) && Measures(potential, energy, loss) && gain == loss
    ensures kinetic.Plus(potential) == Still(double * 0.5 + energy.scalar)
  {
  }

  lemma PotentialIsPairs(sys: System, law: Law, forces: seq<seq<Term>>)
    requires sys.Valid() && forces == ForceGrid(sys.Matter(), law)
    ensures (forall r :: r in forces ==> sys.Count() <= |r|)
    ensures TriangleTotal(forces, sys.Count()).scalar == PairEnergy(sys.Matter(), law, sys.Count(), sys.Count())
  {
    PairEnergyIsTriangle(sys.Matter(), law, sys.Count());
  }

  /** It is the kinetic energy and the energy of the pairs, and it does not change: the accelerations are those that
      the potential energy asks for. */
  lemma EnergyIsConstant(sys: System, law: Law)
    requires sys.Valid() && law.Valid()
    ensures EnergyRate(sys, law) == Still(KineticEnergy(sys) + PairEnergy(sys.Matter(), law, sys.Count(), sys.Count()))
  {
    var n, all := sys.Count(), All(sys.Count());
    var doubles, powers := DoubleKinetics(sys.velocities, sys.masses), Powers(sys, law);
    var forces, pairs := ForceGrid(sys.Matter(), law), PairGrid(sys, law);
    var accelerations := Accelerations(Direct(law), sys.Matter());
    KineticRates(sys, accelerations, doubles, powers, all, n);
    PotentialRates(sys, law, forces, pairs, n);
    PowersOfPairs(sys, law);
    PotentialIsPairs(sys, law, forces);
    GainIsLoss(KineticRate(sys, accelerations, n), PotentialRate(sys, law, n), RealSum(doubles, n), TriangleTotal(forces, n),
               Total(powers, all, n), TriangleTotal(pairs, n));
  }
}
