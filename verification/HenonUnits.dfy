/** Hénon units: total mass one and total energy a quarter, up to its sign. */
module HenonUnits {
  import opened Options
  import opened Vectors
  import opened Systems
  import opened Gravity
  import opened PairForces
  import opened KickDrift
  import opened Conservation
  import opened Henon

  function LengthUnit(mass: real, energy: real): real
    requires energy > 0.0
  {
    G * (mass * mass) / (4.0 * energy)
  }

  function Fifth(a: real): real { a * a * a * a * a }

  lemma PowersPositive(a: real)
    requires a > 0.0
    ensures Cubed(a) > 0.0 && Fifth(a) > 0.0
  {
    var p := ProductPositive(a, a);
    var q := ProductPositive(p, a);
    var r := ProductPositive(q, a);
    var s := ProductPositive(r, a);
  }

  function TimeUnit(mass: real, energy: real, inv: real -> real): (r: real)
    requires mass > 0.0 && energy > 0.0 && InverseRoot(inv)
    ensures r > 0.0
  {
    PowersPositive(mass);
    PowersPositive(4.0 * energy);
    QuotientPositive(Fifth(mass), Cubed(4.0 * energy));
    RootSquares(inv, Fifth(mass) / Cubed(4.0 * energy));
    G * Root(inv, Fifth(mass) / Cubed(4.0 * energy))
  }

  function VelocityUnit(mass: real, energy: real, inv: real -> real): (r: real)
    requires mass > 0.0 && energy > 0.0 && InverseRoot(inv)
    ensures r > 0.0
  {
    LengthUnitPositive(mass, energy);
    QuotientPositive(LengthUnit(mass, energy), TimeUnit(mass, energy, inv));
    LengthUnit(mass, energy) / TimeUnit(mass, energy, inv)
  }

  lemma QuotientPositive(a: real, b: real)
    requires a > 0.0 && b > 0.0
    ensures a / b > 0.0
  {
  }

  lemma LengthUnitPositive(mass: real, energy: real)
    requires mass > 0.0 && energy > 0.0
    ensures LengthUnit(mass, energy) > 0.0
  {
    var p := ProductPositive(mass, mass);
    QuotientPositive(G * p, 4.0 * energy);
  }

  // ---- the velocity unit ----

  lemma SquareOut(v: real, r: real, e: real)
    ensures (v * r * e) * (v * r * e) * e == (v * v) * (r * r * (e * e * e))
  {
  }

  lemma FourthOut(v2: real, m: real)
    ensures v2 * Fifth(m) == (v2 * m) * (m * m * (m * m))
  {
  }

  lemma EqualFactors(a: real, b: real, c: real)
    requires a * c == b * c && c > 0.0
    ensures a == b
  {
    ProductCancels(a, b, c);
    ProductCancels(b, a, c);
  }

  predicate SquaresTo(v: real, m: real, e: real) { v * v * m == e }

  lemma VelocityFromRadicand(v: real, r: real, e: real, m: real)
    requires m > 0.0 && v * r * e == m * m && r * r * Cubed(e) == Fifth(m)
    ensures SquaresTo(v, m, e)
  {
    SquareOut(v, r, e);
    FourthOut(v * v, m);
    var m2 := ProductPositive(m, m);
    var m4 := ProductPositive(m2, m2);
    assert m2 * m2 * e == (v * v) * Fifth(m);
    assert (v * v * m) * m4 == e * m4;
    EqualFactors(v * v * m, e, m4);
  }

  lemma CancelG(v: real, r: real, e: real, l: real, m2: real)
    requires v * (G * r) == l && l * e == G * m2
    ensures v * r * e == m2
  {
    assert G * (v * r * e) == (v * (G * r)) * e;
  }

  /** The velocity unit squared, times the mass, is four times the energy. */
  lemma VelocityUnitSquared(mass: real, energy: real, inv: real -> real)
    requires mass > 0.0 && energy > 0.0 && InverseRoot(inv)
    ensures SquaresTo(VelocityUnit(mass, energy, inv), mass, 4.0 * energy)
  {
    var e := 4.0 * energy;
    PowersPositive(mass);
    PowersPositive(e);
    var q := Fifth(mass) / Cubed(e);
    QuotientPositive(Fifth(mass), Cubed(e));
    RootSquares(inv, q);
    var r := Root(inv, q);
    assert q * Cubed(e) == Fifth(mass);
    assert r * r * Cubed(e) == Fifth(mass);
    var l, v := LengthUnit(mass, energy), VelocityUnit(mass, energy, inv);
    assert l * e == G * (mass * mass);
    assert v * (G * r) == l;
    CancelG(v, r, e, l, mass * mass);
    VelocityFromRadicand(v, r, e, mass);
  }

  // ---- the scaled system ----

  /** The sequence of quotients. */
  ghost function DividedAll(vs: seq<Vec>, u: real): (r: seq<Vec>)
    requires u != 0.0
    ensures |r| == |vs| && forall i :: 0 <= i < |r| ==> r[i] == Div(vs[i], u)
  {
    seq(|vs|, i requires 0 <= i < |vs| => Div(vs[i], u))
  }

  ghost function DividedMasses(ms: seq<real>, u: real): (r: seq<real>)
    requires u != 0.0
    ensures |r| == |ms| && forall i :: 0 <= i < |r| ==> r[i] == ms[i] / u
  {
    seq(|ms|, i requires 0 <= i < |ms| => ms[i] / u)
  }

  /** The system in Hénon units. */
  ghost function Scaled(sys: System, energy: real, inv: real -> real): (r: System)
    requires sys.Valid() && TotalMass(sys) > 0.0 && energy > 0.0 && InverseRoot(inv)
    ensures r.Valid() && r.Count() == sys.Count()
  {
    var mass := TotalMass(sys);
    LengthUnitPositive(mass, energy);
    System(DividedAll(sys.positions, LengthUnit(mass, energy)),
           DividedAll(sys.velocities, VelocityUnit(mass, energy, inv)),
           DividedMasses(sys.masses, mass))
  }

  lemma {:induction false} MassesScale(us: seq<Vec>, vs: seq<Vec>, ms: seq<real>, ks: seq<real>, u: real, n: nat)
    requires n <= |us| && n <= |vs| && n <= |ms| && n <= |ks|
    requires forall i :: 0 <= i < n ==> ks[i] * u == ms[i]
    ensures WeightedSum(us, ks, n).scalar * u == WeightedSum(vs, ms, n).scalar
  {
    if n > 0 {
      MassesScale(us, vs, ms, ks, u, n - 1);
      var a, b := WeightedSum(us, ks, n - 1).scalar, ks[n - 1];
      ProductsAdd(a, b, u);
    }
  }

  /** `a` is to `b` as `l` is to `k`. */
  predicate Proportional(a: real, b: real, k: real, l: real) { a * k == b * l }

  lemma ProportionalSums(a: real, b: real, c: real, d: real, k: real, l: real)
    requires Proportional(a, b, k, l) && Proportional(c, d, k, l)
    ensures Proportional(a + c, b + d, k, l)
  {
    ProductsAdd(a, c, k);
    ProductsAdd(b, d, l);
  }

  lemma {:induction false} RealSumScales(xs: seq<real>, ys: seq<real>, e: real, n: nat)
    requires n <= |xs| && n <= |ys| && forall i :: 0 <= i < n ==> Proportional(ys[i], xs[i], e, 1.0)
    ensures Proportional(RealSum(ys, n), RealSum(xs, n), e, 1.0)
  {
    if n > 0 {
      RealSumScales(xs, ys, e, n - 1);
      ProportionalSums(RealSum(ys, n - 1), RealSum(xs, n - 1), ys[n - 1], xs[n - 1], e, 1.0);
    }
  }

  lemma SquareScaled(m: real, mass: real, x: real, v: real, e: real)
    requires SquaresTo(v, mass, e)
    ensures m * mass * (x * v * (x * v)) == m * (x * x) * e
  {
    assert m * mass * (x * v * (x * v)) == m * (x * x) * (v * v * mass);
  }

  lemma DoubleEnergyScales(m: real, mass: real, m0: real, w: Vec, v: real, w0: Vec, e: real)
    requires SquaresTo(v, mass, e) && m * mass == m0 && Scale(w, v) == w0
    ensures Proportional(DoubleEnergy(m, w), DoubleEnergy(m0, w0), e, 1.0)
  {
    SquareScaled(m, mass, w.x, v, e);
    SquareScaled(m, mass, w.y, v, e);
    SquareScaled(m, mass, w.z, v, e);
    NormTimes(m, w);
    NormTimes(m * mass, Scale(w, v));
  }

  lemma QuotientTimes(a: real, b: real)
    requires b != 0.0
    ensures a / b * b == a
  {
  }

  lemma DivTimes(a: Vec, b: real)
    requires b != 0.0
    ensures Scale(Div(a, b), b) == a
  {
    QuotientTimes(a.x, b);
    QuotientTimes(a.y, b);
    QuotientTimes(a.z, b);
    assert Scale(Div(a, b), b) == Vec(a.x / b * b, a.y / b * b, a.z / b * b);
  }

  lemma HalfScales(a: real, b: real, e: real)
    requires Proportional(a, b, e, 1.0)
    ensures a * 0.5 * e == b * 0.5
  {
    assert a * 0.5 * e == a * e * 0.5;
  }

  lemma DoubleKineticScales(sys: System, energy: real, inv: real -> real, i: nat)
    requires sys.Valid() && TotalMass(sys) > 0.0 && energy > 0.0 && InverseRoot(inv) && i < sys.Count()
    ensures var t := Scaled(sys, energy, inv);
      Proportional(DoubleEnergy(t.masses[i], t.velocities[i]), DoubleEnergy(sys.masses[i], sys.velocities[i]), 4.0 * energy, 1.0)
  {
    var mass, v, t := TotalMass(sys), VelocityUnit(TotalMass(sys), energy, inv), Scaled(sys, energy, inv);
    VelocityUnitSquared(mass, energy, inv);
    QuotientTimes(sys.masses[i], mass);
    DivTimes(sys.velocities[i], v);
    DoubleEnergyScales(t.masses[i], mass, sys.masses[i], t.velocities[i], v, sys.velocities[i], 4.0 * energy);
  }

  lemma KineticScales(sys: System, energy: real, inv: real -> real)
    requires sys.Valid() && TotalMass(sys) > 0.0 && energy > 0.0 && InverseRoot(inv)
    ensures KineticEnergy(Scaled(sys, energy, inv)) * (4.0 * energy) == KineticEnergy(sys)
  {
    var t, n := Scaled(sys, energy, inv), sys.Count();
    var xs, ys := DoubleKinetics(sys.velocities, sys.masses), DoubleKinetics(t.velocities, t.masses);
    forall i | 0 <= i < n ensures Proportional(ys[i], xs[i], 4.0 * energy, 1.0) {
      DoubleKineticScales(sys, energy, inv, i);
    }
    RealSumScales(xs, ys, 4.0 * energy, n);
    HalfScales(RealSum(ys, n), RealSum(xs, n), 4.0 * energy);
  }

  // ---- distances ----

  lemma InverseScales(inv: real -> real, d: real, d': real, l: real)
    requires InverseRoot(inv) && d' > 0.0 && d > 0.0 && l > 0.0 && d' * (l * l) == d
    ensures inv(d') == l * inv(d)
  {
    var i, j := inv(d), inv(d');
    assert (l * i) * (l * i) * d' == i * i * (d' * (l * l));
    EqualFactors((l * i) * (l * i), j * j, d');
    var p := ProductPositive(l, i);
    RootUnique(l * i, j);
  }

  lemma DifferenceScales(a: real, b: real, l: real)
    ensures (a * l - b * l) * (a * l - b * l) == (a - b) * (a - b) * (l * l)
  {
    assert a * l - b * l == (a - b) * l;
  }

  lemma SumOfFour(a: real, b: real, c: real, d: real, k: real)
    ensures (a + b + c + d) * k == a * k + b * k + c * k + d * k
  {
  }

  lemma SoftenedDistanceScales(p: Vec, q: Vec, s: real, l: real, inv: real -> real)
    ensures DistSqr(p, q, SoftenedLaw(s, inv)) * (l * l)
         == DistSqr(Scale(p, l), Scale(q, l), SoftenedLaw(s * l, inv))
  {
    DifferenceScales(p.x, q.x, l);
    DifferenceScales(p.y, q.y, l);
    DifferenceScales(p.z, q.z, l);
    var d := Sub(p, q);
    SumOfFour(d.x * d.x, d.y * d.y, d.z * d.z, s * s, l * l);
    assert s * l * (s * l) == s * s * (l * l);
  }

  lemma PotentialScales(k: real, m: real, k0: real, m0: real, i: real, mass: real, l: real)
    requires k0 == k * mass && m0 == m * mass
    ensures Potential(k, m, l * i) * (mass * mass) == Potential(k0, m0, i) * l
  {
    assert k * m * (l * i) * (mass * mass) == k * mass * (m * mass) * i * l;
  }

  lemma SignScales(d: real, d': real, l2: real)
    requires l2 > 0.0 && d' * l2 == d
    ensures d' > 0.0 <==> d > 0.0
  {
    if d' > 0.0 {
      var p := ProductPositive(d', l2);
    } else {
      ProductNonNegative(-d', l2);
    }
  }

  /** Potential energy of two bodies that are at softened squared distance `d`. */
  function PairPotential(k: real, m: real, d: real, inv: real -> real): real {
    if d <= 0.0 then 0.0 else Potential(k, m, inv(d))
  }

  lemma PairPotentialScales(k: real, m: real, k0: real, m0: real, d: real, d': real, mass: real, m2: real, l: real,
                            inv: real -> real)
    requires InverseRoot(inv) && l > 0.0 && d' * (l * l) == d && m2 == mass * mass
    requires k0 == k * mass && m0 == m * mass
    ensures Proportional(PairPotential(k, m, d', inv), PairPotential(k0, m0, d, inv), m2, l)
  {
    var l2 := ProductPositive(l, l);
    SignScales(d, d', l2);
    if d > 0.0 {
      InverseScales(inv, d, d', l);
      PotentialScales(k, m, k0, m0, inv(d), mass, l);
    }
  }

  /** `t` is `sys` in units of `mass` and `l`. */
  ghost predicate InUnits(t: Bodies, sys: Bodies, mass: real, l: real) {
    && t.Valid() && sys.Valid() && t.Count() == sys.Count()
    && forall i :: 0 <= i < sys.Count() ==> t.masses[i] * mass == sys.masses[i] && Scale(t.positions[i], l) == sys.positions[i]
  }

  lemma PairPullScalar(sys: Bodies, law: Law, i: nat, j: nat)
    requires sys.Valid() && i < j < sys.Count()
    ensures PairPull(sys, law, i, j).scalar ==
      PairPotential(sys.masses[i], sys.masses[j], DistSqr(sys.positions[j], sys.positions[i], law), law.inv)
  {
  }

  lemma PairScales(t: Bodies, sys: Bodies, s: real, mass: real, m2: real, l: real, inv: real -> real,
                   i: nat, j: nat)
    requires InUnits(t, sys, mass, l) && InverseRoot(inv) && l > 0.0 && m2 == mass * mass && i < j < sys.Count()
    ensures Proportional(PairPull(t, SoftenedLaw(s, inv), i, j).scalar,
                         PairPull(sys, SoftenedLaw(s * l, inv), i, j).scalar, m2, l)
  {
    var law, law' := SoftenedLaw(s * l, inv), SoftenedLaw(s, inv);
    SoftenedDistanceScales(t.positions[j], t.positions[i], s, l, inv);
    var d, d' := DistSqr(sys.positions[j], sys.positions[i], law), DistSqr(t.positions[j], t.positions[i], law');
    PairPotentialScales(t.masses[i], t.masses[j], sys.masses[i], sys.masses[j], d, d', mass, m2, l, inv);
    PairPullScalar(t, law', i, j);
    PairPullScalar(sys, law, i, j);
  }

  /** Where every pair's energy is proportional, so are their sums. */
  ghost predicate PairsProportional(t: Bodies, law': Law, sys: Bodies, law: Law, k: real, l: real) {
    && t.Valid() && sys.Valid() && t.Count() == sys.Count()
    && forall i: nat, j: nat :: i < j < sys.Count() ==>
      Proportional(PairPull(t, law', i, j).scalar, PairPull(sys, law, i, j).scalar, k, l)
  }

  lemma {:induction false} RowScales(t: Bodies, law': Law, sys: Bodies, law: Law, k: real, l: real, i: nat, j: nat)
    requires PairsProportional(t, law', sys, law, k, l) && i < sys.Count() && j <= sys.Count()
    ensures Proportional(RowEnergy(t, law', i, j), RowEnergy(sys, law, i, j), k, l)
  {
    if j > i + 1 {
      RowScales(t, law', sys, law, k, l, i, j - 1);
      ProportionalSums(RowEnergy(t, law', i, j - 1), RowEnergy(sys, law, i, j - 1),
                       PairPull(t, law', i, j - 1).scalar, PairPull(sys, law, i, j - 1).scalar, k, l);
    }
  }

  lemma {:induction false} PairEnergyScales(t: Bodies, law': Law, sys: Bodies, law: Law, k: real, l: real, i: nat)
    requires PairsProportional(t, law', sys, law, k, l) && i <= sys.Count()
    ensures Proportional(PairEnergy(t, law', i, t.Count()), PairEnergy(sys, law, i, sys.Count()), k, l)
  {
    if i > 0 {
      PairEnergyScales(t, law', sys, law, k, l, i - 1);
      RowScales(t, law', sys, law, k, l, i - 1, sys.Count());
      ProportionalSums(PairEnergy(t, law', i - 1, t.Count()), PairEnergy(sys, law, i - 1, sys.Count()),
                       RowEnergy(t, law', i - 1, t.Count()), RowEnergy(sys, law, i - 1, sys.Count()), k, l);
    }
  }

  lemma CancelSquare(a: real, b: real, m2: real, l: real, e: real)
    requires m2 > 0.0 && Proportional(a, b, m2, l) && l * e == G * m2
    ensures a * e == G * b
  {
    assert (a * e) * m2 == (a * m2) * e;
    assert (b * l) * e == b * (l * e);
    assert b * (G * m2) == (G * b) * m2;
    EqualFactors(a * e, G * b, m2);
  }

  lemma ScaledInUnits(sys: System, energy: real, inv: real -> real)
    requires sys.Valid() && TotalMass(sys) > 0.0 && energy > 0.0 && InverseRoot(inv)
    ensures InUnits(Scaled(sys, energy, inv).Matter(), sys.Matter(), TotalMass(sys), LengthUnit(TotalMass(sys), energy))
  {
    var mass, l, t := TotalMass(sys), LengthUnit(TotalMass(sys), energy), Scaled(sys, energy, inv);
    LengthUnitPositive(mass, energy);
    forall i | 0 <= i < sys.Count()
      ensures t.masses[i] * mass == sys.masses[i] && Scale(t.positions[i], l) == sys.positions[i]
    {
      QuotientTimes(sys.masses[i], mass);
      DivTimes(sys.positions[i], l);
    }
  }

  lemma PairEnergyInUnits(t: Bodies, sys: Bodies, s: real, softening: real, mass: real, m2: real, l: real, inv: real -> real)
    requires InUnits(t, sys, mass, l) && InverseRoot(inv) && l > 0.0 && m2 == mass * mass && s * l == softening
    ensures Proportional(PairEnergy(t, SoftenedLaw(s, inv), t.Count(), t.Count()),
                         PairEnergy(sys, SoftenedLaw(softening, inv), sys.Count(), sys.Count()), m2, l)
  {
    var law, law' := SoftenedLaw(s * l, inv), SoftenedLaw(s, inv);
    forall i: nat, j: nat | i < j < sys.Count()
      ensures Proportional(PairPull(t, law', i, j).scalar, PairPull(sys, law, i, j).scalar, m2, l)
    {
      PairScales(t, sys, s, mass, m2, l, inv, i, j);
    }
    PairEnergyScales(t, law', sys, law, m2, l, sys.Count());
    assert law == SoftenedLaw(softening, inv);
  }

  /** `s` is the softening in the length unit. */
  lemma PotentialEnergyScales(sys: System, s: real, softening: real, energy: real, inv: real -> real)
    requires sys.Valid() && TotalMass(sys) > 0.0 && energy > 0.0 && InverseRoot(inv)
    requires s * LengthUnit(TotalMass(sys), energy) == softening
    ensures PotentialEnergy(Scaled(sys, energy, inv), s, inv) * (4.0 * energy) == G * PotentialEnergy(sys, softening, inv)
  {
    var mass, t := TotalMass(sys), Scaled(sys, energy, inv);
    var l := LengthUnit(mass, energy);
    var m2 := ProductPositive(mass, mass);
    LengthUnitPositive(mass, energy);
    ScaledInUnits(sys, energy, inv);
    PairEnergyInUnits(t.Matter(), sys.Matter(), s, softening, mass, m2, l, inv);
    QuotientTimes(G * m2, 4.0 * energy);
    CancelSquare(PotentialEnergy(t, s, inv), PotentialEnergy(sys, softening, inv), m2, l, 4.0 * energy);
  }

  ghost function TotalEnergy(sys: System, softening: real, inv: real -> real): real
    requires sys.Valid()
  {
    KineticEnergy(sys) + PotentialEnergy(sys, softening, inv)
  }

  /** The energy before scaling, where the gravitational constant is not 1. */
  ghost function PhysicalEnergy(sys: System, softening: real, inv: real -> real): real
    requires sys.Valid()
  {
    KineticEnergy(sys) + PotentialEnergy(sys, softening, inv) * G
  }

  lemma UnitMass(a: real, b: real, m: real)
    requires a * m == b && b == m && m > 0.0
    ensures a == 1.0
  {
    EqualFactors(a, 1.0, m);
  }

  lemma MassIsOne(sys: System, energy: real, inv: real -> real)
    requires sys.Valid() && TotalMass(sys) > 0.0 && energy > 0.0 && InverseRoot(inv)
    ensures TotalMass(Scaled(sys, energy, inv)) == 1.0
  {
    var mass, t := TotalMass(sys), Scaled(sys, energy, inv);
    forall i | 0 <= i < sys.Count() ensures t.masses[i] * mass == sys.masses[i] {
      QuotientTimes(sys.masses[i], mass);
    }
    MassesScale(t.positions, sys.positions, sys.masses, t.masses, mass, sys.Count());
    UnitMass(WeightedSum(t.positions, t.masses, sys.Count()).scalar,
             WeightedSum(sys.positions, sys.masses, sys.Count()).scalar, mass);
  }

  /** In Hénon units the total mass is 1, and the energy, with the softening in units of length,
      is a quarter of the physical one per unit of `energy`: exactly +1/4 or -1/4 when that is its absolute value. */
  lemma StandardUnits(sys: System, s: real, softening: real, energy: real, inv: real -> real)
    requires sys.Valid() && TotalMass(sys) > 0.0 && energy > 0.0 && InverseRoot(inv)
    requires s * LengthUnit(TotalMass(sys), energy) == softening
    ensures TotalMass(Scaled(sys, energy, inv)) == 1.0
    ensures TotalEnergy(Scaled(sys, energy, inv), s, inv) * (4.0 * energy) == PhysicalEnergy(sys, softening, inv)
    ensures energy == Abs(PhysicalEnergy(sys, softening, inv)) ==>
      TotalEnergy(Scaled(sys, energy, inv), s, inv) == if PhysicalEnergy(sys, softening, inv) > 0.0 then 0.25 else -0.25
  {
    var t := Scaled(sys, energy, inv);
    MassIsOne(sys, energy, inv);
    KineticScales(sys, energy, inv);
    PotentialEnergyScales(sys, s, softening, energy, inv);
    Quarter(KineticEnergy(t), PotentialEnergy(t, s, inv), TotalEnergy(t, s, inv), energy,
            KineticEnergy(sys), PotentialEnergy(sys, softening, inv), PhysicalEnergy(sys, softening, inv));
  }

  /** Kinetic, potential and total energy after and before the scaling. */
  lemma Quarter(k': real, p': real, total: real, energy: real, k: real, p: real, physical: real)
    requires energy > 0.0 && total == k' + p' && physical == k + p * G
    requires k' * (4.0 * energy) == k && p' * (4.0 * energy) == G * p
    ensures total * (4.0 * energy) == physical
    ensures energy == Abs(physical) ==> total == if physical > 0.0 then 0.25 else -0.25
  {
    ProductsAdd(k', p', 4.0 * energy);
    if energy == physical {
      EqualFactors(total, 0.25, energy);
    } else if energy == -physical {
      EqualFactors(total, -0.25, energy);
    }
  }

  // ---- the initial system of a simulator ----

  /** The scaling divides by the mass and by the energy that it computes, and the energy by every softened distance. */
  ghost predicate Scalable(sys: System, softeningSqr: real, inv: real -> real) {
    && sys.Valid() && InverseRoot(inv)
    && (sys.Count() > 0 ==>
      && TotalMass(sys) > 0.0 && Apart(sys, SoftenedLaw(softeningSqr, inv))
      && PhysicalEnergy(sys, softeningSqr, inv) != 0.0)
  }

  /** The initial system as simulators scale it. */
  ghost function Normalized(sys: System, softeningSqr: real, inv: real -> real): (r: System)
    requires Scalable(sys, softeningSqr, inv)
    ensures r.Valid() && r.Count() == sys.Count()
  {
    if sys.Count() == 0 then sys else Scaled(sys, Abs(PhysicalEnergy(sys, softeningSqr, inv)), inv)
  }

  /** The length unit of that scaling. */
  ghost function InitialLength(sys: System, softeningSqr: real, inv: real -> real): (r: real)
    requires Scalable(sys, softeningSqr, inv) && sys.Count() > 0
    ensures r > 0.0
  {
    LengthUnitPositive(TotalMass(sys), Abs(PhysicalEnergy(sys, softeningSqr, inv)));
    LengthUnit(TotalMass(sys), Abs(PhysicalEnergy(sys, softeningSqr, inv)))
  }

  /** The energy that Hénon units promise: the sign is that of the physical energy. */
  ghost function Quarters(sys: System, softeningSqr: real, inv: real -> real): real
    requires sys.Valid()
  {
    if PhysicalEnergy(sys, softeningSqr, inv) > 0.0 then 0.25 else -0.25
  }

  /** The scaled initial system has mass 1, and the promised energy under the squared softening in the length unit. */
  lemma NormalizedEnergy(sys: System, softeningSqr: real, inv: real -> real, s: real)
    requires Scalable(sys, softeningSqr, inv) && sys.Count() > 0
    requires s * InitialLength(sys, softeningSqr, inv) == softeningSqr
    ensures TotalMass(Normalized(sys, softeningSqr, inv)) == 1.0
    ensures TotalEnergy(Normalized(sys, softeningSqr, inv), s, inv) == Quarters(sys, softeningSqr, inv)
  {
    StandardUnits(sys, s, softeningSqr, Abs(PhysicalEnergy(sys, softeningSqr, inv)), inv);
  }

  // ---- more softening, more energy ----

  lemma InverseDecreases(inv: real -> real, d: real, e: real)
    requires InverseRoot(inv) && 0.0 < d < e
    ensures inv(e) < inv(d)
  {
    var i, j := inv(d), inv(e);
    InverseOrder(i, j, d, e);
  }

  lemma InverseOrder(i: real, j: real, d: real, e: real)
    requires i > 0.0 && j > 0.0 && 0.0 < d < e && i * i * d == 1.0 && j * j * e == 1.0
    ensures j < i
  {
    if i <= j {
      var i2 := ProductPositive(i, i);
      ProductMonotone(i, j, i);
      ProductMonotone(i, j, j);
      ProductMonotone(i2, j * j, e);
      ProductCancels(e, d, i2);
    }
  }

  lemma PotentialRises(k: real, m: real, i: real, j: real)
    requires k > 0.0 && m > 0.0 && j < i
    ensures Potential(k, m, i) < Potential(k, m, j)
  {
    var km := ProductPositive(k, m);
    var p := ProductPositive(km, i - j);
    assert p == km * i - km * j;
  }

  lemma PairRises(sys: Bodies, a: real, b: real, inv: real -> real, i: nat, j: nat)
    requires sys.Valid() && InverseRoot(inv) && 0.0 < a < b && i < j < sys.Count()
    requires sys.masses[i] > 0.0 && sys.masses[j] > 0.0
    ensures PairPull(sys, SoftenedLaw(a, inv), i, j).scalar < PairPull(sys, SoftenedLaw(b, inv), i, j).scalar
  {
    var p, q := sys.positions[i], sys.positions[j];
    Norm2Positive(Sub(q, p));
    var a2 := ProductPositive(a, a);
    SquareIncreases(a, b);
    var d, e := DistSqr(q, p, SoftenedLaw(a, inv)), DistSqr(q, p, SoftenedLaw(b, inv));
    InverseDecreases(inv, d, e);
    PotentialRises(sys.masses[i], sys.masses[j], inv(d), inv(e));
    PairPullScalar(sys, SoftenedLaw(a, inv), i, j);
    PairPullScalar(sys, SoftenedLaw(b, inv), i, j);
  }

  /** Under `b` every pair has more energy than under `a`. */
  ghost predicate PairsRise(sys: Bodies, a: Law, b: Law) {
    && sys.Valid()
    && forall i: nat, j: nat :: i < j < sys.Count() ==> PairPull(sys, a, i, j).scalar < PairPull(sys, b, i, j).scalar
  }

  lemma {:induction false} RowRises(sys: Bodies, a: Law, b: Law, i: nat, j: nat)
    requires PairsRise(sys, a, b) && i < sys.Count() && j <= sys.Count()
    ensures RowEnergy(sys, a, i, j) <= RowEnergy(sys, b, i, j)
    ensures j > i + 1 ==> RowEnergy(sys, a, i, j) < RowEnergy(sys, b, i, j)
  {
    if j > i + 1 {
      RowRises(sys, a, b, i, j - 1);
    }
  }

  lemma {:induction false} PairEnergyRises(sys: Bodies, a: Law, b: Law, i: nat)
    requires PairsRise(sys, a, b) && i <= sys.Count()
    ensures PairEnergy(sys, a, i, sys.Count()) <= PairEnergy(sys, b, i, sys.Count())
    ensures i > 0 && sys.Count() > 1 ==> PairEnergy(sys, a, i, sys.Count()) < PairEnergy(sys, b, i, sys.Count())
  {
    if i > 0 {
      PairEnergyRises(sys, a, b, i - 1);
      RowRises(sys, a, b, i - 1, sys.Count());
    }
  }

  /** Two particles of positive mass suffice for the energy to grow strictly with the softening. */
  lemma SofteningRaisesEnergy(sys: System, a: real, b: real, inv: real -> real)
    requires sys.Valid() && InverseRoot(inv) && PositiveMasses(sys.Matter()) && sys.Count() > 1 && 0.0 < a < b
    ensures TotalEnergy(sys, a, inv) < TotalEnergy(sys, b, inv)
  {
    forall i: nat, j: nat | i < j < sys.Count()
      ensures PairPull(sys.Matter(), SoftenedLaw(a, inv), i, j).scalar < PairPull(sys.Matter(), SoftenedLaw(b, inv), i, j).scalar
    {
      PairRises(sys.Matter(), a, b, inv, i, j);
    }
    PairEnergyRises(sys.Matter(), SoftenedLaw(a, inv), SoftenedLaw(b, inv), sys.Count());
  }

  /** So the softening can be read off the energy. */
  lemma EnergyTellsSoftening(sys: System, a: real, b: real, inv: real -> real)
    requires sys.Valid() && InverseRoot(inv) && PositiveMasses(sys.Matter()) && sys.Count() > 1 && a > 0.0 && b > 0.0
    ensures TotalEnergy(sys, a, inv) == TotalEnergy(sys, b, inv) <==> a == b
  {
    if a < b {
      SofteningRaisesEnergy(sys, a, b, inv);
    } else if b < a {
      SofteningRaisesEnergy(sys, b, a, inv);
    }
  }

  lemma MassesStayPositive(sys: System, softeningSqr: real, inv: real -> real)
    requires Scalable(sys, softeningSqr, inv) && PositiveMasses(sys.Matter())
    ensures PositiveMasses(Normalized(sys, softeningSqr, inv).Matter())
  {
    if sys.Count() > 0 {
      forall i | 0 <= i < sys.Count() ensures Normalized(sys, softeningSqr, inv).masses[i] > 0.0 {
        QuotientPositive(sys.masses[i], TotalMass(sys));
      }
    }
  }

  lemma QuotientsDiffer(a: Vec, b: Vec, l: real)
    requires l > 0.0
    ensures Div(a, l) == Div(b, l) <==> a == b
  {
    DivTimes(a, l);
    DivTimes(b, l);
  }

  /** Scaling keeps apart what is apart. */
  lemma PositionsStayEqual(sys: System, softeningSqr: real, inv: real -> real)
    requires Scalable(sys, softeningSqr, inv)
    ensures forall i, j :: 0 <= i < sys.Count() && 0 <= j < sys.Count() ==>
      (Normalized(sys, softeningSqr, inv).positions[i] == Normalized(sys, softeningSqr, inv).positions[j] <==>
       sys.positions[i] == sys.positions[j])
  {
    if sys.Count() > 0 {
      var length, r := InitialLength(sys, softeningSqr, inv), Normalized(sys, softeningSqr, inv);
      forall i, j | 0 <= i < sys.Count() && 0 <= j < sys.Count()
        ensures r.positions[i] == r.positions[j] <==> sys.positions[i] == sys.positions[j]
      {
        QuotientsDiffer(sys.positions[i], sys.positions[j], length);
      }
    }
  }

  lemma SameSoftening(eps: real, length: real, s: real)
    requires eps > 0.0 && length > 0.0 && s * length == eps * eps
    ensures s > 0.0 && (eps == s <==> eps == length)
  {
    var e2 := ProductPositive(eps, eps);
    if s <= 0.0 {
      ProductNonNegative(-s, length);
    }
    if eps == s {
      assert length * eps == s * length;
      EqualFactors(length, eps, eps);
    }
    if eps == length {
      EqualFactors(s, eps, length);
    }
  }

  lemma OwnSquare(a: real, b: real)
    requires a > 0.0 && b == a * a && b == a
    ensures a == 1.0
  {
    if a < 1.0 {
      var p := ProductPositive(1.0 - a, a);
    } else if a > 1.0 {
      var p := ProductPositive(a - 1.0, a);
    }
  }

  lemma SameInUnits(eps: real, length: real, s: real, u: real)
    requires eps > 0.0 && length > 0.0 && s * length == eps * eps && u * length == eps
    ensures u > 0.0 && (u == s <==> eps == 1.0)
  {
    if u <= 0.0 {
      ProductNonNegative(-u, length);
    }
    if u == s {
      OwnSquare(eps, s * length);
    }
    if eps == 1.0 {
      EqualFactors(u, s, length);
    }
  }

  /** A simulator with softening `eps` passes its square. Its scaled initial system has the promised energy under the
      softening that it then runs with exactly when that is the length unit, and under that softening in the length
      unit exactly when it is 1. */
  lemma EnergyUnderOwnSoftening(sys: System, eps: real, inv: real -> real, u: real)
    requires Scalable(sys, eps * eps, inv) && PositiveMasses(sys.Matter()) && sys.Count() > 1 && eps > 0.0
    requires u * InitialLength(sys, eps * eps, inv) == eps
    ensures TotalEnergy(Normalized(sys, eps * eps, inv), eps, inv) == Quarters(sys, eps * eps, inv)
      <==> eps == InitialLength(sys, eps * eps, inv)
    ensures TotalEnergy(Normalized(sys, eps * eps, inv), u, inv) == Quarters(sys, eps * eps, inv) <==> eps == 1.0
  {
    var softening := eps * eps;
    var length, t := InitialLength(sys, softening, inv), Normalized(sys, softening, inv);
    var s := softening / length;
    QuotientTimes(softening, length);
    NormalizedEnergy(sys, softening, inv, s);
    MassesStayPositive(sys, softening, inv);
    SameSoftening(eps, length, s);
    SameInUnits(eps, length, s, u);
    EnergyTellsSoftening(t, eps, s, inv);
    EnergyTellsSoftening(t, u, s, inv);
  }

  /** The potential energies for the squared softening and for the softening itself are the same only when it is 1. */
  lemma EnergyUnderSquare(sys: System, eps: real, inv: real -> real)
    requires sys.Valid() && InverseRoot(inv) && PositiveMasses(sys.Matter()) && sys.Count() > 1 && eps > 0.0
    ensures PotentialEnergy(sys, eps * eps, inv) == PotentialEnergy(sys, eps, inv) <==> eps == 1.0
  {
    var square := ProductPositive(eps, eps);
    EnergyTellsSoftening(sys, square, eps, inv);
    if square == eps {
      OwnSquare(eps, square);
    }
  }

  lemma SoftenedApart(sys: System, softening: real, inv: real -> real)
    requires sys.Valid() && softening > 0.0
    ensures Apart(sys, SoftenedLaw(softening, inv))
  {
    var square := ProductPositive(softening, softening);
    forall i: nat, j: nat | i < j < sys.Count()
      ensures DistSqr(sys.positions[j], sys.positions[i], SoftenedLaw(softening, inv)) > 0.0
    {
      Norm2Positive(Sub(sys.positions[j], sys.positions[i]));
    }
  }

  // Two unit masses at rest at unit distance.

  ghost predicate AtUnitDistance(sys: System) {
    && sys.Valid() && sys.Count() == 2 && sys.velocities == [ZERO, ZERO] && sys.masses == [1.0, 1.0]
    && Norm2(Sub(sys.positions[1], sys.positions[0])) == 1.0
  }

  lemma SumsOfTwo(sys: System, law: Law)
    requires sys.Valid() && sys.Count() == 2
    ensures TotalMass(sys) == sys.masses[0] + sys.masses[1]
    ensures PairEnergy(sys.Matter(), law, 2, 2) == PairPull(sys.Matter(), law, 0, 1).scalar
  {
    assert WeightedSum(sys.positions, sys.masses, 1).scalar == sys.masses[0];
    assert RowEnergy(sys.Matter(), law, 0, 1) == 0.0 && RowEnergy(sys.Matter(), law, 1, 2) == 0.0;
    assert PairEnergy(sys.Matter(), law, 1, 2) == RowEnergy(sys.Matter(), law, 0, 2);
  }

  lemma NoSpeed(m: real)
    ensures DoubleEnergy(m, ZERO) == 0.0
  {
    assert Norm2(ZERO) == 0.0;
  }

  lemma TwoZeros(xs: seq<real>)
    requires xs == [0.0, 0.0]
    ensures RealSum(xs, 2) == 0.0
  {
    assert RealSum(xs, 1) == 0.0;
  }

  lemma RestHasNoEnergy(sys: System)
    requires sys.Valid() && sys.velocities == [ZERO, ZERO]
    ensures KineticEnergy(sys) == 0.0
  {
    var terms := DoubleKinetics(sys.velocities, sys.masses);
    assert terms == [0.0, 0.0] by {
      NoSpeed(sys.masses[0]);
      NoSpeed(sys.masses[1]);
    }
    TwoZeros(terms);
  }

  /** Their energy before scaling. */
  lemma UnitDistanceEnergy(sys: System, softening: real, inv: real -> real, d: real)
    requires AtUnitDistance(sys) && InverseRoot(inv) && softening > 0.0 && d == 1.0 + softening * softening
    ensures d > 1.0 && Scalable(sys, softening, inv) && TotalMass(sys) == 2.0
    ensures PhysicalEnergy(sys, softening, inv) == -inv(d) * G
  {
    var law := SoftenedLaw(softening, inv);
    var s2 := ProductPositive(softening, softening);
    SumsOfTwo(sys, law);
    RestHasNoEnergy(sys);
    PairPullScalar(sys.Matter(), law, 0, 1);
    assert DistSqr(sys.positions[1], sys.positions[0], law) == d;
    assert PairPotential(1.0, 1.0, d, inv) == -inv(d);
  }

  lemma UnitLength(i: real, d: real, length: real)
    requires i > 0.0 && i * i * d == 1.0 && length == G * (2.0 * 2.0) / (4.0 * (i * G))
    ensures length * length == d
  {
    QuotientTimes(G * (2.0 * 2.0), 4.0 * (i * G));
    assert length * i == 1.0;
    assert length * length * (i * i * d) == (length * i) * (length * i) * d;
  }

  lemma NoSuchLength(eps: real, length: real)
    requires length * length == 1.0 + eps * eps * (eps * eps)
    ensures eps != length
  {
    var e2 := SquareOf(eps);
    var p := SquareOf(e2 - 0.5);
  }

  /** For two unit masses at rest at unit distance, the energy under the simulator's own softening is not
      the promised one, whatever the softening is. */
  lemma TwoBodiesMissQuarter(sys: System, eps: real, inv: real -> real)
    requires AtUnitDistance(sys) && InverseRoot(inv) && eps > 0.0
    ensures Scalable(sys, eps * eps, inv)
    ensures TotalEnergy(Normalized(sys, eps * eps, inv), eps, inv) != Quarters(sys, eps * eps, inv)
  {
    var softening := ProductPositive(eps, eps);
    var d := 1.0 + softening * softening;
    UnitDistanceEnergy(sys, softening, inv, d);
    var length := InitialLength(sys, softening, inv);
    UnitLength(inv(d), d, length);
    NoSuchLength(eps, length);
    QuotientTimes(eps, length);
    EnergyUnderOwnSoftening(sys, eps, inv, eps / length);
  }

  // ---- diagnostics ----

  /** What is reported of a system. A quotient by zero is missing. */
  datatype Diagnostics = Diagnostics(
    kinetic: real,
    potential: real,
    angularMomentum: real,
    center: CenterOfMass,
    virialRadius: Option<real>,
    meanSquareVelocity: real,
    crossingTime: Option<real>)

  function QuotientOf(a: real, b: real): Option<real> { if b == 0.0 then None else Some(a / b) }

  ghost function DiagnosticsOf(sys: System, potential: real, inv: real -> real): Diagnostics
    requires sys.Valid()
  {
    var kinetic := KineticEnergy(sys);
    var radius := QuotientOf(0.5, Abs(potential));
    Diagnostics(kinetic, potential, Root(inv, Norm2(AngularMomentum(sys))), CenterOf(sys), radius, 2.0 * kinetic,
                if radius.None? then None else QuotientOf(2.0 * radius.value, Root(inv, 2.0 * kinetic)))
  }

  /** A virial radius `r` goes with a potential energy `u`: times the size of that it is one half, and without one it is
      missing. */
  predicate RadiusOf(r: Option<real>, u: real) {
    (r.Some? <==> u != 0.0) && (r.Some? ==> r.value > 0.0 && r.value * Abs(u) == 0.5)
  }

  /** A crossing time `t` goes with a radius `r` and a mean square velocity `ms`: it is twice the radius over the root of that.
      Without either it is missing. */
  predicate CrossingOf(t: Option<real>, r: Option<real>, ms: real) {
    (t.Some? <==> r.Some? && ms > 0.0) && (t.Some? ==> t.value > 0.0 && Squared(t.value) * ms == 4.0 * Squared(r.value))
  }

  lemma RadiusMeans(u: real)
    ensures RadiusOf(QuotientOf(0.5, Abs(u)), u)
  {
    if u != 0.0 {
      QuotientTimes(0.5, Abs(u));
      QuotientPositive(0.5, Abs(u));
    }
  }

  lemma CrossingMeans(r: Option<real>, ms: real, inv: real -> real)
    requires InverseRoot(inv) && (r.Some? ==> r.value > 0.0)
    ensures CrossingOf(if r.None? then None else QuotientOf(2.0 * r.value, Root(inv, ms)), r, ms)
  {
    if r.Some? && ms > 0.0 {
      CrossingSquared(r.value, ms, Root(inv, ms), inv);
    }
  }

  /** What is reported: virial radius and crossing time in that sense, twice the kinetic energy for a mean square velocity,
      which in a system of mass 1 is the mass-weighted mean of the squared speeds, and for the angular momentum the length of
      its bivector. */
  lemma DiagnosticsMean(sys: System, potential: real, inv: real -> real)
    requires sys.Valid() && InverseRoot(inv)
    ensures var d := DiagnosticsOf(sys, potential, inv);
      && RadiusOf(d.virialRadius, potential)
      && CrossingOf(d.crossingTime, d.virialRadius, d.meanSquareVelocity)
      && d.meanSquareVelocity == RealSum(DoubleKinetics(sys.velocities, sys.masses), sys.Count()) == 2.0 * d.kinetic
      && d.angularMomentum >= 0.0 && Squared(d.angularMomentum) == Norm2(AngularMomentum(sys))
  {
    RadiusMeans(potential);
    CrossingMeans(QuotientOf(0.5, Abs(potential)), 2.0 * KineticEnergy(sys), inv);
    Norm2Positive(AngularMomentum(sys));
    RootSquares(inv, Norm2(AngularMomentum(sys)));
  }

  function Squared(a: real): real { a * a }

  lemma CrossingSquared(radius: real, ms: real, speed: real, inv: real -> real)
    requires InverseRoot(inv) && ms > 0.0 && radius > 0.0 && speed == Root(inv, ms)
    ensures speed > 0.0 && 2.0 * radius / speed > 0.0
    ensures Squared(2.0 * radius / speed) * ms == 4.0 * Squared(radius)
  {
    RootSquares(inv, ms);
    QuotientPositive(2.0 * radius, speed);
    var t := 2.0 * radius / speed;
    assert t * speed == 2.0 * radius;
    assert t * t * (speed * speed) == (t * speed) * (t * speed);
  }

  /** In every run with direct forces the reported angular momentum and velocity of the centre of mass never change,
      and the reported centre of mass moves uniformly. */
  lemma DiagnosticsOfRun(law: Law, dt: real, run: seq<State>, n: nat, p: real, q: real)
    requires IsRun(Direct(law), dt, run) && n < |run| && TotalMass(run[0].sys) != 0.0
    ensures run[0].sys.Valid() && run[n].sys.Valid()
    ensures var first, last := DiagnosticsOf(run[0].sys, p, law.inv), DiagnosticsOf(run[n].sys, q, law.inv);
      && last.angularMomentum == first.angularMomentum && last.center.velocity == first.center.velocity
      && last.center.position == Add(first.center.position, Scale(first.center.velocity, n as real * dt))
  {
    RunConserves(law, dt, run, n);
    CenterMovesUniformly(law, dt, run, n);
  }

  // ---- in place ----

  class SystemData {
    var positions: seq<Vec>
    var velocities: seq<Vec>
    var masses: seq<real>

    function Value(): System
      reads this
    {
      System(positions, velocities, masses)
    }

    ghost predicate Valid()
      reads this
    {
      Value().Valid()
    }

    constructor (sys: System)
      ensures Value() == sys
    {
      positions := sys.positions;
      velocities := sys.velocities;
      masses := sys.masses;
    }

    method GetKineticEnergy() returns (e: real)
      requires Valid()
      ensures e == KineticEnergy(Value())
    {
      if |positions| == 0 {
        return 0.0;
      }
      var sum := 0.0;
      ghost var terms := DoubleKinetics(velocities, masses);
      for i := 0 to |positions|
        invariant sum == RealSum(terms, i)
      {
        sum := sum + masses[i] * Norm2(velocities[i]);
      }
      e := sum * 0.5;
    }

    /** Row `i` of the pair loop. */
    method AddRowEnergy(i: nat, law: Law, sum: real) returns (e: real)
      requires Valid() && Apart(Value(), law) && i < |positions|
      ensures e == sum + RowEnergy(Value().Matter(), law, i, |positions|)
    {
      e := sum;
      for j := i + 1 to |positions|
        invariant e == sum + RowEnergy(Value().Matter(), law, i, j)
      {
        PairPullScalar(Value().Matter(), law, i, j);
        var r := Sub(positions[j], positions[i]);
        var distInv := law.inv(Norm2(r) + law.softeningSqr);
        e := e - masses[i] * masses[j] * distInv;
      }
    }

    method GetPotentialEnergy(softening: real, inv: real -> real) returns (e: real)
      requires Valid() && Apart(Value(), SoftenedLaw(softening, inv))
      ensures e == PotentialEnergy(Value(), softening, inv)
    {
      if |positions| == 0 {
        return 0.0;
      }
      var law := SoftenedLaw(softening, inv);
      e := 0.0;
      for i := 0 to |positions|
        invariant e == PairEnergy(Value().Matter(), law, i, |positions|)
      {
        e := AddRowEnergy(i, law, e);
      }
    }

    method GetAngularMomentum() returns (total: Vec)
      requires Valid()
      ensures total == AngularMomentum(Value())
    {
      ghost var spins := Spins(Value());
      total := ZERO;
      for i := 0 to |positions|
        invariant total == Total(spins, All(|spins|), i).vec
      {
        total := Add(total, Wedge(positions[i], Scale(velocities[i], masses[i])));
      }
    }

    method GetCenterOfMass() returns (c: CenterOfMass)
      requires Valid()
      ensures c == CenterOf(Value())
    {
      if |positions| == 0 {
        return CenterOfMass(ZERO, ZERO);
      }
      var position, velocity, mass := ZERO, ZERO, 0.0;
      SameMass(positions, velocities, masses, 0);
      for i := 0 to |positions|
        invariant Term(position, mass) == WeightedSum(positions, masses, i)
        invariant Term(velocity, mass) == WeightedSum(velocities, masses, i)
      {
        position := Add(position, Scale(positions[i], masses[i]));
        velocity := Add(velocity, Scale(velocities[i], masses[i]));
        mass := mass + masses[i];
      }
      if mass == 0.0 {
        return CenterOfMass(ZERO, ZERO);
      }
      c := CenterOfMass(Div(position, mass), Div(velocity, mass));
    }

    method FillDiagnostics(potential: real, inv: real -> real) returns (d: Diagnostics)
      requires Valid()
      ensures d == DiagnosticsOf(Value(), potential, inv)
    {
      var kinetic := GetKineticEnergy();
      var spin := GetAngularMomentum();
      var center := GetCenterOfMass();
      var radius := QuotientOf(0.5, Abs(potential));
      var time := if radius.None? then None else QuotientOf(2.0 * radius.value, Root(inv, 2.0 * kinetic));
      d := Diagnostics(kinetic, potential, Root(inv, Norm2(spin)), center, radius, 2.0 * kinetic, time);
    }

    method CenterSystem()
      requires Valid()
      modifies this
      ensures Value() == Centered(old(Value()))
    {
      if |positions| == 0 {
        return;
      }
      var c := GetCenterOfMass();
      for i := 0 to |positions|
        invariant masses == old(masses) && |positions| == |velocities| == old(|positions|)
        invariant forall k :: 0 <= k < i ==> positions[k] == Sub(old(positions)[k], c.position)
        invariant forall k :: 0 <= k < i ==> velocities[k] == Sub(old(velocities)[k], c.velocity)
        invariant positions[i..] == old(positions)[i..] && velocities[i..] == old(velocities)[i..]
      {
        positions := positions[i := Sub(positions[i], c.position)];
        velocities := velocities[i := Sub(velocities[i], c.velocity)];
      }
      assert positions == ShiftedAll(old(positions), c.position);
      assert velocities == ShiftedAll(old(velocities), c.velocity);
    }

    /** The sum of the masses. */
    method Accumulate() returns (mass: real)
      requires Valid()
      ensures mass == TotalMass(Value())
    {
      mass := 0.0;
      for i := 0 to |masses|
        invariant mass == WeightedSum(positions, masses, i).scalar
      {
        mass := mass + masses[i];
      }
    }

    method DivideMasses(unit: real)
      requires unit != 0.0
      modifies `masses
      ensures masses == DividedMasses(old(masses), unit)
    {
      for i := 0 to |masses|
        invariant |masses| == old(|masses|)
        invariant forall k :: 0 <= k < i ==> masses[k] == old(masses)[k] / unit
        invariant masses[i..] == old(masses)[i..]
      {
        masses := masses[i := masses[i] / unit];
      }
    }

    method DividePositions(unit: real)
      requires unit != 0.0
      modifies `positions
      ensures positions == DividedAll(old(positions), unit)
    {
      for i := 0 to |positions|
        invariant |positions| == old(|positions|)
        invariant forall k :: 0 <= k < i ==> positions[k] == Div(old(positions)[k], unit)
        invariant positions[i..] == old(positions)[i..]
      {
        positions := positions[i := Div(positions[i], unit)];
      }
    }

    method DivideVelocities(unit: real)
      requires unit != 0.0
      modifies `velocities
      ensures velocities == DividedAll(old(velocities), unit)
    {
      for i := 0 to |velocities|
        invariant |velocities| == old(|velocities|)
        invariant forall k :: 0 <= k < i ==> velocities[k] == Div(old(velocities)[k], unit)
        invariant velocities[i..] == old(velocities)[i..]
      {
        velocities := velocities[i := Div(velocities[i], unit)];
      }
    }

    method ScaleToHenonUnits(energy: real, inv: real -> real)
      requires Valid() && InverseRoot(inv)
      requires |positions| > 0 ==> TotalMass(Value()) > 0.0 && energy > 0.0
      modifies this
      ensures old(|positions|) == 0 ==> Value() == old(Value())
      ensures old(|positions|) > 0 ==> Value() == Scaled(old(Value()), energy, inv)
    {
      if |positions| == 0 {
        return;
      }
      var mass := Accumulate();
      LengthUnitPositive(mass, energy);
      DivideMasses(mass);
      DividePositions(LengthUnit(mass, energy));
      DivideVelocities(VelocityUnit(mass, energy, inv));
    }

    /** What every simulator does first with its initial system. The squared softening is passed where
        the softening is asked for. */
    method ScaleInitialSystem(softeningSqr: real, inv: real -> real)
      requires Scalable(Value(), softeningSqr, inv)
      modifies this
      ensures Valid() && Value() == Normalized(old(Value()), softeningSqr, inv)
    {
      if |positions| == 0 {
        return;
      }
      var kinetic := GetKineticEnergy();
      var potential := GetPotentialEnergy(softeningSqr, inv);
      var energy := Abs(kinetic + potential * G);
      ScaleToHenonUnits(energy, inv);
    }
  }

  /** What is reported after a step, if it is asked for. */
  method Diagnose(asked: bool, sys: System, potential: real, inv: real -> real) returns (d: Option<Diagnostics>)
    requires sys.Valid()
    ensures d == if asked then Some(DiagnosticsOf(sys, potential, inv)) else None
  {
    if !asked {
      return None;
    }
    var data := new SystemData(sys);
    var filled := data.FillDiagnostics(potential, inv);
    d := Some(filled);
  }

  /** The report with the potential energy for a softening. */
  method DiagnoseSoftened(sys: System, softening: real, inv: real -> real) returns (d: Option<Diagnostics>)
    requires sys.Valid() && InverseRoot(inv) && softening > 0.0
    ensures d == Some(DiagnosticsOf(sys, PotentialEnergy(sys, softening, inv), inv))
  {
    SoftenedApart(sys, softening, inv);
    var data := new SystemData(sys);
    var potential := data.GetPotentialEnergy(softening, inv);
    var filled := data.FillDiagnostics(potential, inv);
    d := Some(filled);
  }

  /** The scaled initial system. */
  method ScaleInitial(initial: System, law: Law) returns (scaled: System)
    requires Scalable(initial, law.softeningSqr, law.inv)
    ensures scaled == Normalized(initial, law.softeningSqr, law.inv)
  {
    var data := new SystemData(initial);
    data.ScaleInitialSystem(law.softeningSqr, law.inv);
    scaled := data.Value();
  }
}
