/** Softened gravity between pairs of particles: the direct sum that the tree stands in for. */
module Gravity {
  import opened Vectors
  import opened Systems

  /** Softening and the inverse square root routine. */
  datatype Law = Law(softeningSqr: real, inv: real -> real) {
    ghost predicate Valid() { softeningSqr >= 0.0 && InverseRoot(inv) }
  }

  /** Softened squared distance. */
  function DistSqr(p: Vec, q: Vec, law: Law): real { Norm2(Sub(p, q)) + law.softeningSqr }

  function Cubed(a: real): real { a * a * a }

  /** Potential energy of two masses. */
  function Potential(k: real, m: real, distInv: real): real { -(k * m * distInv) }

  /** Acceleration of a mass `k` towards a mass `m` that lies in direction `r`, and their potential energy. */
  function PullAlong(r: Vec, m: real, k: real, distInv: real): Term {
    Term(Scale(Scale(r, m), Cubed(distInv)), Potential(k, m, distInv))
  }

  /** Acceleration of a particle at `target` towards mass `m` at `p`, and their potential energy.
      Pairs without any distance are skipped. */
  ghost function Pull(m: real, p: Vec, target: Vec, targetMass: real, law: Law): Term {
    var d := DistSqr(p, target, law);
    if d <= 0.0 then NOTHING else PullAlong(Sub(p, target), m, targetMass, law.inv(d))
  }

  /** What particle `j` does to particle `i`. */
  ghost function PairPull(sys: Bodies, law: Law, i: nat, j: nat): Term
    requires sys.Valid() && i < sys.Count() && j < sys.Count()
  {
    if i == j then NOTHING
    else Pull(sys.masses[j], sys.positions[j], sys.positions[i], sys.masses[i], law)
  }

  ghost function Pulls(sys: Bodies, law: Law, i: nat): (r: seq<Term>)
    requires sys.Valid() && i < sys.Count()
    ensures |r| == sys.Count()
    ensures forall j :: 0 <= j < |r| ==> r[j] == PairPull(sys, law, i, j)
  {
    seq(sys.Count(), j requires 0 <= j < sys.Count() => PairPull(sys, law, i, j))
  }

  /** The direct sum over the particles `s`. */
  ghost function PullFrom(sys: Bodies, law: Law, i: nat, s: set<nat>): Term
    requires sys.Valid() && i < sys.Count()
  {
    Total(Pulls(sys, law, i), s, sys.Count())
  }

  /** The acceleration of particle `i` by direct summation, with its share of the potential energy. */
  ghost function DirectPull(sys: Bodies, law: Law, i: nat): Term
    requires sys.Valid() && i < sys.Count()
  {
    PullFrom(sys, law, i, All(sys.Count()))
  }

  // ---- pairs are symmetric ----

  lemma DistSqrSymmetric(p: Vec, q: Vec, law: Law)
    ensures DistSqr(p, q, law) == DistSqr(q, p, law)
  {
    SquareSymmetric(p.x, q.x);
    SquareSymmetric(p.y, q.y);
    SquareSymmetric(p.z, q.z);
  }

  lemma SquareSymmetric(a: real, b: real)
    ensures (a - b) * (a - b) == (b - a) * (b - a)
  {
  }

  lemma UnequalPointsApart(p: Vec, q: Vec, law: Law)
    requires !NearlyEqual(p, q) && law.softeningSqr >= 0.0
    ensures Norm2(Sub(p, q)) > 0.0 && DistSqr(p, q, law) > 0.0
  {
    Norm2Positive(Sub(p, q));
  }

  // ---- the form of the force the tree walk uses ----

  /** 1 / d^(3/2) in the two forms the simulators use. */
  lemma CubedInverse(i: real, d: real, m: real)
    requires d > 0.0 && i * i * d == 1.0
    ensures m * i / d == m * Cubed(i)
  {
    InverseSquare(i, d, m * i);
  }

  lemma InverseSquare(i: real, d: real, a: real)
    requires d > 0.0 && i * i * d == 1.0
    ensures a / d == a * (i * i)
  {
    var q := a * (i * i);
    assert q * d == a * (i * i * d);
    assert q * d == a;
  }

  /** The pull as the tree walk computes it, from an accumulated potential energy. */
  lemma PullInWalkForm(r: Vec, m: real, k: real, i: real, d: real)
    requires d > 0.0 && i * i * d == 1.0
    ensures PullAlong(r, m, k, i).vec == Scale(r, m * i / d)
    ensures PullAlong(r, m, k, i).scalar == -(m * k * i)
  {
    CubedInverse(i, d, m);
    ScaleTwiceTo(r, m, Cubed(i), m * i / d);
    ProductsCommute(k, m, i);
  }

  lemma ProductsCommute(a: real, b: real, c: real)
    ensures a * b * c == b * a * c
  {
  }

  lemma ScaleTwiceTo(v: Vec, a: real, b: real, c: real)
    requires c == a * b
    ensures Scale(Scale(v, a), b) == Scale(v, c)
  {
    ScaleTwice(v, a, b);
  }

  lemma ScaleTwice(v: Vec, a: real, b: real)
    ensures Scale(Scale(v, a), b) == Scale(v, a * b)
  {
    assert v.x * a * b == v.x * (a * b);
    assert v.y * a * b == v.y * (a * b);
    assert v.z * a * b == v.z * (a * b);
  }

  // ---- the law ----

  lemma Norm2Scaled(v: Vec, s: real)
    ensures Norm2(Scale(v, s)) == Norm2(v) * (s * s)
  {
    assert v.x * s * (v.x * s) == v.x * v.x * (s * s);
    assert v.y * s * (v.y * s) == v.y * v.y * (s * s);
    assert v.z * s * (v.z * s) == v.z * v.z * (s * s);
  }

  lemma DotScaled(v: Vec, s: real)
    ensures Dot(Scale(v, s), v) == Norm2(v) * s
  {
    assert v.x * s * v.x == v.x * v.x * s;
    assert v.y * s * v.y == v.y * v.y * s;
    assert v.z * s * v.z == v.z * v.z * s;
  }

  lemma SixInverses(i: real, d: real)
    requires i * i * d == 1.0
    ensures Cubed(i) * Cubed(i) * Cubed(d) == 1.0
  {
    assert Cubed(i) * Cubed(i) * Cubed(d) == Cubed(i * i * d);
  }

  /** At softened squared distance `d` and squared distance `n`, the square of an acceleration is m² n / d³. */
  predicate PlummerForce(a: Vec, m: real, n: real, d: real) { Norm2(a) * Cubed(d) == m * m * n }

  /** Without softening it is m² / n²: the inverse square law. */
  predicate InverseSquareForce(a: Vec, m: real, n: real) { Norm2(a) * (n * n) == m * m }

  /** The potential energy is not positive if the masses are not negative, and its square is that of the masses over `d`. */
  predicate PlummerPotential(u: real, k: real, m: real, d: real) {
    u * u * d == k * m * (k * m) && (k * m >= 0.0 ==> u <= 0.0)
  }

  lemma PulledAlong(r: Vec, m: real, i: real, d: real)
    requires i * i * d == 1.0
    ensures PlummerForce(Scale(Scale(r, m), Cubed(i)), m, Norm2(r), d)
  {
    var c := Cubed(i);
    SixInverses(i, d);
    Norm2Scaled(r, m);
    Norm2Scaled(Scale(r, m), c);
    var a := m * m * Norm2(r);
    assert Norm2(Scale(Scale(r, m), c)) * Cubed(d) == a * (c * c) * Cubed(d);
    assert a * (c * c) * Cubed(d) == a * (c * c * Cubed(d));
  }

  lemma WithoutSoftening(a: Vec, m: real, d: real)
    requires d > 0.0 && PlummerForce(a, m, d, d)
    ensures InverseSquareForce(a, m, d)
  {
    var error := Norm2(a) * (d * d) - m * m;
    assert error * d == Norm2(a) * Cubed(d) - m * m * d;
    if error > 0.0 {
      var p := ProductPositive(error, d);
    } else if error < 0.0 {
      var p := ProductPositive(-error, d);
    }
  }

  lemma PointsAlong(r: Vec, m: real, i: real)
    requires m >= 0.0 && i > 0.0
    ensures Dot(Scale(Scale(r, m), Cubed(i)), r) >= 0.0
  {
    ScaleTwice(r, m, Cubed(i));
    var s := ProductPositive(i, i);
    var c := ProductPositive(s, i);
    ProductNonNegative(m, c);
    Norm2Positive(r);
    DotScaled(r, m * Cubed(i));
    ProductNonNegative(Norm2(r), m * c);
  }

  lemma PotentialFallsOff(k: real, m: real, i: real, d: real)
    requires i > 0.0 && i * i * d == 1.0
    ensures PlummerPotential(Potential(k, m, i), k, m, d)
  {
    assert Potential(k, m, i) * Potential(k, m, i) * d == k * m * (k * m) * (i * i * d);
    if k * m >= 0.0 {
      ProductNonNegative(k * m, i);
    }
  }

  /** Every pair with a distance attracts by Plummer's law, with unit gravitational constant. */
  lemma PullFollowsLaw(m: real, p: Vec, target: Vec, k: real, law: Law)
    requires law.Valid() && DistSqr(p, target, law) > 0.0
    ensures var pull, r, d := Pull(m, p, target, k, law), Sub(p, target), DistSqr(p, target, law);
      && PlummerForce(pull.vec, m, Norm2(r), d)
      && PlummerPotential(pull.scalar, k, m, d)
      && (m >= 0.0 ==> Dot(pull.vec, r) >= 0.0)
      && (law.softeningSqr == 0.0 ==> InverseSquareForce(pull.vec, m, Norm2(r)))
  {
    var r, d := Sub(p, target), DistSqr(p, target, law);
    var i := law.inv(d);
    PulledAlong(r, m, i, d);
    PotentialFallsOff(k, m, i, d);
    if m >= 0.0 {
      PointsAlong(r, m, i);
    }
    if law.softeningSqr == 0.0 {
      WithoutSoftening(Scale(Scale(r, m), Cubed(i)), m, d);
    }
  }
}
