/** What the jerk is: the rate at which the acceleration changes while the particles move. */
module Jerk {
  import opened Vectors
  import opened Systems
  import opened Gravity
  import opened Hits

  /** A quantity and the rate at which it changes. Products follow the product rule. */
  datatype Rate = Rate(at: real, change: real) {
    function Plus(o: Rate): Rate { Rate(at + o.at, change + o.change) }

    function Times(o: Rate): Rate { Rate(at * o.at, change * o.at + at * o.change) }
  }

  function Still(a: real): Rate { Rate(a, 0.0) }

  function Coordinate(v: Vec, axis: nat): real { if axis == 0 then v.x else if axis == 1 then v.y else v.z }

  /** One coordinate of a particle that is at `r` and moves with `v`. */
  function Moving(r: Vec, v: Vec, axis: nat): Rate { Rate(Coordinate(r, axis), Coordinate(v, axis)) }

  function Squared(a: Rate): Rate { a.Times(a) }

  /** The softened squared distance. */
  function Distance(r: Vec, v: Vec, softeningSqr: real): Rate {
    Squared(Moving(r, v, 0)).Plus(Squared(Moving(r, v, 1))).Plus(Squared(Moving(r, v, 2))).Plus(Still(softeningSqr))
  }

  /** The inverse square root of `d`: its square times `d` is 1, and stays so. */
  predicate IsInverseRoot(k: Rate, d: Rate, inv: real -> real) {
    k.at == inv(d.at) && k.Times(k).Times(d) == Still(1.0)
  }

  lemma RateOfInverse(i: real, i': real, d: real, d': real)
    requires i * i * d == 1.0
    ensures (i' * i + i * i') * d + i * i * d' == 0.0 <==> i' == -(i * i * i) * d' * 0.5
  {
    assert (i' * i + i * i') * d == 2.0 * i * d * i';
    assert i * (2.0 * i * d * i') == 2.0 * i' * (i * i * d);
    if (i' * i + i * i') * d + i * i * d' == 0.0 {
      assert i * ((i' * i + i * i') * d + i * i * d') == 2.0 * i' + i * i * i * d';
    }
    if i' == -(i * i * i) * d' * 0.5 {
      assert 2.0 * i * d * i' == -(i * i * d) * (i * i * d');
    }
  }

  /** An inverse root `i` of a squared length that changes at twice `dot`. */
  function InverseRate(i: real, dot: real): Rate { Rate(i, -Cubed(i) * dot) }

  /** A positive squared length has exactly one inverse square root, and its rate is known. */
  lemma InverseRootRate(d: Rate, a: real, dot: real, k: Rate, inv: real -> real)
    requires InverseRoot(inv) && a > 0.0 && d == Rate(a, 2.0 * dot)
    ensures IsInverseRoot(k, d, inv) <==> k == InverseRate(inv(a), dot)
  {
    var i := inv(a);
    assert i * i * a == 1.0;
    RateOfInverse(i, k.change, a, d.change);
    assert -(i * i * i) * d.change * 0.5 == -Cubed(i) * dot;
  }

  // ---- a pair ----

  /** One coordinate of the acceleration towards mass `m` at `r`, with the inverse distance `k`. */
  function PullRate(r: Vec, v: Vec, m: real, k: Rate, axis: nat): Rate {
    Moving(r, v, axis).Times(Still(m)).Times(k.Times(k).Times(k))
  }

  /** The cubed inverse root. */
  function CubedRate(i: real, dot: real): Rate { Rate(Cubed(i), -3.0 * (i * i * i * i * i) * dot) }

  function Thrice(a: real, m: real, c: real): real { a * m * c }

  /** One coordinate of the vector along which the jerk points. */
  function JerkAlong(r: real, v: real, dot: real, i: real): real { v - r * Approach(dot, i) }

  lemma CubeRate(i: real, dot: real)
    ensures var k := InverseRate(i, dot);
      k.Times(k).Times(k) == CubedRate(i, dot)
  {
    var i' := -Cubed(i) * dot;
    assert (i' * i + i * i') * i + i * i * i' == 3.0 * (i * i * i');
    assert i * i * i' == -(i * i * i * i * i) * dot;
  }

  lemma PullCoordinate(r: real, v: real, m: real, i: real, dot: real, u: real)
    requires u == JerkAlong(r, v, dot, i)
    ensures Rate(r, v).Times(Still(m)).Times(CubedRate(i, dot)) == Rate(Thrice(r, m, Cubed(i)), Thrice(u, m, Cubed(i)))
  {
    var c := Cubed(i);
    assert r * Approach(dot, i) * m * c == r * m * (3.0 * dot * i * i * c);
    assert 3.0 * dot * i * i * c == 3.0 * (i * i * i * i * i) * dot;
    assert u * m * c == v * m * c - r * Approach(dot, i) * m * c;
  }

  lemma DistanceRates(r: Vec, v: Vec, softeningSqr: real)
    ensures Distance(r, v, softeningSqr) == Rate(Norm2(r) + softeningSqr, 2.0 * Dot(r, v))
  {
  }

  lemma JerkCoordinate(r: Vec, v: Vec, i: real, dot: real, axis: nat)
    requires dot == Dot(r, v)
    ensures Coordinate(JerkTerm(r, v, i), axis) == JerkAlong(Coordinate(r, axis), Coordinate(v, axis), dot, i)
  {
  }

  lemma ScaledCoordinate(u: Vec, m: real, c: real, axis: nat)
    ensures Coordinate(Scale(Scale(u, m), c), axis) == Thrice(Coordinate(u, axis), m, c)
  {
  }

  lemma PullChanges(r: Vec, v: Vec, m: real, i: real, dot: real, axis: nat)
    requires dot == Dot(r, v)
    ensures PullRate(r, v, m, InverseRate(i, dot), axis)
      == Moving(Scale(Scale(r, m), Cubed(i)), Scale(Scale(JerkTerm(r, v, i), m), Cubed(i)), axis)
  {
    CubeRate(i, dot);
    JerkCoordinate(r, v, i, dot, axis);
    PullCoordinate(Coordinate(r, axis), Coordinate(v, axis), m, i, dot, Coordinate(JerkTerm(r, v, i), axis));
    ScaledCoordinate(r, m, Cubed(i), axis);
    ScaledCoordinate(JerkTerm(r, v, i), m, Cubed(i), axis);
  }

  function Towards(vs: seq<Vec>, i: nat, j: nat): Vec
    requires i < |vs| && j < |vs|
  {
    Sub(vs[j], vs[i])
  }

  /** The inverse distance of two particles, with its rate. */
  function InverseDistance(sys: System, law: Law, i: nat, j: nat): Rate
    requires sys.Valid() && i < sys.Count() && j < sys.Count()
  {
    InverseRate(DistInv(sys, law, i, j), Dot(Towards(sys.positions, i, j), Towards(sys.velocities, i, j)))
  }

  /** It is the only inverse square root of their moving distance. */
  lemma InverseDistanceIsRoot(sys: System, law: Law, i: nat, j: nat, k: Rate)
    requires sys.Valid() && law.Valid() && i < sys.Count() && j < sys.Count()
    requires DistSqr(sys.positions[j], sys.positions[i], law) > 0.0
    ensures IsInverseRoot(k, Distance(Towards(sys.positions, i, j), Towards(sys.velocities, i, j), law.softeningSqr), law.inv)
      <==> k == InverseDistance(sys, law, i, j)
  {
    var r, v := Towards(sys.positions, i, j), Towards(sys.velocities, i, j);
    DistanceRates(r, v, law.softeningSqr);
    InverseRootRate(Distance(r, v, law.softeningSqr), DistSqr(sys.positions[j], sys.positions[i], law), Dot(r, v), k, law.inv);
  }

  /** The jerk of a pair is the rate of its acceleration. */
  lemma PairJerkIsRate(sys: System, law: Law, i: nat, j: nat, axis: nat)
    requires sys.Valid() && i < sys.Count() && j < sys.Count()
    ensures PullRate(Towards(sys.positions, i, j), Towards(sys.velocities, i, j),
                     sys.masses[j], InverseDistance(sys, law, i, j), axis)
      == Moving(PairAcceleration(sys, law, i, j), PairJerk(sys, law, i, j), axis)
  {
    var r, v := Towards(sys.positions, i, j), Towards(sys.velocities, i, j);
    PullChanges(r, v, sys.masses[j], DistInv(sys, law, i, j), Dot(r, v), axis);
  }

  // ---- all partners ----

  /** One coordinate of the acceleration of `i` from the particles before `n`. */
  ghost function AccelerationRate(sys: System, law: Law, i: nat, n: nat, axis: nat): Rate
    requires sys.Valid() && i < sys.Count() && n <= sys.Count()
  {
    if n == 0 then Still(0.0)
    else if n - 1 == i then AccelerationRate(sys, law, i, n - 1, axis)
    else AccelerationRate(sys, law, i, n - 1, axis).Plus(
      PullRate(Towards(sys.positions, i, n - 1), Towards(sys.velocities, i, n - 1),
               sys.masses[n - 1], InverseDistance(sys, law, i, n - 1), axis))
  }

  lemma MovingSum(a: Vec, b: Vec, c: Vec, d: Vec, axis: nat)
    ensures Moving(a, b, axis).Plus(Moving(c, d, axis)) == Moving(Add(a, c), Add(b, d), axis)
  {
  }

  /** The jerk of a particle is the rate of its acceleration. */
  lemma {:induction false} JerkIsRate(sys: System, law: Law, i: nat, n: nat, axis: nat)
    requires sys.Valid() && i < sys.Count() && n <= sys.Count()
    ensures AccelerationRate(sys, law, i, n, axis)
      == Moving(AccelerationFrom(sys, law, i, n), JerkFrom(sys, law, i, n), axis)
  {
    if n > 0 {
      var j := n - 1;
      JerkIsRate(sys, law, i, j, axis);
      if j != i {
        PairJerkIsRate(sys, law, i, j, axis);
        MovingSum(AccelerationFrom(sys, law, i, j), JerkFrom(sys, law, i, j),
                  PairAcceleration(sys, law, i, j), PairJerk(sys, law, i, j), axis);
      }
    }
  }
}
