/** Rotors of three-dimensional geometric algebra: a scalar and three bivector components.

    A vector times the unit trivector is a rotor without a scalar. The trivector commutes with everything,
    so a rotation, the sandwich r v ~r, is two rotor products around the vector's dual. */
module Rotors {
  import opened Vectors

  datatype Rotor = Rotor(s: real, xy: real, xz: real, yz: real)

  // ---- the product, one component at a time ----

  function ProductS(s: real, xy: real, xz: real, yz: real, s': real, xy': real, xz': real, yz': real): real {
    s * s' - xy * xy' - xz * xz' - yz * yz'
  }

  function ProductXY(s: real, xy: real, xz: real, yz: real, s': real, xy': real, xz': real, yz': real): real {
    s * xy' + xy * s' - xz * yz' + yz * xz'
  }

  function ProductXZ(s: real, xy: real, xz: real, yz: real, s': real, xy': real, xz': real, yz': real): real {
    s * xz' + xz * s' + xy * yz' - yz * xy'
  }

  function ProductYZ(s: real, xy: real, xz: real, yz: real, s': real, xy': real, xz': real, yz': real): real {
    s * yz' + yz * s' - xy * xz' + xz * xy'
  }

  function Times(a: Rotor, b: Rotor): Rotor {
    Rotor(
      ProductS(a.s, a.xy, a.xz, a.yz, b.s, b.xy, b.xz, b.yz),
      ProductXY(a.s, a.xy, a.xz, a.yz, b.s, b.xy, b.xz, b.yz),
      ProductXZ(a.s, a.xy, a.xz, a.yz, b.s, b.xy, b.xz, b.yz),
      ProductYZ(a.s, a.xy, a.xz, a.yz, b.s, b.xy, b.xz, b.yz))
  }

  function Length2(r: Rotor): real { r.s * r.s + r.xy * r.xy + r.xz * r.xz + r.yz * r.yz }

  function Reverse(r: Rotor): Rotor { Rotor(r.s, -r.xy, -r.xz, -r.yz) }

  function Scalar(s: real): Rotor { Rotor(s, 0.0, 0.0, 0.0) }

  function Stretch(r: Rotor, k: real): Rotor { Rotor(r.s * k, r.xy * k, r.xz * k, r.yz * k) }

  /** The rotation: the product from the left with its trivector part, then the product with the reverse. */
  function Rotate(r: Rotor, v: Vec): Vec {
    var x := r.s * v.x + v.y * r.xy + v.z * r.xz;
    var y := r.s * v.y - v.x * r.xy + v.z * r.yz;
    var z := r.s * v.z - v.x * r.xz - v.y * r.yz;
    var t := v.x * r.yz - v.y * r.xz + v.z * r.xy;
    Vec(r.s * x + y * r.xy + z * r.xz + t * r.yz,
        r.s * y - x * r.xy - t * r.xz + z * r.yz,
        r.s * z + t * r.xy - x * r.xz - y * r.yz)
  }

  // ---- the algebra of the product ----

  lemma TimesIsAssociative(a: Rotor, b: Rotor, c: Rotor)
    ensures Times(Times(a, b), c) == Times(a, Times(b, c))
  {
    AssociativeS(a.s, a.xy, a.xz, a.yz, b.s, b.xy, b.xz, b.yz, c.s, c.xy, c.xz, c.yz);
    AssociativeXY(a.s, a.xy, a.xz, a.yz, b.s, b.xy, b.xz, b.yz, c.s, c.xy, c.xz, c.yz);
    AssociativeXZ(a.s, a.xy, a.xz, a.yz, b.s, b.xy, b.xz, b.yz, c.s, c.xy, c.xz, c.yz);
    AssociativeYZ(a.s, a.xy, a.xz, a.yz, b.s, b.xy, b.xz, b.yz, c.s, c.xy, c.xz, c.yz);
  }

  lemma AssociativeS(a: real, b: real, c: real, d: real, e: real, f: real, g: real, h: real,
                     i: real, j: real, k: real, l: real)
    ensures ProductS(ProductS(a, b, c, d, e, f, g, h), ProductXY(a, b, c, d, e, f, g, h),
                     ProductXZ(a, b, c, d, e, f, g, h), ProductYZ(a, b, c, d, e, f, g, h), i, j, k, l)
         == ProductS(a, b, c, d, ProductS(e, f, g, h, i, j, k, l), ProductXY(e, f, g, h, i, j, k, l),
                     ProductXZ(e, f, g, h, i, j, k, l), ProductYZ(e, f, g, h, i, j, k, l))
  {
  }

  lemma AssociativeXY(a: real, b: real, c: real, d: real, e: real, f: real, g: real, h: real,
                      i: real, j: real, k: real, l: real)
    ensures ProductXY(ProductS(a, b, c, d, e, f, g, h), ProductXY(a, b, c, d, e, f, g, h),
                      ProductXZ(a, b, c, d, e, f, g, h), ProductYZ(a, b, c, d, e, f, g, h), i, j, k, l)
         == ProductXY(a, b, c, d, ProductS(e, f, g, h, i, j, k, l), ProductXY(e, f, g, h, i, j, k, l),
                      ProductXZ(e, f, g, h, i, j, k, l), ProductYZ(e, f, g, h, i, j, k, l))
  {
  }

  lemma AssociativeXZ(a: real, b: real, c: real, d: real, e: real, f: real, g: real, h: real,
                      i: real, j: real, k: real, l: real)
    ensures ProductXZ(ProductS(a, b, c, d, e, f, g, h), ProductXY(a, b, c, d, e, f, g, h),
                      ProductXZ(a, b, c, d, e, f, g, h), ProductYZ(a, b, c, d, e, f, g, h), i, j, k, l)
         == ProductXZ(a, b, c, d, ProductS(e, f, g, h, i, j, k, l), ProductXY(e, f, g, h, i, j, k, l),
                      ProductXZ(e, f, g, h, i, j, k, l), ProductYZ(e, f, g, h, i, j, k, l))
  {
  }

  lemma AssociativeYZ(a: real, b: real, c: real, d: real, e: real, f: real, g: real, h: real,
                      i: real, j: real, k: real, l: real)
    ensures ProductYZ(ProductS(a, b, c, d, e, f, g, h), ProductXY(a, b, c, d, e, f, g, h),
                      ProductXZ(a, b, c, d, e, f, g, h), ProductYZ(a, b, c, d, e, f, g, h), i, j, k, l)
         == ProductYZ(a, b, c, d, ProductS(e, f, g, h, i, j, k, l), ProductXY(e, f, g, h, i, j, k, l),
                      ProductXZ(e, f, g, h, i, j, k, l), ProductYZ(e, f, g, h, i, j, k, l))
  {
  }

  lemma ReverseOfTimes(a: Rotor, b: Rotor)
    ensures Reverse(Times(a, b)) == Times(Reverse(b), Reverse(a))
  {
  }

  lemma TimesReverse(r: Rotor)
    ensures Times(r, Reverse(r)) == Scalar(Length2(r)) == Times(Reverse(r), r)
  {
  }

  lemma TimesScalar(r: Rotor, k: real)
    ensures Times(r, Scalar(k)) == Stretch(r, k) == Times(Scalar(k), r)
  {
  }

  lemma CancelInner(a: Rotor, b: Rotor, c: Rotor)
    ensures Times(Times(a, b), Times(Reverse(b), c)) == Times(a, Stretch(c, Length2(b)))
  {
    TimesIsAssociative(a, b, Times(Reverse(b), c));
    TimesIsAssociative(b, Reverse(b), c);
    TimesReverse(b);
    TimesScalar(c, Length2(b));
  }

  lemma TimesStretch(a: Rotor, c: Rotor, k: real)
    ensures Times(a, Stretch(c, k)) == Stretch(Times(a, c), k)
  {
    TimesScalar(c, k);
    TimesScalar(Times(a, c), k);
    TimesIsAssociative(a, c, Scalar(k));
  }

  /** The squared norm of a product is the product of the squared norms. */
  lemma NormOfTimes(a: Rotor, b: Rotor)
    ensures Length2(Times(a, b)) == Length2(a) * Length2(b)
  {
    TimesReverse(Times(a, b));
    ReverseOfTimes(a, b);
    CancelInner(a, b, Reverse(a));
    TimesStretch(a, Reverse(a), Length2(b));
    TimesReverse(a);
    assert Scalar(Length2(Times(a, b))) == Stretch(Scalar(Length2(a)), Length2(b));
  }

  // ---- rotations ----

  /** A vector times the unit trivector. */
  function Dual(v: Vec): Rotor { Rotor(0.0, -v.z, v.y, -v.x) }

  function Sandwich(r: Rotor, d: Rotor): Rotor { Times(Times(r, d), Reverse(r)) }

  /** The rotated vector is the sandwiched one. */
  lemma RotateIsSandwich(r: Rotor, v: Vec)
    ensures Dual(Rotate(r, v)) == Sandwich(r, Dual(v))
  {
  }

  lemma SandwichTwice(a: Rotor, b: Rotor, d: Rotor)
    ensures Sandwich(Times(a, b), d) == Sandwich(a, Sandwich(b, d))
  {
    ReverseOfTimes(a, b);
    TimesIsAssociative(a, b, d);
    var p := Times(b, d);
    TimesIsAssociative(Times(a, p), Reverse(b), Reverse(a));
    TimesIsAssociative(a, p, Reverse(b));
  }

  /** Rotating by a product is rotating by its second factor and then by its first. */
  lemma RotateByTimes(a: Rotor, b: Rotor, v: Vec)
    ensures Rotate(Times(a, b), v) == Rotate(a, Rotate(b, v))
  {
    RotateIsSandwich(Times(a, b), v);
    RotateIsSandwich(b, v);
    RotateIsSandwich(a, Rotate(b, v));
    SandwichTwice(a, b, Dual(v));
  }

  lemma RotateByScalar(k: real, v: Vec)
    ensures Rotate(Scalar(k), v) == Scale(v, k * k)
  {
  }

  function Plus(a: Rotor, b: Rotor): Rotor { Rotor(a.s + b.s, a.xy + b.xy, a.xz + b.xz, a.yz + b.yz) }

  lemma TimesPlus(a: Rotor, b: Rotor, c: Rotor)
    ensures Times(a, Plus(b, c)) == Plus(Times(a, b), Times(a, c))
  {
  }

  lemma PlusTimes(a: Rotor, b: Rotor, c: Rotor)
    ensures Times(Plus(a, b), c) == Plus(Times(a, c), Times(b, c))
  {
  }

  lemma RotateLinear(r: Rotor, u: Vec, v: Vec)
    ensures Rotate(r, Add(u, v)) == Add(Rotate(r, u), Rotate(r, v))
  {
    assert Dual(Add(u, v)) == Plus(Dual(u), Dual(v));
    TimesPlus(r, Dual(u), Dual(v));
    PlusTimes(Times(r, Dual(u)), Times(r, Dual(v)), Reverse(r));
    RotateIsSandwich(r, u);
    RotateIsSandwich(r, v);
    RotateIsSandwich(r, Add(u, v));
  }

  lemma RotateByStretch(r: Rotor, k: real, v: Vec)
    ensures Rotate(Stretch(r, k), v) == Scale(Rotate(r, v), k * k)
  {
    TimesScalar(r, k);
    RotateByScalar(k, v);
    RotateByTimes(Scalar(k), r, v);
    RotateByScalar(k, Rotate(r, v));
  }

  /** Rotating by the reverse undoes a rotation, up to the squared norm squared. */
  lemma ReverseUndoes(r: Rotor, v: Vec)
    ensures Rotate(Reverse(r), Rotate(r, v)) == Scale(v, Length2(r) * Length2(r))
    ensures Rotate(r, Rotate(Reverse(r), v)) == Scale(v, Length2(r) * Length2(r))
  {
    RotateByTimes(Reverse(r), r, v);
    RotateByTimes(r, Reverse(r), v);
    TimesReverse(r);
    RotateByScalar(Length2(r), v);
  }

  lemma DualNorm(v: Vec)
    ensures Length2(Dual(v)) == Dot(v, v)
  {
  }

  lemma RotateLength(r: Rotor, v: Vec)
    ensures Dot(Rotate(r, v), Rotate(r, v)) == Length2(r) * Length2(r) * Dot(v, v)
  {
    DualNorm(v);
    DualNorm(Rotate(r, v));
    RotateIsSandwich(r, v);
    NormOfTimes(r, Dual(v));
    NormOfTimes(Times(r, Dual(v)), Reverse(r));
    assert Length2(Reverse(r)) == Length2(r);
  }

  lemma DotFromLengths(u: Vec, v: Vec)
    ensures 2.0 * Dot(u, v) == Dot(Add(u, v), Add(u, v)) - Dot(u, u) - Dot(v, v)
  {
  }

  /** Rotating multiplies every inner product, so every angle stays, and lengths scale together. */
  lemma RotateKeepsDot(r: Rotor, u: Vec, v: Vec)
    ensures Dot(Rotate(r, u), Rotate(r, v)) == Length2(r) * Length2(r) * Dot(u, v)
  {
    var n := Length2(r) * Length2(r);
    RotateLength(r, u);
    RotateLength(r, v);
    RotateLength(r, Add(u, v));
    RotateLinear(r, u, v);
    DotFromLengths(u, v);
    DotFromLengths(Rotate(r, u), Rotate(r, v));
    calc {
      2.0 * Dot(Rotate(r, u), Rotate(r, v));
      n * Dot(Add(u, v), Add(u, v)) - n * Dot(u, u) - n * Dot(v, v);
      n * (2.0 * Dot(u, v));
    }
  }

  /** The normal of the plane of rotation stays on its line. */
  lemma AxisIsKept(r: Rotor, v: Vec)
    requires v == Vec(r.yz, -r.xz, r.xy)
    ensures Rotate(r, v) == Scale(v, Length2(r))
  {
  }

  /** Which way a rotor turns: a positive component takes the second axis of its plane towards the first. With
      `s` = cos a and the component sin a, the turn is by 2 a. */
  lemma TurnsTowardsFirst(s: real, k: real)
    ensures var c, d := s * s - k * k, 2.0 * s * k;
      && Rotate(Rotor(s, k, 0.0, 0.0), Vec(0.0, 1.0, 0.0)) == Vec(d, c, 0.0)
      && Rotate(Rotor(s, 0.0, k, 0.0), Vec(0.0, 0.0, 1.0)) == Vec(d, 0.0, c)
      && Rotate(Rotor(s, 0.0, 0.0, k), Vec(0.0, 0.0, 1.0)) == Vec(0.0, d, c)
  {
  }

  /** Unit rotors are isometries, undone by their reverse, and closed under products. */
  lemma UnitRotors(a: Rotor, b: Rotor, u: Vec, v: Vec)
    requires Length2(a) == 1.0 && Length2(b) == 1.0
    ensures Dot(Rotate(a, u), Rotate(a, v)) == Dot(u, v)
    ensures Rotate(Reverse(a), Rotate(a, v)) == v && Rotate(a, Rotate(Reverse(a), v)) == v
    ensures Length2(Times(a, b)) == 1.0 && Length2(Reverse(a)) == 1.0
  {
    RotateKeepsDot(a, u, v);
    ReverseUndoes(a, v);
    NormOfTimes(a, b);
  }

  // ---- in place ----

  lemma StretchNorm(u: Rotor, n: real) returns (k: real)
    requires n > 0.0
    ensures k == n * n && k > 0.0
    ensures Length2(Stretch(u, n)) == Length2(u) * k
  {
    k := ProductPositive(n, n);
    TimesScalar(u, n);
    NormOfTimes(u, Scalar(n));
    assert Length2(Scalar(n)) == k;
  }

  lemma NonZeroCancels(a: real, b: real, c: real)
    requires a * b == c && b == c && b > 0.0
    ensures a == 1.0
  {
    assert (a - 1.0) * b == 0.0;
  }

  lemma Normalized(r: Rotor, n: real, u: Rotor)
    requires n > 0.0 && n * n == Length2(r)
    requires u == Rotor(r.s / n, r.xy / n, r.xz / n, r.yz / n)
    ensures Length2(u) == 1.0 && Stretch(u, n) == r
  {
    assert Stretch(u, n) == r;
    var k := StretchNorm(u, n);
    NonZeroCancels(Length2(u), k, Length2(r));
  }

  lemma NormalizedRotates(r: Rotor, n: real, u: Rotor)
    requires Stretch(u, n) == r && n * n == Length2(r)
    ensures forall v :: Scale(Rotate(u, v), Length2(r)) == Rotate(r, v)
  {
    forall v ensures Scale(Rotate(u, v), Length2(r)) == Rotate(r, v) {
      RotateByStretch(u, n, v);
    }
  }

  class Rotor3D {
    var s: real
    var xy: real
    var xz: real
    var yz: real

    function Value(): Rotor
      reads this
    {
      Rotor(s, xy, xz, yz)
    }

    constructor (s: real, xy: real, xz: real, yz: real)
      ensures Value() == Rotor(s, xy, xz, yz)
    {
      this.s := s;
      this.xy := xy;
      this.xz := xz;
      this.yz := yz;
    }

    /** The factor may be the receiver itself. */
    method MultiplyBy(rhs: Rotor3D)
      modifies this
      ensures Value() == Times(old(Value()), old(rhs.Value()))
    {
      var tempS := ProductS(s, xy, xz, yz, rhs.s, rhs.xy, rhs.xz, rhs.yz);
      var tempXY := ProductXY(s, xy, xz, yz, rhs.s, rhs.xy, rhs.xz, rhs.yz);
      var tempXZ := ProductXZ(s, xy, xz, yz, rhs.s, rhs.xy, rhs.xz, rhs.yz);
      var tempYZ := ProductYZ(s, xy, xz, yz, rhs.s, rhs.xy, rhs.xz, rhs.yz);
      s := tempS;
      xy := tempXY;
      xz := tempXZ;
      yz := tempYZ;
    }

    /** Scales to unit length: rotations by the result are those by the old rotor, divided by its squared norm. */
    method Normalize(inv: real -> real)
      requires InverseRoot(inv) && Length2(Value()) > 0.0
      modifies this
      ensures Length2(Value()) == 1.0
      ensures Stretch(Value(), Root(inv, Length2(old(Value())))) == old(Value())
      ensures forall v :: Scale(Rotate(Value(), v), Length2(old(Value()))) == Rotate(old(Value()), v)
    {
      var was := Value();
      var norm := Root(inv, Length2(was));
      RootSquares(inv, Length2(was));
      s := s / norm;
      xy := xy / norm;
      xz := xz / norm;
      yz := yz / norm;
      Normalized(was, norm, Value());
      NormalizedRotates(was, norm, Value());
    }
  }
}
