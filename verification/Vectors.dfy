/** Three-dimensional vectors over the reals, and sums of sequences over a set of indices.

    Machine floating point is read as exact real arithmetic. */
module Vectors {

  datatype Vec = Vec(x: real, y: real, z: real)

  const ZERO := Vec(0.0, 0.0, 0.0)

  /** Two points closer than this in every coordinate compare equal. */
  const EPSILON := 0.000000001

  function Add(a: Vec, b: Vec): Vec { Vec(a.x + b.x, a.y + b.y, a.z + b.z) }

  function Sub(a: Vec, b: Vec): Vec { Vec(a.x - b.x, a.y - b.y, a.z - b.z) }

  function Scale(a: Vec, s: real): Vec { Vec(a.x * s, a.y * s, a.z * s) }

  function Div(a: Vec, s: real): Vec
    requires s != 0.0
  {
    Vec(a.x / s, a.y / s, a.z / s)
  }

  function Neg(a: Vec): Vec { Vec(-a.x, -a.y, -a.z) }

  function Dot(a: Vec, b: Vec): real { a.x * b.x + a.y * b.y + a.z * b.z }

  function Norm2(a: Vec): real { Dot(a, a) }

  function Abs(a: real): real { if a < 0.0 then -a else a }

  function Max(a: real, b: real): real { if a < b then b else a }

  function Min(a: real, b: real): real { if b < a then b else a }

  /** Vector equality: within a tolerance in every coordinate, so not transitive. */
  predicate NearlyEqual(a: Vec, b: Vec) {
    Abs(a.x - b.x) < EPSILON && Abs(a.y - b.y) < EPSILON && Abs(a.z - b.z) < EPSILON
  }

  lemma ProductPositive(a: real, b: real) returns (p: real)
    requires a > 0.0 && b > 0.0
    ensures p == a * b && p > 0.0
  {
    p := a * b;
  }

  lemma ProductNonNegative(a: real, b: real)
    requires a >= 0.0 && b >= 0.0
    ensures a * b >= 0.0
  {
  }

  lemma ProductMonotone(a: real, b: real, c: real)
    requires a <= b && c >= 0.0
    ensures a * c <= b * c
  {
  }

  lemma ProductCancels(a: real, b: real, c: real)
    requires a * c <= b * c && c > 0.0
    ensures a <= b
  {
    if b < a {
      var p := ProductPositive(a - b, c);
    }
  }

  /** The square of `a`, by name: facts about `a * a` are lost when compared with zero directly. */
  lemma SquareOf(a: real) returns (p: real)
    ensures p == a * a && p >= 0.0
    ensures a != 0.0 ==> p > 0.0
  {
    if a > 0.0 {
      p := ProductPositive(a, a);
    } else if a < 0.0 {
      p := ProductPositive(-a, -a);
    } else {
      p := 0.0;
    }
  }

  lemma Norm2Positive(a: Vec)
    ensures Norm2(a) >= 0.0
    ensures a != ZERO ==> Norm2(a) > 0.0
  {
    var p := SquareOf(a.x);
    var q := SquareOf(a.y);
    var r := SquareOf(a.z);
    assert Norm2(a) == p + q + r;
  }

  // ---- the inverse square root ----

  /** All that is assumed of the inverse square root routine. */
  ghost predicate InverseRoot(inv: real -> real) {
    forall d {:trigger inv(d)} :: d > 0.0 ==> inv(d) > 0.0 && inv(d) * inv(d) * d == 1.0
  }

  /** The square root that an inverse square root routine determines. */
  function Root(inv: real -> real, d: real): real { if d > 0.0 then d * inv(d) else 0.0 }

  lemma RootSquares(inv: real -> real, d: real)
    requires InverseRoot(inv) && d >= 0.0
    ensures Root(inv, d) >= 0.0 && Root(inv, d) * Root(inv, d) == d
    ensures Root(inv, d) > 0.0 <==> d > 0.0
  {
    if d > 0.0 {
      var i := inv(d);
      assert i * i * d == 1.0;
      calc {
        (d * i) * (d * i);
        d * (i * i * d);
        d * 1.0;
      }
      assert d * i > 0.0;
    }
  }

  lemma SquareIncreases(a: real, b: real)
    requires 0.0 <= a < b
    ensures a * a < b * b
  {
    var p := ProductPositive(b - a, b + a);
    assert p == b * b - a * a;
  }

  /** A non-negative square root is unique. */
  lemma RootUnique(a: real, b: real)
    requires a >= 0.0 && b >= 0.0 && a * a == b * b
    ensures a == b
  {
    if a < b {
      SquareIncreases(a, b);
    } else if b < a {
      SquareIncreases(b, a);
    }
  }

  // ---- sums over a set of indices ----

  /** A vector with a scalar, added together: mass times position with mass, or acceleration with potential energy. */
  datatype Term = Term(vec: Vec, scalar: real)

  const NOTHING := Term(ZERO, 0.0)

  function Plus(a: Term, b: Term): Term { Term(Add(a.vec, b.vec), a.scalar + b.scalar) }

  lemma PlusNothing(a: Term)
    ensures Plus(a, NOTHING) == a && Plus(NOTHING, a) == a
  {
  }

  lemma AddZeros(a: Vec, b: Vec)
    requires a == ZERO && b == ZERO
    ensures Add(a, b) == ZERO
  {
  }

  ghost function Total(xs: seq<Term>, s: set<nat>, n: nat): Term
    requires n <= |xs|
  {
    if n == 0 then NOTHING
    else Plus(Total(xs, s, n - 1), if n - 1 in s then xs[n - 1] else NOTHING)
  }

  lemma {:induction false} TotalUnion(xs: seq<Term>, s: set<nat>, t: set<nat>, n: nat)
    requires n <= |xs| && s !! t
    ensures Total(xs, s + t, n) == Plus(Total(xs, s, n), Total(xs, t, n))
  {
    if n > 0 {
      TotalUnion(xs, s, t, n - 1);
    }
  }

  lemma {:induction false} TotalEmpty(xs: seq<Term>, n: nat)
    requires n <= |xs|
    ensures Total(xs, {}, n) == NOTHING
  {
    if n > 0 {
      TotalEmpty(xs, n - 1);
    }
  }

  lemma {:induction false} TotalOne(xs: seq<Term>, i: nat, n: nat)
    requires n <= |xs|
    ensures Total(xs, {i}, n) == if i < n then xs[i] else NOTHING
  {
    if n > 0 {
      TotalOne(xs, i, n - 1);
      if n - 1 == i {
        PlusNothing(xs[i]);
        assert Total(xs, {i}, n) == Plus(NOTHING, xs[i]);
      } else {
        PlusNothing(Total(xs, {i}, n - 1));
        assert Total(xs, {i}, n) == Plus(Total(xs, {i}, n - 1), NOTHING);
      }
    }
  }

  /** A weight that is not negative, with a vector that vanishes where the weight does. */
  predicate Weighs(t: Term) { t.scalar >= 0.0 && (t.scalar == 0.0 ==> t.vec == ZERO) }

  lemma PlusWeighs(a: Term, b: Term)
    requires Weighs(a) && Weighs(b)
    ensures Weighs(Plus(a, b))
  {
    if a.scalar + b.scalar == 0.0 {
      AddZeros(a.vec, b.vec);
    }
  }

  /** Weights that sum to zero are all zero, and so are the vectors that vanish with them. */
  lemma {:induction false} TotalWeighs(xs: seq<Term>, s: set<nat>, n: nat)
    requires n <= |xs| && forall i :: 0 <= i < n ==> Weighs(xs[i])
    ensures Weighs(Total(xs, s, n))
  {
    if n > 0 {
      TotalWeighs(xs, s, n - 1);
      PlusWeighs(Total(xs, s, n - 1), if n - 1 in s then xs[n - 1] else NOTHING);
    }
  }

  /** What holds of nothing and of every summand, and is kept by addition, holds of the total. */
  lemma {:induction false} TotalKeeps(p: Term -> bool, xs: seq<Term>, s: set<nat>, n: nat)
    requires n <= |xs| && p(NOTHING)
    requires forall a, b :: p(a) && p(b) ==> p(Plus(a, b))
    requires forall i :: i in s && i < n ==> p(xs[i])
    ensures p(Total(xs, s, n))
  {
    if n > 0 {
      TotalKeeps(p, xs, s, n - 1);
    }
  }

  lemma {:induction false} TotalAtLeast(xs: seq<Term>, s: set<nat>, i: nat, n: nat)
    requires i < n <= |xs| && i in s
    requires forall j :: 0 <= j < n ==> xs[j].scalar >= 0.0
    ensures Total(xs, s, n).scalar >= xs[i].scalar
  {
    TotalScalarNonNegative(xs, s, n - 1);
    if i < n - 1 {
      TotalAtLeast(xs, s, i, n - 1);
    }
  }

  lemma {:induction false} TotalScalarNonNegative(xs: seq<Term>, s: set<nat>, n: nat)
    requires n <= |xs| && forall j :: 0 <= j < n ==> xs[j].scalar >= 0.0
    ensures Total(xs, s, n).scalar >= 0.0
  {
    if n > 0 {
      TotalScalarNonNegative(xs, s, n - 1);
    }
  }

  /** An additive map of the summands is that map of the total. */
  lemma {:induction false} TotalMap(l: Term -> Term, xs: seq<Term>, ys: seq<Term>, s: set<nat>, n: nat)
    requires n <= |xs| && n <= |ys| && l(NOTHING) == NOTHING
    requires forall a, b :: l(Plus(a, b)) == Plus(l(a), l(b))
    requires forall i :: 0 <= i < n ==> ys[i] == l(xs[i])
    ensures Total(ys, s, n) == l(Total(xs, s, n))
  {
    if n > 0 {
      TotalMap(l, xs, ys, s, n - 1);
      var x := if n - 1 in s then xs[n - 1] else NOTHING;
      assert Total(xs, s, n) == Plus(Total(xs, s, n - 1), x);
      assert Total(ys, s, n) == Plus(Total(ys, s, n - 1), l(x));
    }
  }

  lemma PlusShuffle(a: Term, b: Term, c: Term, d: Term)
    ensures Plus(Plus(a, b), Plus(c, d)) == Plus(Plus(a, c), Plus(b, d))
  {
  }

  /** Summing two sequences side by side. */
  lemma {:induction false} TotalPlus(xs: seq<Term>, ys: seq<Term>, zs: seq<Term>, s: set<nat>, n: nat)
    requires n <= |xs| && n <= |ys| && n <= |zs|
    requires forall i :: 0 <= i < n ==> zs[i] == Plus(xs[i], ys[i])
    ensures Total(zs, s, n) == Plus(Total(xs, s, n), Total(ys, s, n))
  {
    if n == 0 {
      PlusNothing(NOTHING);
    } else {
      TotalPlus(xs, ys, zs, s, n - 1);
      var x := if n - 1 in s then xs[n - 1] else NOTHING;
      var y := if n - 1 in s then ys[n - 1] else NOTHING;
      PlusNothing(NOTHING);
      assert Total(zs, s, n) == Plus(Total(zs, s, n - 1), Plus(x, y));
      PlusShuffle(Total(xs, s, n - 1), x, Total(ys, s, n - 1), y);
      PlusShuffle(Total(xs, s, n - 1), Total(ys, s, n - 1), x, y);
    }
  }
}
