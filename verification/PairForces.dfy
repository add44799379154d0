/** Double sums over pairs: Newton's third law, no net torque, and the energy counted twice. */
module PairForces {
  import opened Vectors
  import opened Systems
  import opened Gravity

  // ---- square grids of terms ----

  /** The sum of the first `m` rows, `n` columns each. */
  ghost function GridTotal(grid: seq<seq<Term>>, all: set<nat>, m: nat, n: nat): Term
    requires m <= |grid| && forall r :: r in grid ==> n <= |r|
  {
    if m == 0 then NOTHING
    else Plus(GridTotal(grid, all, m - 1, n), Total(grid[m - 1], all, n))
  }

  /** The sum of column `c`, down to row `m`. */
  ghost function ColumnTotal(grid: seq<seq<Term>>, c: nat, m: nat): Term
    requires m <= |grid| && forall r :: r in grid ==> c < |r|
  {
    if m == 0 then NOTHING else Plus(ColumnTotal(grid, c, m - 1), grid[m - 1][c])
  }

  /** The sum above the diagonal: the pairs i < j, with i < m and j < n. */
  ghost function TriangleTotal(grid: seq<seq<Term>>, n: nat): Term
    requires n <= |grid| && forall r :: r in grid ==> n <= |r|
  {
    if n == 0 then NOTHING else Plus(TriangleTotal(grid, n - 1), ColumnTotal(grid, n - 1, n - 1))
  }

  lemma {:induction false} GridAddsColumn(grid: seq<seq<Term>>, all: set<nat>, m: nat, n: nat)
    requires m <= |grid| && (forall r :: r in grid ==> n < |r|) && n in all
    ensures GridTotal(grid, all, m, n + 1) == Plus(GridTotal(grid, all, m, n), ColumnTotal(grid, n, m))
  {
    if m == 0 {
      PlusNothing(NOTHING);
    } else {
      GridAddsColumn(grid, all, m - 1, n);
      var row := grid[m - 1];
      assert Total(row, all, n + 1) == Plus(Total(row, all, n), row[n]);
      PlusShuffle(GridTotal(grid, all, m - 1, n), ColumnTotal(grid, n, m - 1), Total(row, all, n), row[n]);
    }
  }

  /** Mirrored entries cancel in the vector, agree in the scalar, and the diagonal is empty. */
  ghost predicate Mirrored(grid: seq<seq<Term>>) {
    && (forall r :: r in grid ==> |r| == |grid|)
    && (forall i, j :: 0 <= i < |grid| && 0 <= j < |grid| && i != j ==>
      grid[i][j] == Term(Neg(grid[j][i].vec), grid[j][i].scalar))
    && (forall i :: 0 <= i < |grid| ==> grid[i][i] == NOTHING)
  }

  /** A row and the column mirrored in it. */
  lemma {:induction false} ColumnMirrorsRow(grid: seq<seq<Term>>, all: set<nat>, c: nat, n: nat)
    requires Mirrored(grid) && n <= c < |grid| && (forall i :: 0 <= i < n ==> i in all)
    ensures Total(grid[c], all, n) == Term(Neg(ColumnTotal(grid, c, n).vec), ColumnTotal(grid, c, n).scalar)
  {
    if n > 0 {
      ColumnMirrorsRow(grid, all, c, n - 1);
      assert Total(grid[c], all, n) == Plus(Total(grid[c], all, n - 1), grid[c][n - 1]);
      assert grid[c][n - 1] == Term(Neg(grid[n - 1][c].vec), grid[n - 1][c].scalar);
    }
  }

  /** In a mirrored grid the vectors cancel, and the scalars above the diagonal are counted twice. */
  lemma {:induction false} MirroredTotal(grid: seq<seq<Term>>, all: set<nat>, n: nat)
    requires Mirrored(grid) && n <= |grid| && (forall i :: 0 <= i < n ==> i in all)
    ensures GridTotal(grid, all, n, n).vec == ZERO
    ensures GridTotal(grid, all, n, n).scalar == 2.0 * TriangleTotal(grid, n).scalar
  {
    if n > 0 {
      var c := n - 1;
      MirroredTotal(grid, all, c);
      GridAddsColumn(grid, all, c, c);
      ColumnMirrorsRow(grid, all, c, c);
      var inner, column := GridTotal(grid, all, c, c), ColumnTotal(grid, c, c);
      assert Total(grid[c], all, n) == Plus(Total(grid[c], all, c), grid[c][c]);
      PlusNothing(Total(grid[c], all, c));
      assert GridTotal(grid, all, n, n) == Plus(Plus(inner, column), Term(Neg(column.vec), column.scalar));
    }
  }

  /** Above the diagonal, every entry with the one mirrored in it. */
  ghost predicate Folded(folded: seq<seq<Term>>, grid: seq<seq<Term>>) {
    && |folded| == |grid| && (forall i :: 0 <= i < |grid| ==> |grid[i]| == |grid| == |folded[i]|)
    && (forall i, j :: 0 <= i < j < |grid| ==> folded[i][j] == Plus(grid[i][j], grid[j][i]))
    && (forall i :: 0 <= i < |grid| ==> grid[i][i] == NOTHING)
  }

  lemma {:induction false} ColumnOfFolded(folded: seq<seq<Term>>, grid: seq<seq<Term>>, all: set<nat>, c: nat, n: nat)
    requires Folded(folded, grid) && n <= c < |grid| && (forall i :: 0 <= i < n ==> i in all)
    ensures ColumnTotal(folded, c, n) == Plus(ColumnTotal(grid, c, n), Total(grid[c], all, n))
  {
    if n == 0 {
      PlusNothing(NOTHING);
    } else {
      ColumnOfFolded(folded, grid, all, c, n - 1);
      PlusShuffle(ColumnTotal(grid, c, n - 1), Total(grid[c], all, n - 1), grid[n - 1][c], grid[c][n - 1]);
    }
  }

  /** A grid with an empty diagonal may be summed pair by pair. */
  lemma {:induction false} FoldedTotal(folded: seq<seq<Term>>, grid: seq<seq<Term>>, all: set<nat>, n: nat)
    requires Folded(folded, grid) && n <= |grid| && (forall i :: 0 <= i < n ==> i in all)
    ensures GridTotal(grid, all, n, n) == TriangleTotal(folded, n)
  {
    if n > 0 {
      var c := n - 1;
      FoldedTotal(folded, grid, all, c);
      GridAddsColumn(grid, all, c, c);
      ColumnOfFolded(folded, grid, all, c, c);
      PlusNothing(Total(grid[c], all, c));
      assert Total(grid[c], all, n) == Total(grid[c], all, c);
      PlusAssociates(GridTotal(grid, all, c, c), ColumnTotal(grid, c, c), Total(grid[c], all, c));
    }
  }

  lemma PlusAssociates(a: Term, b: Term, c: Term)
    ensures Plus(Plus(a, b), c) == Plus(a, Plus(b, c))
  {
  }

  // ---- the grid of pair forces ----

  /** Force of `j` on `i`, with their potential energy. */
  ghost function PairForce(sys: Bodies, law: Law, i: nat, j: nat): Term
    requires sys.Valid() && i < sys.Count() && j < sys.Count()
  {
    Term(Scale(PairPull(sys, law, i, j).vec, sys.masses[i]), PairPull(sys, law, i, j).scalar)
  }

  /** The factor along the line between the particles. */
  ghost function Strength(sys: Bodies, law: Law, i: nat, j: nat): real
    requires sys.Valid() && i < sys.Count() && j < sys.Count()
  {
    var d := DistSqr(sys.positions[j], sys.positions[i], law);
    if d <= 0.0 then 0.0 else sys.masses[i] * sys.masses[j] * Cubed(law.inv(d))
  }

  lemma ScaleThrice(r: Vec, m: real, c: real, k: real, s: real)
    requires s == k * m * c
    ensures Scale(Scale(Scale(r, m), c), k) == Scale(r, s)
  {
    ScaleTwice(r, m, c);
    ScaleTwice(r, m * c, k);
    assert m * c * k == k * m * c;
  }

  lemma PairForceForm(sys: Bodies, law: Law, i: nat, j: nat)
    requires sys.Valid() && i < sys.Count() && j < sys.Count() && i != j
    ensures PairForce(sys, law, i, j).vec ==
      Scale(Sub(sys.positions[j], sys.positions[i]), Strength(sys, law, i, j))
  {
    var p, q, m, k := sys.positions[i], sys.positions[j], sys.masses[j], sys.masses[i];
    var d := DistSqr(q, p, law);
    if d <= 0.0 {
      NothingScaled(Sub(q, p), k, Strength(sys, law, i, j));
    } else {
      var cubed := Cubed(law.inv(d));
      assert PairPull(sys, law, i, j).vec == Scale(Scale(Sub(q, p), m), cubed);
      ScaleThrice(Sub(q, p), m, cubed, k, Strength(sys, law, i, j));
    }
  }

  lemma NothingScaled(r: Vec, m: real, zero: real)
    requires zero == 0.0
    ensures Scale(ZERO, m) == ZERO && Scale(r, zero) == ZERO
  {
  }

  lemma StrengthSymmetric(sys: Bodies, law: Law, i: nat, j: nat)
    requires sys.Valid() && i < sys.Count() && j < sys.Count() && i != j
    ensures Strength(sys, law, i, j) == Strength(sys, law, j, i)
    ensures PairPull(sys, law, i, j).scalar == PairPull(sys, law, j, i).scalar
  {
    var p, q, m, k := sys.positions[i], sys.positions[j], sys.masses[j], sys.masses[i];
    DistSqrSymmetric(p, q, law);
    var d := DistSqr(p, q, law);
    if d > 0.0 {
      ProductsCommute(k, m, law.inv(d));
      ProductsCommute(k, m, Cubed(law.inv(d)));
    }
  }

  lemma OppositeScaled(p: Vec, q: Vec, k: real)
    ensures Scale(Sub(q, p), k) == Neg(Scale(Sub(p, q), k))
  {
  }

  /** Action and reaction: the force is mirrored and the energy is shared. */
  lemma ActionAndReaction(sys: Bodies, law: Law, i: nat, j: nat)
    requires sys.Valid() && i < sys.Count() && j < sys.Count() && i != j
    ensures PairForce(sys, law, i, j) == Term(Neg(PairForce(sys, law, j, i).vec), PairForce(sys, law, j, i).scalar)
  {
    StrengthSymmetric(sys, law, i, j);
    PairForceForm(sys, law, i, j);
    PairForceForm(sys, law, j, i);
    OppositeScaled(sys.positions[i], sys.positions[j], Strength(sys, law, i, j));
  }

  function Minor(p: real, q: real, a: real, b: real): real { p * b - q * a }

  /** The components xy, xz and yz of the bivector spanned by two vectors. */
  function Wedge(a: Vec, b: Vec): Vec {
    Vec(Minor(a.x, a.y, b.x, b.y), Minor(a.x, a.z, b.x, b.z), Minor(a.y, a.z, b.y, b.z))
  }

  /** The vector across the plane of a bivector. */
  function Across(b: Vec): Vec { Vec(b.z, -b.y, b.x) }

  /** The wedge is as large as the parallelogram of its vectors. */
  lemma WedgeIsArea(a: Vec, b: Vec)
    ensures Norm2(Wedge(a, b)) + Dot(a, b) * Dot(a, b) == Norm2(a) * Norm2(b)
  {
    MinorsSquared(a.x, a.y, a.z, b.x, b.y, b.z);
  }

  lemma MinorsSquared(a: real, b: real, c: real, x: real, y: real, z: real)
    ensures Minor(a, b, x, y) * Minor(a, b, x, y) + Minor(a, c, x, z) * Minor(a, c, x, z)
          + Minor(b, c, y, z) * Minor(b, c, y, z) + (a * x + b * y + c * z) * (a * x + b * y + c * z)
         == (a * a + b * b + c * c) * (x * x + y * y + z * z)
  {
  }

  /** It changes its sign with the order of the vectors, and its plane holds both. The wedge of the first two axes is
      the first component, and so on. */
  lemma WedgeHoldsBoth(a: Vec, b: Vec)
    ensures Wedge(b, a) == Neg(Wedge(a, b))
    ensures Dot(Across(Wedge(a, b)), a) == 0.0 == Dot(Across(Wedge(a, b)), b)
    ensures var x, y, z := Vec(1.0, 0.0, 0.0), Vec(0.0, 1.0, 0.0), Vec(0.0, 0.0, 1.0);
      Wedge(x, y) == x && Wedge(x, z) == y && Wedge(y, z) == z
  {
  }

  /** Torque of the force of `j` on `i`. */
  ghost function PairTorque(sys: Bodies, law: Law, i: nat, j: nat): Term
    requires sys.Valid() && i < sys.Count() && j < sys.Count()
  {
    Term(Wedge(sys.positions[i], PairForce(sys, law, i, j).vec), 0.0)
  }

  /** A force along the line from `p` to `q` has the same torque at both ends. */
  lemma CentralForce(p: Vec, q: Vec, k: real)
    ensures Wedge(p, Scale(Sub(q, p), k)) == Wedge(q, Scale(Sub(q, p), k))
  {
    CrossOfParallel(p.x, p.y, q.x, q.y, k);
    CrossOfParallel(p.x, p.z, q.x, q.z, k);
    CrossOfParallel(p.y, p.z, q.y, q.z, k);
  }

  lemma CrossOfParallel(a: real, b: real, c: real, d: real, k: real)
    ensures a * ((d - b) * k) - b * ((c - a) * k) == c * ((d - b) * k) - d * ((c - a) * k)
  {
    var u, v := c - a, d - b;
    assert u * (v * k) == v * (u * k);
    assert c * (v * k) == a * (v * k) + u * (v * k);
    assert d * (u * k) == b * (u * k) + v * (u * k);
  }

  lemma WedgeNeg(p: Vec, f: Vec)
    ensures Wedge(p, Neg(f)) == Neg(Wedge(p, f))
  {
  }

  lemma TorqueMirrored(sys: Bodies, law: Law, i: nat, j: nat)
    requires sys.Valid() && i < sys.Count() && j < sys.Count() && i != j
    ensures PairTorque(sys, law, i, j) == Term(Neg(PairTorque(sys, law, j, i).vec), 0.0)
  {
    ActionAndReaction(sys, law, i, j);
    PairForceForm(sys, law, i, j);
    CentralForce(sys.positions[i], sys.positions[j], Strength(sys, law, i, j));
    WedgeNeg(sys.positions[j], PairForce(sys, law, j, i).vec);
  }

  // ---- the sums over all particles ----

  ghost function ForceGrid(sys: Bodies, law: Law): (r: seq<seq<Term>>)
    requires sys.Valid()
    ensures |r| == sys.Count()
    ensures forall i :: 0 <= i < |r| ==> |r[i]| == |r|
    ensures forall i, j :: 0 <= i < |r| && 0 <= j < |r| ==> r[i][j] == PairForce(sys, law, i, j)
  {
    seq(sys.Count(), i requires 0 <= i < sys.Count() =>
      seq(sys.Count(), j requires 0 <= j < sys.Count() => PairForce(sys, law, i, j)))
  }

  ghost function TorqueGrid(sys: Bodies, law: Law): (r: seq<seq<Term>>)
    requires sys.Valid()
    ensures |r| == sys.Count()
    ensures forall i :: 0 <= i < |r| ==> |r[i]| == |r|
    ensures forall i, j :: 0 <= i < |r| && 0 <= j < |r| ==> r[i][j] == PairTorque(sys, law, i, j)
  {
    seq(sys.Count(), i requires 0 <= i < sys.Count() =>
      seq(sys.Count(), j requires 0 <= j < sys.Count() => PairTorque(sys, law, i, j)))
  }

  lemma PairWithItself(sys: Bodies, law: Law, i: nat)
    requires sys.Valid() && i < sys.Count()
    ensures PairForce(sys, law, i, i) == NOTHING && PairTorque(sys, law, i, i) == NOTHING
  {
    NothingScaled(ZERO, sys.masses[i], 0.0);
  }

  lemma GridsAreMirrored(sys: Bodies, law: Law)
    requires sys.Valid()
    ensures Mirrored(ForceGrid(sys, law)) && Mirrored(TorqueGrid(sys, law))
  {
    forall i, j | 0 <= i < sys.Count() && 0 <= j < sys.Count() && i != j
      ensures ForceGrid(sys, law)[i][j] == Term(Neg(ForceGrid(sys, law)[j][i].vec), ForceGrid(sys, law)[j][i].scalar)
      ensures TorqueGrid(sys, law)[i][j] == Term(Neg(TorqueGrid(sys, law)[j][i].vec), TorqueGrid(sys, law)[j][i].scalar)
    {
      ActionAndReaction(sys, law, i, j);
      TorqueMirrored(sys, law, i, j);
    }
    forall i | 0 <= i < sys.Count()
      ensures ForceGrid(sys, law)[i][i] == NOTHING && TorqueGrid(sys, law)[i][i] == NOTHING
    {
      PairWithItself(sys, law, i);
    }
  }

  /** Mass times acceleration of every particle, with its share of the energy. */
  ghost function Forces(sys: Bodies, law: Law): (r: seq<Term>)
    requires sys.Valid()
    ensures |r| == sys.Count()
    ensures forall i :: 0 <= i < |r| ==>
      r[i] == Term(Scale(DirectPull(sys, law, i).vec, sys.masses[i]), DirectPull(sys, law, i).scalar)
  {
    seq(sys.Count(), i requires 0 <= i < sys.Count() =>
      Term(Scale(DirectPull(sys, law, i).vec, sys.masses[i]), DirectPull(sys, law, i).scalar))
  }

  /** The torque on every particle. */
  ghost function Torques(sys: Bodies, law: Law): (r: seq<Term>)
    requires sys.Valid()
    ensures |r| == sys.Count()
    ensures forall i :: 0 <= i < |r| ==>
      r[i] == Term(Wedge(sys.positions[i], Scale(DirectPull(sys, law, i).vec, sys.masses[i])), 0.0)
  {
    seq(sys.Count(), i requires 0 <= i < sys.Count() =>
      Term(Wedge(sys.positions[i], Scale(DirectPull(sys, law, i).vec, sys.masses[i])), 0.0))
  }

  lemma ScaleAdditive(m: real, a: Term, b: Term)
    ensures Term(Scale(Plus(a, b).vec, m), Plus(a, b).scalar)
         == Plus(Term(Scale(a.vec, m), a.scalar), Term(Scale(b.vec, m), b.scalar))
  {
  }

  lemma WedgeAdditive(p: Vec, m: real, a: Term, b: Term)
    ensures Term(Wedge(p, Scale(Plus(a, b).vec, m)), 0.0)
         == Plus(Term(Wedge(p, Scale(a.vec, m)), 0.0), Term(Wedge(p, Scale(b.vec, m)), 0.0))
  {
    var f, g := Scale(a.vec, m), Scale(b.vec, m);
    assert Scale(Add(a.vec, b.vec), m) == Add(f, g);
    assert Wedge(p, Add(f, g)) == Add(Wedge(p, f), Wedge(p, g));
  }

  lemma ForceOfRow(sys: Bodies, law: Law, i: nat)
    requires sys.Valid() && i < sys.Count()
    ensures Total(ForceGrid(sys, law)[i], All(sys.Count()), sys.Count()) == Forces(sys, law)[i]
  {
    var m := sys.masses[i];
    var l := (t: Term) => Term(Scale(t.vec, m), t.scalar);
    forall a, b ensures l(Plus(a, b)) == Plus(l(a), l(b)) { ScaleAdditive(m, a, b); }
    NothingScaled(ZERO, m, 0.0);
    TotalMap(l, Pulls(sys, law, i), ForceGrid(sys, law)[i], All(sys.Count()), sys.Count());
  }

  lemma TorqueOfRow(sys: Bodies, law: Law, i: nat)
    requires sys.Valid() && i < sys.Count()
    ensures Total(TorqueGrid(sys, law)[i], All(sys.Count()), sys.Count()) == Torques(sys, law)[i]
  {
    var p, m := sys.positions[i], sys.masses[i];
    var l := (t: Term) => Term(Wedge(p, Scale(t.vec, m)), 0.0);
    forall a, b ensures l(Plus(a, b)) == Plus(l(a), l(b)) { WedgeAdditive(p, m, a, b); }
    NothingScaled(ZERO, m, 0.0);
    TotalMap(l, Pulls(sys, law, i), TorqueGrid(sys, law)[i], All(sys.Count()), sys.Count());
  }

  lemma {:induction false} GridOfRows(grid: seq<seq<Term>>, xs: seq<Term>, all: set<nat>, m: nat, n: nat)
    requires m <= |grid| && m <= |xs| && (forall r :: r in grid ==> n <= |r|)
    requires forall i :: 0 <= i < m ==> Total(grid[i], all, n) == xs[i] && i in all
    ensures GridTotal(grid, all, m, n) == Total(xs, all, m)
  {
    if m > 0 {
      GridOfRows(grid, xs, all, m - 1, n);
    }
  }

  /** Newton's third law: the forces add up to zero, and so do the torques;
      the shares of the energy count every pair twice. */
  lemma NoNetForce(sys: Bodies, law: Law)
    requires sys.Valid()
    ensures Total(Forces(sys, law), All(sys.Count()), sys.Count()).vec == ZERO
    ensures Total(Torques(sys, law), All(sys.Count()), sys.Count()).vec == ZERO
    ensures Total(Forces(sys, law), All(sys.Count()), sys.Count()).scalar
         == 2.0 * TriangleTotal(ForceGrid(sys, law), sys.Count()).scalar
  {
    var n, all := sys.Count(), All(sys.Count());
    GridsAreMirrored(sys, law);
    forall i | 0 <= i < n
      ensures Total(ForceGrid(sys, law)[i], all, n) == Forces(sys, law)[i]
      ensures Total(TorqueGrid(sys, law)[i], all, n) == Torques(sys, law)[i]
    {
      ForceOfRow(sys, law, i);
      TorqueOfRow(sys, law, i);
    }
    GridOfRows(ForceGrid(sys, law), Forces(sys, law), all, n, n);
    GridOfRows(TorqueGrid(sys, law), Torques(sys, law), all, n, n);
    MirroredTotal(ForceGrid(sys, law), all, n);
    MirroredTotal(TorqueGrid(sys, law), all, n);
  }

  // ---- the energy of the pairs ----

  /** The potential energy of the pairs in row `i`, columns before `j`. */
  ghost function RowEnergy(sys: Bodies, law: Law, i: nat, j: nat): real
    requires sys.Valid() && i < sys.Count() && j <= sys.Count()
  {
    if j <= i + 1 then 0.0 else RowEnergy(sys, law, i, j - 1) + PairPull(sys, law, i, j - 1).scalar
  }

  /** The potential energy of the pairs in the rows before `i`, columns before `j`. */
  ghost function PairEnergy(sys: Bodies, law: Law, i: nat, j: nat): real
    requires sys.Valid() && i <= sys.Count() && j <= sys.Count()
  {
    if i == 0 then 0.0 else PairEnergy(sys, law, i - 1, j) + RowEnergy(sys, law, i - 1, j)
  }

  lemma {:induction false} PairEnergyColumn(sys: Bodies, law: Law, i: nat, j: nat)
    requires sys.Valid() && i <= j < sys.Count()
    ensures PairEnergy(sys, law, i, j + 1)
         == PairEnergy(sys, law, i, j) + ColumnTotal(ForceGrid(sys, law), j, i).scalar
  {
    if i > 0 {
      PairEnergyColumn(sys, law, i - 1, j);
    }
  }

  /** Summed row by row or column by column, the energy of the pairs is the same. */
  lemma {:induction false} PairEnergyIsTriangle(sys: Bodies, law: Law, n: nat)
    requires sys.Valid() && n <= sys.Count()
    ensures PairEnergy(sys, law, n, n) == TriangleTotal(ForceGrid(sys, law), n).scalar
  {
    if n > 0 {
      PairEnergyIsTriangle(sys, law, n - 1);
      PairEnergyColumn(sys, law, n - 1, n - 1);
      assert RowEnergy(sys, law, n - 1, n) == 0.0;
    }
  }
}
