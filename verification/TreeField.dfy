/** The tree of a whole system: its root cell, and the force field it gives. */
module TreeField {
  import opened Vectors
  import opened Systems
  import opened Octree
  import opened Gravity
  import opened Insertion
  import opened TreeMass
  import opened TreeWalk

  // ---- the root cell ----

  /** The highest coordinates among the first `n` positions, axis by axis. */
  ghost function Highest(ps: seq<Vec>, n: nat): (r: Vec)
    requires 0 < n <= |ps|
    ensures forall i :: 0 <= i < n ==> ps[i].x <= r.x && ps[i].y <= r.y && ps[i].z <= r.z
  {
    if n == 1 then ps[0]
    else
      var h, p := Highest(ps, n - 1), ps[n - 1];
      Vec(Max(p.x, h.x), Max(p.y, h.y), Max(p.z, h.z))
  }

  ghost function Lowest(ps: seq<Vec>, n: nat): (r: Vec)
    requires 0 < n <= |ps|
    ensures forall i :: 0 <= i < n ==> r.x <= ps[i].x && r.y <= ps[i].y && r.z <= ps[i].z
  {
    if n == 1 then ps[0]
    else
      var l, p := Lowest(ps, n - 1), ps[n - 1];
      Vec(Min(p.x, l.x), Min(p.y, l.y), Min(p.z, l.z))
  }

  /** The cube around the bounding box of the particles, with a tenth to spare. */
  function PaddedCube(max: Vec, min: Vec): Box {
    var edge := Edge(Box(max, min)) * 1.1;
    var center := Scale(Add(max, min), 0.5);
    var half := Vec(edge * 0.5, edge * 0.5, edge * 0.5);
    Box(Add(center, half), Sub(center, half))
  }

  ghost function RootBox(sys: Bodies): Box
    requires sys.Count() > 0
  {
    PaddedCube(Highest(sys.positions, sys.Count()), Lowest(sys.positions, sys.Count()))
  }

  lemma PaddedCubeContains(max: Vec, min: Vec, p: Vec)
    requires InBox(p, Box(max, min))
    ensures Cube(PaddedCube(max, min)) && InBox(p, PaddedCube(max, min))
  {
  }

  /** The root box is a cube that holds every particle. */
  lemma RootEncloses(sys: Bodies)
    requires sys.Count() > 0
    ensures Cube(RootBox(sys)) && forall i :: 0 <= i < sys.Count() ==> InBox(sys.positions[i], RootBox(sys))
  {
    var max, min := Highest(sys.positions, sys.Count()), Lowest(sys.positions, sys.Count());
    forall i | 0 <= i < sys.Count()
      ensures InBox(sys.positions[i], RootBox(sys))
    {
      PaddedCubeContains(max, min, sys.positions[i]);
    }
    PaddedCubeContains(max, min, sys.positions[0]);
  }

  /** Particle `i` has the lowest and particle `j` the highest of the first `n` coordinates on an axis. */
  ghost predicate Spans(ps: seq<Vec>, n: nat, axis: nat, i: nat, j: nat)
    requires n <= |ps|
  {
    i < n && j < n && forall k :: 0 <= k < n ==> Along(ps[i], axis) <= Along(ps[k], axis) <= Along(ps[j], axis)
  }

  lemma {:induction false} HighestAndLowest(ps: seq<Vec>, n: nat, axis: nat) returns (i: nat, j: nat)
    requires 0 < n <= |ps|
    ensures Spans(ps, n, axis, i, j)
    ensures Along(Lowest(ps, n), axis) == Along(ps[i], axis) && Along(Highest(ps, n), axis) == Along(ps[j], axis)
  {
    i, j := 0, 0;
    if n > 1 {
      i, j := HighestAndLowest(ps, n - 1, axis);
      if Along(ps[n - 1], axis) < Along(ps[i], axis) {
        i := n - 1;
      }
      if Along(ps[j], axis) < Along(ps[n - 1], axis) {
        j := n - 1;
      }
    }
  }

  /** On every axis the root box has its centre midway between the outermost particles, and its edge is a tenth longer
      than the widest distance between such particles. */
  lemma RootFits(sys: Bodies, axis: nat) returns (i: nat, j: nat)
    requires sys.Count() > 0
    ensures Spans(sys.positions, sys.Count(), axis, i, j)
    ensures Along(Center(RootBox(sys)), axis) * 2.0 == Along(sys.positions[i], axis) + Along(sys.positions[j], axis)
    ensures (Along(sys.positions[j], axis) - Along(sys.positions[i], axis)) * 1.1 <= Edge(RootBox(sys))
  {
    i, j := HighestAndLowest(sys.positions, sys.Count(), axis);
    PaddedCubeFits(Highest(sys.positions, sys.Count()), Lowest(sys.positions, sys.Count()), axis);
  }

  lemma PaddedCubeFits(max: Vec, min: Vec, axis: nat)
    requires min.x <= max.x && min.y <= max.y && min.z <= max.z
    ensures Along(Center(PaddedCube(max, min)), axis) * 2.0 == Along(min, axis) + Along(max, axis)
    ensures (Along(max, axis) - Along(min, axis)) * 1.1 <= Edge(PaddedCube(max, min))
    ensures exists a :: 0 <= a < 3 && (Along(max, a) - Along(min, a)) * 1.1 == Edge(PaddedCube(max, min))
  {
    var e := Extent(Box(max, min));
    assert Along(max, 0) - Along(min, 0) == e.x;
    assert Along(max, 1) - Along(min, 1) == e.y;
    assert Along(max, 2) - Along(min, 2) == e.z;
  }

  lemma RootIsTight(sys: Bodies) returns (axis: nat, i: nat, j: nat)
    requires sys.Count() > 0
    ensures axis < 3 && Spans(sys.positions, sys.Count(), axis, i, j)
    ensures (Along(sys.positions[j], axis) - Along(sys.positions[i], axis)) * 1.1 == Edge(RootBox(sys))
  {
    var max, min := Highest(sys.positions, sys.Count()), Lowest(sys.positions, sys.Count());
    PaddedCubeFits(max, min, 0);
    axis :| 0 <= axis < 3 && (Along(max, axis) - Along(min, axis)) * 1.1 == Edge(PaddedCube(max, min));
    i, j := HighestAndLowest(sys.positions, sys.Count(), axis);
  }

  /** No two particles compare equal. */
  ghost predicate AllUnequal(sys: Bodies) {
    forall i, j :: 0 <= i < sys.Count() && 0 <= j < sys.Count() && i != j ==>
      !NearlyEqual(sys.positions[i], sys.positions[j])
  }

  /** Building the tree of the system ends. */
  ghost predicate Buildable(sys: Bodies) { sys.Valid() && (sys.Count() > 0 ==> BuildEnds(RootBox(sys), sys)) }

  /** The tree that is built and weighed. */
  ghost function FieldTree(sys: Bodies): (c: Cell)
    requires Buildable(sys) && sys.Count() > 0
    ensures c.Cell? && Fits(c, sys)
  {
    Weighed(Built(RootBox(sys), sys), sys)
  }

  /** Without coincident particles building ends, with the reference tree on the root box. */
  lemma UnequalIsBuildable(sys: Bodies)
    requires sys.Valid() && AllUnequal(sys)
    ensures Buildable(sys)
    ensures sys.Count() > 0 ==> Placed(RootBox(sys), All(sys.Count()), sys)
    ensures sys.Count() > 0 && NonNegativeMasses(sys) ==>
      FieldTree(sys) == TreeOf(RootBox(sys), All(sys.Count()), sys, true)
  {
    if sys.Count() > 0 {
      RootEncloses(sys);
      BuiltUnequal(RootBox(sys), sys);
      if NonNegativeMasses(sys) {
        assert 0 in All(sys.Count());
        WeighedTree(RootBox(sys), All(sys.Count()), sys);
      }
    }
  }

  // ---- the field ----

  /** No two particles are without softened distance. */
  ghost predicate AllApart(sys: Bodies, law: Law) {
    forall i, j :: 0 <= i < sys.Count() && 0 <= j < sys.Count() && i != j ==>
      DistSqr(sys.positions[j], sys.positions[i], law) > 0.0
  }

  /** Softening keeps particles apart, and so do unequal positions. */
  lemma SoftenedApart(sys: Bodies, law: Law)
    requires law.Valid() && (law.softeningSqr > 0.0 || AllUnequal(sys))
    ensures AllApart(sys, law)
  {
    forall i, j | 0 <= i < sys.Count() && 0 <= j < sys.Count() && i != j
      ensures DistSqr(sys.positions[j], sys.positions[i], law) > 0.0
    {
      Norm2Positive(Sub(sys.positions[j], sys.positions[i]));
      if AllUnequal(sys) {
        UnequalPointsApart(sys.positions[j], sys.positions[i], law);
      }
    }
  }

  /** The walk over the whole tree for particle `i`. */
  ghost function TreePull(sys: Bodies, law: Law, thetaSqr: real, i: nat): Term
    requires Buildable(sys) && law.Valid() && i < sys.Count()
  {
    Walk(Walker(sys, law, thetaSqr, i), FieldTree(sys))
  }

  /** The potential energies of the first `n` particles, each pair still counted from both sides. */
  ghost function TreeEnergy(sys: Bodies, law: Law, thetaSqr: real, n: nat): real
    requires Buildable(sys) && law.Valid() && n <= sys.Count()
  {
    if n == 0 then 0.0
    else TreeEnergy(sys, law, thetaSqr, n - 1) + TreePull(sys, law, thetaSqr, n - 1).scalar
  }
}
