/** The octree as a value: a reference definition that fixes the tree of a set of particles
    top-down, with no mention of insertion or of the order in which particles arrive. */
module Octree {
  import opened Vectors
  import opened Systems

  // ---- cells ----

  datatype Box = Box(max: Vec, min: Vec)

  function Extent(b: Box): Vec { Sub(b.max, b.min) }

  function Edge(b: Box): real {
    var e := Extent(b);
    Max(Max(e.x, e.y), e.z)
  }

  function EdgeSqr(b: Box): real { Edge(b) * Edge(b) }

  function Center(b: Box): Vec { Scale(Add(b.max, b.min), 0.5) }

  predicate Cube(b: Box) {
    var e := Extent(b);
    e.x == e.y == e.z && e.x >= 0.0
  }

  predicate InBox(p: Vec, b: Box) {
    b.min.x <= p.x <= b.max.x && b.min.y <= p.y <= b.max.y && b.min.z <= p.z <= b.max.z
  }

  /** Three bits, one per coordinate: is the point strictly above the centre? */
  function OctantIndex(p: Vec, center: Vec): (k: nat)
    ensures k < 8
  {
    (if p.x > center.x then 4 else 0) + (if p.y > center.y then 2 else 0) + (if p.z > center.z then 1 else 0)
  }

  function ChildBox(b: Box, k: nat): Box {
    var center := Center(b);
    var quarter := Scale(Sub(b.max, center), 0.5);
    var c := Vec(if (k / 4) % 2 == 1 then center.x + quarter.x else center.x - quarter.x,
                 if (k / 2) % 2 == 1 then center.y + quarter.y else center.y - quarter.y,
                 if k % 2 == 1 then center.z + quarter.z else center.z - quarter.z);
    Box(Add(c, quarter), Sub(c, quarter))
  }

  lemma ChildBoxHalves(b: Box, k: nat)
    requires Cube(b) && k < 8
    ensures Cube(ChildBox(b, k)) && Edge(ChildBox(b, k)) == Edge(b) / 2.0
  {
  }

  lemma ChildBoxContains(b: Box, p: Vec)
    requires Cube(b) && InBox(p, b)
    ensures InBox(p, ChildBox(b, OctantIndex(p, Center(b))))
  {
  }

  lemma ChildBoxInside(b: Box, p: Vec, k: nat)
    requires Cube(b) && k < 8 && InBox(p, ChildBox(b, k))
    ensures InBox(p, b)
  {
  }

  /** A point on a face that several children share belongs to the first of those that hold it. */
  lemma OctantIsFirst(b: Box, p: Vec, k: nat)
    requires Cube(b) && k < 8 && InBox(p, ChildBox(b, k))
    ensures OctantIndex(p, Center(b)) <= k
  {
  }

  /** Compared by the first coordinate that differs. */
  predicate Precedes(p: Vec, q: Vec) {
    p.x < q.x || (p.x == q.x && (p.y < q.y || (p.y == q.y && p.z < q.z)))
  }

  /** The children are numbered in the order of their lowest corners. */
  lemma ChildrenInOrder(b: Box, j: nat, k: nat)
    requires Cube(b) && Edge(b) > 0.0 && j < 8 && k < 8
    ensures j < k <==> Precedes(ChildBox(b, j).min, ChildBox(b, k).min)
  {
  }

  // ---- termination ----

  /** How often an edge can be halved before it falls below EPSILON. */
  ghost function Levels(edge: real): (d: nat)
    decreases (edge / EPSILON).Floor
  {
    if edge < EPSILON then 0 else 1 + Levels(edge / 2.0)
  }

  /** Two points of one cube that do not compare equal force its edge to be at least EPSILON. */
  lemma UnequalPointsNeedRoom(b: Box, p: Vec, q: Vec)
    requires Cube(b) && InBox(p, b) && InBox(q, b) && !NearlyEqual(p, q)
    ensures Edge(b) >= EPSILON && Levels(Edge(b) / 2.0) < Levels(Edge(b))
  {
  }

  /** Descending into a child uses up a level. */
  lemma ChildUsesLevel(b: Box, k: nat)
    requires Cube(b) && k < 8 && Edge(b) >= EPSILON
    ensures Levels(Edge(ChildBox(b, k))) < Levels(Edge(b))
  {
    ChildBoxHalves(b, k);
  }

  function Power2(n: nat): (r: real)
    ensures r >= 1.0
  {
    if n == 0 then 1.0 else 2.0 * Power2(n - 1)
  }

  /** The depth bound in closed form: 2^Levels brackets the edge, in units of EPSILON. */
  lemma {:induction false} LevelsBracketEdge(edge: real)
    ensures edge < EPSILON * Power2(Levels(edge))
    ensures edge >= EPSILON ==> EPSILON * Power2(Levels(edge)) <= 2.0 * edge
    decreases Levels(edge)
  {
    if edge >= EPSILON {
      LevelsBracketEdge(edge / 2.0);
    }
  }

  // ---- the tree of a set of particles ----

  const NO_PARTICLE := -1

  /** What a node holds. `Null` is the missing child. The edge is not repeated here: the box fixes it. */
  datatype Cell =
    | Null
    | Cell(box: Box, centerOfMass: Vec, totalMass: real, numParticles: int, particleIndex: int, children: seq<Cell>)

  /** `s` can be held by a tree on `b`: its particles exist, lie in the cube and are pairwise unequal. */
  ghost predicate Placed(b: Box, s: set<nat>, sys: Bodies) {
    && sys.Valid()
    && Cube(b)
    && (forall i :: i in s ==> i < sys.Count() && InBox(sys.positions[i], b))
    && (forall i, j :: i in s && j in s && i != j ==> !NearlyEqual(sys.positions[i], sys.positions[j]))
  }

  /** The particles of `s` in octant `k` of `b`. */
  ghost function InOctant(b: Box, s: set<nat>, sys: Bodies, k: nat): (r: set<nat>)
    requires Placed(b, s, sys)
  {
    set i | i in s && OctantIndex(sys.positions[i], Center(b)) == k
  }

  /** Total mass times position, with total mass. */
  ghost function MomentsOf(s: set<nat>, sys: Bodies): Term
    requires sys.Valid()
  {
    Total(Moments(sys), s, sys.Count())
  }

  ghost function MassOf(s: set<nat>, sys: Bodies): real
    requires sys.Valid()
  {
    MomentsOf(s, sys).scalar
  }

  ghost function MomentOf(s: set<nat>, sys: Bodies): Vec
    requires sys.Valid()
  {
    MomentsOf(s, sys).vec
  }

  ghost function CenterOf(s: set<nat>, sys: Bodies): Vec
    requires sys.Valid()
  {
    if MassOf(s, sys) > 0.0 then Div(MomentOf(s, sys), MassOf(s, sys)) else MomentOf(s, sys)
  }

  lemma PlacedInOctant(b: Box, s: set<nat>, sys: Bodies, k: nat)
    requires Placed(b, s, sys) && k < 8
    ensures Placed(ChildBox(b, k), InOctant(b, s, sys, k), sys)
  {
    ChildBoxHalves(b, k);
    forall i | i in InOctant(b, s, sys, k)
      ensures InBox(sys.positions[i], ChildBox(b, k))
    {
      ChildBoxContains(b, sys.positions[i]);
    }
  }

  lemma TwoParticlesNeedRoom(b: Box, s: set<nat>, sys: Bodies)
    requires Placed(b, s, sys) && |s| >= 2
    ensures Edge(b) >= EPSILON
  {
    var i :| i in s;
    assert |s - {i}| >= 1;
    var j :| j in s - {i};
    UnequalPointsNeedRoom(b, sys.positions[i], sys.positions[j]);
  }

  /** A cell that holds nothing. */
  ghost function EmptyCell(b: Box): Cell { Cell(b, ZERO, 0.0, 0, NO_PARTICLE, NoChildren()) }

  ghost function NoChildren(): (r: seq<Cell>)
    ensures |r| == 8 && forall k :: 0 <= k < 8 ==> r[k] == Null
  {
    seq(8, _ => Null)
  }

  /** The tree on cube `b` of the particles `s`; masses are zero until they are propagated.
      A cell holding one particle is a leaf; a cell holding more has a child in every octant
      that is not empty, and holds no particle itself. */
  ghost function TreeOf(b: Box, s: set<nat>, sys: Bodies, weighed: bool): (c: Cell)
    requires Placed(b, s, sys)
    ensures c.Cell? && c.box == b && |c.children| == 8
    decreases Levels(Edge(b)), 1
  {
    var mass := if weighed then MassOf(s, sys) else 0.0;
    if s == {} then
      EmptyCell(b)
    else if |s| == 1 then
      var i :| i in s;
      Cell(b, if weighed then sys.positions[i] else ZERO, mass, 1, i, NoChildren())
    else
      TwoParticlesNeedRoom(b, s, sys);
      Cell(b, if weighed then CenterOf(s, sys) else ZERO, mass, |s|, NO_PARTICLE, ChildrenOf(b, s, sys, weighed))
  }

  ghost function ChildOf(b: Box, s: set<nat>, sys: Bodies, weighed: bool, k: nat): (c: Cell)
    requires Placed(b, s, sys) && Edge(b) >= EPSILON && k < 8
    decreases Levels(Edge(b)), 0, 0
  {
    PlacedInOctant(b, s, sys, k);
    ChildBoxHalves(b, k);
    if InOctant(b, s, sys, k) == {} then Null
    else TreeOf(ChildBox(b, k), InOctant(b, s, sys, k), sys, weighed)
  }

  ghost function ChildrenOf(b: Box, s: set<nat>, sys: Bodies, weighed: bool): (r: seq<Cell>)
    requires Placed(b, s, sys) && Edge(b) >= EPSILON
    ensures |r| == 8 && forall k :: 0 <= k < 8 ==> r[k] == ChildOf(b, s, sys, weighed, k)
    decreases Levels(Edge(b)), 0, 1
  {
    seq(8, k requires 0 <= k < 8 => ChildOf(b, s, sys, weighed, k))
  }

  // ---- how one more particle changes the reference tree ----

  lemma PlacedSubset(b: Box, s: set<nat>, t: set<nat>, sys: Bodies)
    requires Placed(b, t, sys) && s <= t
    ensures Placed(b, s, sys)
  {
  }

  /** Only the octant of the new particle changes. */
  lemma InOctantInsert(b: Box, s: set<nat>, i: nat, sys: Bodies, k: nat)
    requires Placed(b, s + {i}, sys) && i < sys.Count()
    ensures Placed(b, s, sys)
    ensures InOctant(b, s + {i}, sys, k) ==
      if k == OctantIndex(sys.positions[i], Center(b)) then InOctant(b, s, sys, k) + {i} else InOctant(b, s, sys, k)
  {
    PlacedSubset(b, s, s + {i}, sys);
  }

  /** The children after particle `i` arrives: one of them is rebuilt, and it is the tree of one particle more. */
  lemma ChildrenInsert(b: Box, s: set<nat>, i: nat, sys: Bodies, k: nat)
    requires Placed(b, s + {i}, sys) && i < sys.Count() && Edge(b) >= EPSILON && i !in s
    requires k == OctantIndex(sys.positions[i], Center(b))
    ensures Placed(b, s, sys)
    ensures i !in InOctant(b, s, sys, k)
    ensures Placed(ChildBox(b, k), InOctant(b, s, sys, k), sys)
    ensures Placed(ChildBox(b, k), InOctant(b, s, sys, k) + {i}, sys)
    ensures ChildrenOf(b, s + {i}, sys, false) ==
      ChildrenOf(b, s, sys, false)[k := TreeOf(ChildBox(b, k), InOctant(b, s, sys, k) + {i}, sys, false)]
  {
    PlacedSubset(b, s, s + {i}, sys);
    PlacedInOctant(b, s, sys, k);
    PlacedInOctant(b, s + {i}, sys, k);
    var before, after := ChildrenOf(b, s, sys, false), ChildrenOf(b, s + {i}, sys, false);
    InOctantInsert(b, s, i, sys, k);
    forall j | 0 <= j < 8 && j != k
      ensures after[j] == before[j]
    {
      InOctantInsert(b, s, i, sys, j);
    }
    assert after == before[k := after[k]];
  }

  /** A child, created empty if it is missing, is the tree of its octant. */
  lemma ChildMeaning(b: Box, s: set<nat>, sys: Bodies, k: nat)
    requires Placed(b, s, sys) && Edge(b) >= EPSILON && k < 8
    ensures Placed(ChildBox(b, k), InOctant(b, s, sys, k), sys)
    ensures TreeOf(ChildBox(b, k), InOctant(b, s, sys, k), sys, false) ==
      if ChildrenOf(b, s, sys, false)[k] == Null then EmptyCell(ChildBox(b, k)) else ChildrenOf(b, s, sys, false)[k]
  {
    PlacedInOctant(b, s, sys, k);
  }

  lemma SingletonIsElement(s: set<nat>, i: nat)
    requires |s| == 1 && i in s
    ensures s == {i}
  {
    assert |s - {i}| == 0;
  }

  /** What the particle count of a cell says about its members. */
  lemma CountMeaning(b: Box, s: set<nat>, sys: Bodies, weighed: bool)
    requires Placed(b, s, sys)
    ensures TreeOf(b, s, sys, weighed).numParticles == |s|
    ensures |s| == 1 ==>
      TreeOf(b, s, sys, weighed).particleIndex >= 0 && s == {TreeOf(b, s, sys, weighed).particleIndex}
  {
    if |s| == 1 {
      SingletonIsElement(s, TreeOf(b, s, sys, weighed).particleIndex);
    }
  }

  lemma EmptyChildren(b: Box, sys: Bodies)
    requires Placed(b, {}, sys) && Edge(b) >= EPSILON
    ensures ChildrenOf(b, {}, sys, false) == NoChildren()
  {
  }

  // ---- masses ----

  lemma MassNonNegative(s: set<nat>, sys: Bodies)
    requires sys.Valid() && NonNegativeMasses(sys)
    ensures MassOf(s, sys) >= 0.0
    ensures MassOf(s, sys) == 0.0 ==> MomentOf(s, sys) == ZERO
  {
    forall i | 0 <= i < sys.Count()
      ensures Moments(sys)[i].scalar >= 0.0
      ensures Moments(sys)[i].scalar == 0.0 ==> Moments(sys)[i].vec == ZERO
    {
      assert sys.masses[i] in sys.masses;
      if sys.masses[i] == 0.0 {
        ScaleByZero(sys.positions[i], sys.masses[i]);
      }
    }
    TotalWeighs(Moments(sys), s, sys.Count());
  }

  lemma ScaleByZero(v: Vec, m: real)
    requires m == 0.0
    ensures Scale(v, m) == ZERO
  {
  }

  lemma ScaleUndoesDiv(v: Vec, m: real)
    requires m > 0.0
    ensures Scale(Div(v, m), m) == v
  {
  }

  /** Every cell with particles stores their mass and their centre of mass. */
  lemma CellMass(b: Box, s: set<nat>, sys: Bodies)
    requires Placed(b, s, sys) && s != {} && NonNegativeMasses(sys)
    ensures TreeOf(b, s, sys, true).totalMass == MassOf(s, sys)
    ensures Scale(TreeOf(b, s, sys, true).centerOfMass, MassOf(s, sys)) == MomentOf(s, sys)
  {
    MassNonNegative(s, sys);
    if |s| == 1 {
      var i := TreeOf(b, s, sys, true).particleIndex;
      SingletonIsElement(s, i);
      TotalOne(Moments(sys), i, sys.Count());
    } else if MassOf(s, sys) > 0.0 {
      ScaleUndoesDiv(MomentOf(s, sys), MassOf(s, sys));
    } else {
      ScaleByZero(ZERO, MassOf(s, sys));
    }
  }
}
