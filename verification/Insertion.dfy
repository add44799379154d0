/** Insertion into the octree as it goes, call by call, with its branch for coincident particles. */
module Insertion {
  import opened Options
  import opened Vectors
  import opened Systems
  import opened Octree
  import opened TreeShape

  // ---- insertion, call by call ----

  /** A cell with one particle is a leaf that names it. */
  ghost predicate Fits(c: Cell, sys: Bodies)
    decreases c, 1
  {
    FitsBelow(c, sys) && (c.numParticles == 1 ==> 0 <= c.particleIndex < sys.Count())
  }

  ghost predicate FitsBelow(c: Cell, sys: Bodies)
    decreases c, 0
  {
    c.Cell? && |c.children| == 8 && forall k :: 0 <= k < 8 ==> c.children[k].Null? || Fits(c.children[k], sys)
  }

  /** The coordinate along one of three axes. */
  function Along(p: Vec, axis: nat): real { if axis == 0 then p.x else if axis == 1 then p.y else p.z }

  function Shifted(p: Vec, axis: nat, d: real): Vec {
    if axis == 0 then Vec(p.x + d, p.y, p.z)
    else if axis == 1 then Vec(p.x, p.y + d, p.z)
    else Vec(p.x, p.y, p.z + d)
  }

  /** A millionth of the edge, or the tolerance in a cell without extent. */
  function Perturbation(b: Box): real { if Edge(b) > 0.0 then Edge(b) * 0.000001 else EPSILON }

  /** Inserts particle `i`, taken to be at `pos`, into a cell. `fuel` bounds the depth of the calls; where it does
      not suffice there is no result. */
  ghost function Insert(c: Cell, i: nat, pos: Vec, sys: Bodies, fuel: nat): (r: Option<Cell>)
    requires i < sys.Count() && Fits(c, sys)
    ensures r.Some? ==> Fits(r.value, sys)
    decreases fuel, 2
  {
    if fuel == 0 then None
    else if c.numParticles == 0 then
      assert FitsBelow(c.(particleIndex := i, numParticles := 1), sys) by { assert FitsBelow(c, sys); }
      Some(c.(particleIndex := i, numParticles := 1))
    else if c.numParticles != 1 then InsertBelow(c, i, pos, sys, fuel)
    else if NearlyEqual(sys.positions[c.particleIndex], pos) then
      Insert(c, i, Shifted(pos, i % 3, Perturbation(c.box)), sys, fuel - 1)
    else
      match Descend(c, OctantIndex(sys.positions[c.particleIndex], Center(c.box)), c.particleIndex, sys, fuel)
      case None => None
      case Some(d) => InsertBelow(d.(particleIndex := NO_PARTICLE), i, pos, sys, fuel)
  }

  /** Inserts particle `i` into the child in whose octant `pos` lies. */
  ghost function InsertBelow(c: Cell, i: nat, pos: Vec, sys: Bodies, fuel: nat): (r: Option<Cell>)
    requires fuel > 0 && i < sys.Count() && FitsBelow(c, sys) && c.numParticles != 0
    ensures r.Some? ==> Fits(r.value, sys)
    decreases fuel, 1
  {
    match Descend(c, OctantIndex(pos, Center(c.box)), i, sys, fuel)
    case None => None
    case Some(d) => Some(d.(numParticles := d.numParticles + 1))
  }

  /** Inserts particle `i`, from its own position, into child `k`, which is created if it is missing. */
  ghost function Descend(c: Cell, k: nat, i: nat, sys: Bodies, fuel: nat): (r: Option<Cell>)
    requires fuel > 0 && k < 8 && i < sys.Count() && FitsBelow(c, sys)
    ensures r.Some? ==> FitsBelow(r.value, sys) && r.value == c.(children := r.value.children)
    decreases fuel, 0
  {
    var child := if c.children[k].Null? then EmptyCell(ChildBox(c.box, k)) else c.children[k];
    match Insert(child, i, sys.positions[i], sys, fuel - 1)
    case None => None
    case Some(d) => Some(c.(children := c.children[k := d]))
  }

  /** The insertion of particle `i`, from its own position, ends. */
  ghost predicate Ends(c: Cell, i: nat, sys: Bodies)
    requires i < sys.Count() && Fits(c, sys)
  {
    exists fuel: nat :: Insert(c, i, sys.positions[i], sys, fuel).Some?
  }

  /** More fuel changes nothing. */
  lemma {:induction false} MoreFuel(c: Cell, i: nat, pos: Vec, sys: Bodies, fuel: nat, more: nat)
    requires i < sys.Count() && Fits(c, sys) && fuel <= more && Insert(c, i, pos, sys, fuel).Some?
    ensures Insert(c, i, pos, sys, more) == Insert(c, i, pos, sys, fuel)
    decreases fuel, 2
  {
    if c.numParticles == 0 {
    } else if c.numParticles != 1 {
      MoreFuelBelow(c, i, pos, sys, fuel, more);
    } else if NearlyEqual(sys.positions[c.particleIndex], pos) {
      MoreFuel(c, i, Shifted(pos, i % 3, Perturbation(c.box)), sys, fuel - 1, more - 1);
    } else {
      var k := OctantIndex(sys.positions[c.particleIndex], Center(c.box));
      MoreFuelDescend(c, k, c.particleIndex, sys, fuel, more);
      var d := Descend(c, k, c.particleIndex, sys, fuel).value;
      MoreFuelBelow(d.(particleIndex := NO_PARTICLE), i, pos, sys, fuel, more);
    }
  }

  lemma {:induction false} MoreFuelBelow(c: Cell, i: nat, pos: Vec, sys: Bodies, fuel: nat, more: nat)
    requires 0 < fuel <= more && i < sys.Count() && FitsBelow(c, sys) && c.numParticles != 0
    requires InsertBelow(c, i, pos, sys, fuel).Some?
    ensures InsertBelow(c, i, pos, sys, more) == InsertBelow(c, i, pos, sys, fuel)
    decreases fuel, 1
  {
    MoreFuelDescend(c, OctantIndex(pos, Center(c.box)), i, sys, fuel, more);
  }

  lemma {:induction false} MoreFuelDescend(c: Cell, k: nat, i: nat, sys: Bodies, fuel: nat, more: nat)
    requires 0 < fuel <= more && k < 8 && i < sys.Count() && FitsBelow(c, sys) && Descend(c, k, i, sys, fuel).Some?
    ensures Descend(c, k, i, sys, more) == Descend(c, k, i, sys, fuel)
    decreases fuel, 0
  {
    var child := if c.children[k].Null? then EmptyCell(ChildBox(c.box, k)) else c.children[k];
    MoreFuel(child, i, sys.positions[i], sys, fuel - 1, more - 1);
  }

  // ---- without coincident particles ----

  lemma {:induction false} TreeFits(b: Box, s: set<nat>, sys: Bodies)
    requires Placed(b, s, sys)
    ensures Fits(TreeOf(b, s, sys, false), sys)
    decreases Levels(Edge(b)), 1
  {
    CountMeaning(b, s, sys, false);
    if |s| >= 2 {
      TwoParticlesNeedRoom(b, s, sys);
      ChildrenFit(TreeOf(b, s, sys, false), b, s, sys);
    }
  }

  lemma {:induction false} ChildrenFit(c: Cell, b: Box, s: set<nat>, sys: Bodies)
    requires Placed(b, s, sys) && Edge(b) >= EPSILON
    requires c.Cell? && c.children == ChildrenOf(b, s, sys, false)
    ensures FitsBelow(c, sys)
    decreases Levels(Edge(b)), 0
  {
    forall k | 0 <= k < 8 ensures c.children[k].Null? || Fits(c.children[k], sys) {
      PlacedInOctant(b, s, sys, k);
      ChildUsesLevel(b, k);
      TreeFits(ChildBox(b, k), InOctant(b, s, sys, k), sys);
    }
  }

  lemma DescendsInto(c: Cell, k: nat, i: nat, sys: Bodies, fuel: nat, child: Cell, d: Cell, after: seq<Cell>)
    requires fuel > 0 && k < 8 && i < sys.Count() && FitsBelow(c, sys) && Fits(child, sys)
    requires child == if c.children[k].Null? then EmptyCell(ChildBox(c.box, k)) else c.children[k]
    requires Insert(child, i, sys.positions[i], sys, fuel - 1) == Some(d) && after == c.children[k := d]
    ensures Descend(c, k, i, sys, fuel) == Some(c.(children := after))
  {
  }

  /** The child that particle `i` goes to, before and after. */
  lemma OctantGrows(b: Box, s: set<nat>, sys: Bodies, i: nat, k: nat) returns (members: set<nat>)
    requires Placed(b, s, sys) && Placed(b, s + {i}, sys) && i !in s && i < sys.Count() && Edge(b) >= EPSILON
    requires k == OctantIndex(sys.positions[i], Center(b))
    ensures i !in members && Placed(ChildBox(b, k), members, sys) && Placed(ChildBox(b, k), members + {i}, sys)
    ensures Levels(Edge(ChildBox(b, k))) < Levels(Edge(b))
    ensures TreeOf(ChildBox(b, k), members, sys, false) ==
      var child := ChildrenOf(b, s, sys, false)[k];
      if child.Null? then EmptyCell(ChildBox(b, k)) else child
    ensures ChildrenOf(b, s + {i}, sys, false) ==
      ChildrenOf(b, s, sys, false)[k := TreeOf(ChildBox(b, k), members + {i}, sys, false)]
  {
    members := InOctant(b, s, sys, k);
    ChildUsesLevel(b, k);
    ChildrenInsert(b, s, i, sys, k);
    ChildMeaning(b, s, sys, k);
  }

  /** The child in that octant, created if it is missing, and the child that insertion makes of it. */
  lemma {:induction false} GrowsChild(b: Box, s: set<nat>, sys: Bodies, i: nat, k: nat, fuel: nat)
    returns (child: Cell, grown: Cell)
    requires Placed(b, s, sys) && Placed(b, s + {i}, sys) && i !in s && i < sys.Count() && Edge(b) >= EPSILON
    requires k == OctantIndex(sys.positions[i], Center(b)) && fuel >= Levels(Edge(b)) + 1
    ensures Fits(child, sys) && Insert(child, i, sys.positions[i], sys, fuel) == Some(grown)
    ensures child == var before := ChildrenOf(b, s, sys, false)[k]; if before.Null? then EmptyCell(ChildBox(b, k)) else before
    ensures ChildrenOf(b, s + {i}, sys, false) == ChildrenOf(b, s, sys, false)[k := grown]
    decreases Levels(Edge(b)), 0
  {
    var members := OctantGrows(b, s, sys, i, k);
    child, grown := TreeOf(ChildBox(b, k), members, sys, false), TreeOf(ChildBox(b, k), members + {i}, sys, false);
    InsertsUnequal(ChildBox(b, k), members, sys, i, fuel);
  }

  lemma {:induction false} DescendsUnequal(c: Cell, b: Box, s: set<nat>, sys: Bodies, i: nat, fuel: nat)
    requires Placed(b, s, sys) && Placed(b, s + {i}, sys) && i !in s && i < sys.Count() && Edge(b) >= EPSILON
    requires c.Cell? && c.box == b && c.children == ChildrenOf(b, s, sys, false) && fuel >= Levels(Edge(b)) + 2
    ensures FitsBelow(c, sys)
    ensures Descend(c, OctantIndex(sys.positions[i], Center(b)), i, sys, fuel)
      == Some(c.(children := ChildrenOf(b, s + {i}, sys, false)))
    decreases Levels(Edge(b)), 1
  {
    ChildrenFit(c, b, s, sys);
    var k := OctantIndex(sys.positions[i], Center(b));
    var child, grown := GrowsChild(b, s, sys, i, k, fuel - 1);
    DescendsInto(c, k, i, sys, fuel, child, grown, ChildrenOf(b, s + {i}, sys, false));
  }

  /** The leaf of particle `j` on cube `b`. */
  ghost function Leaf(b: Box, j: nat): Cell { Cell(b, ZERO, 0.0, 1, j, NoChildren()) }

  lemma TreeOfOne(b: Box, s: set<nat>, sys: Bodies, j: nat)
    requires Placed(b, s, sys) && s == {j}
    ensures TreeOf(b, s, sys, false) == Leaf(b, j) && j < sys.Count() && Fits(Leaf(b, j), sys)
  {
    CountMeaning(b, s, sys, false);
    TreeFits(b, s, sys);
  }

  /** What a leaf that is subdivided does. */
  lemma SubdividesTo(c: Cell, i: nat, pos: Vec, sys: Bodies, fuel: nat, d: Cell, e: Cell)
    requires fuel > 0 && i < sys.Count() && Fits(c, sys) && c.numParticles == 1
    requires !NearlyEqual(sys.positions[c.particleIndex], pos)
    requires Descend(c, OctantIndex(sys.positions[c.particleIndex], Center(c.box)), c.particleIndex, sys, fuel) == Some(d)
    requires FitsBelow(d.(particleIndex := NO_PARTICLE), sys) && d.Cell? && d.numParticles == 1
    requires Descend(d.(particleIndex := NO_PARTICLE), OctantIndex(pos, Center(d.box)), i, sys, fuel) == Some(e)
    ensures Insert(c, i, pos, sys, fuel) == Some(e.(numParticles := e.numParticles + 1))
  {
  }

  lemma {:induction false} InsertsAtLeaf(b: Box, j: nat, sys: Bodies, i: nat, fuel: nat)
    requires Placed(b, {j}, sys) && Placed(b, {j} + {i}, sys) && i != j && i < sys.Count()
    requires Edge(b) >= EPSILON && fuel >= Levels(Edge(b)) + 2
    ensures Fits(Leaf(b, j), sys)
    ensures Insert(Leaf(b, j), i, sys.positions[i], sys, fuel)
      == Some(Cell(b, ZERO, 0.0, 2, NO_PARTICLE, ChildrenOf(b, {j} + {i}, sys, false)))
    decreases Levels(Edge(b)), 2
  {
    var c := Leaf(b, j);
    TreeOfOne(b, {j}, sys, j);
    EmptyChildren(b, sys);
    assert {} + {j} == {j};
    DescendsUnequal(c, b, {}, sys, j, fuel);
    var d := c.(children := ChildrenOf(b, {j}, sys, false));
    DescendsUnequal(d.(particleIndex := NO_PARTICLE), b, {j}, sys, i, fuel);
    SubdividesTo(c, i, sys.positions[i], sys, fuel, d,
                 d.(particleIndex := NO_PARTICLE, children := ChildrenOf(b, {j} + {i}, sys, false)));
  }

  /** A particle that compares equal to none in the tree: insertion ends, with the reference tree of one more. */
  lemma {:induction false} InsertsUnequal(b: Box, s: set<nat>, sys: Bodies, i: nat, fuel: nat)
    requires Placed(b, s, sys) && Placed(b, s + {i}, sys) && i !in s && i < sys.Count() && fuel >= Levels(Edge(b)) + 2
    ensures Fits(TreeOf(b, s, sys, false), sys)
    ensures Insert(TreeOf(b, s, sys, false), i, sys.positions[i], sys, fuel) == Some(TreeOf(b, s + {i}, sys, false))
    decreases Levels(Edge(b)), 3
  {
    var c := TreeOf(b, s, sys, false);
    TreeFits(b, s, sys);
    CountMeaning(b, s, sys, false);
    CountMeaning(b, s + {i}, sys, false);
    if |s| == 1 {
      var j := c.particleIndex;
      TwoParticlesNeedRoom(b, s + {i}, sys);
      TreeOfOne(b, s, sys, j);
      InsertsAtLeaf(b, j, sys, i, fuel);
    } else if |s| > 1 {
      TwoParticlesNeedRoom(b, s, sys);
      DescendsUnequal(c, b, s, sys, i, fuel);
      BelowTo(c, i, sys.positions[i], sys, fuel, c.(children := ChildrenOf(b, s + {i}, sys, false)));
    }
  }

  lemma BelowTo(c: Cell, i: nat, pos: Vec, sys: Bodies, fuel: nat, d: Cell)
    requires fuel > 0 && i < sys.Count() && Fits(c, sys) && c.numParticles > 1
    requires Descend(c, OctantIndex(pos, Center(c.box)), i, sys, fuel) == Some(d)
    ensures d.Cell? && Insert(c, i, pos, sys, fuel) == Some(d.(numParticles := d.numParticles + 1))
  {
  }

  // ---- coincident or not: no particle is lost, and none is held twice ----

  lemma EmptyCounts(b: Box)
    ensures Counted(EmptyCell(b)) && Leaves(EmptyCell(b)) == {}
  {
    assert LeavesBelow(EmptyCell(b)) == {};
  }

  /** One of several sets has gained an element that none of them had. */
  ghost predicate Gains(before: seq<Cell>, after: seq<Cell>, k: nat, i: nat) {
    && |before| == |after| && k < |before|
    && (forall j :: 0 <= j < |after| && j != k ==> Leaves(after[j]) == Leaves(before[j]))
    && Leaves(after[k]) == Leaves(before[k]) + {i}
    && (forall j :: 0 <= j < |before| ==> i !in Leaves(before[j]))
  }

  lemma UnionGains(c: Cell, d: Cell, k: nat, i: nat)
    requires c.Cell? && d.Cell? && Gains(c.children, d.children, k, i)
    ensures LeavesBelow(d) == LeavesBelow(c) + {i}
  {
    forall x | x in LeavesBelow(c) ensures x in LeavesBelow(d) {
      var j :| 0 <= j < |c.children| && x in Leaves(c.children[j]);
      assert x in Leaves(d.children[j]);
    }
    assert i in Leaves(d.children[k]);
  }

  lemma DisjointGains(before: seq<Cell>, after: seq<Cell>, k: nat, i: nat)
    requires Gains(before, after, k, i)
    requires forall j, l :: 0 <= j < l < |before| ==> Leaves(before[j]) !! Leaves(before[l])
    requires forall j :: 0 <= j < |before| ==> before[j].Cell? ==> Leaves(before[j]) != {}
    requires forall j :: 0 <= j < |before| && j != k ==> after[j] == before[j]
    ensures forall j, l :: 0 <= j < l < |after| ==> Leaves(after[j]) !! Leaves(after[l])
    ensures forall j :: 0 <= j < |after| ==> after[j].Cell? ==> Leaves(after[j]) != {}
  {
    forall j, l | 0 <= j < l < |after| ensures Leaves(after[j]) !! Leaves(after[l]) {
      assert Leaves(before[j]) !! Leaves(before[l]) && i !in Leaves(before[j]) && i !in Leaves(before[l]);
    }
  }

  lemma NotBelow(c: Cell, i: nat)
    requires c.Cell? && i !in LeavesBelow(c)
    ensures forall j :: 0 <= j < |c.children| ==> i !in Leaves(c.children[j])
  {
  }

  lemma CountedGains(before: seq<Cell>, after: seq<Cell>, k: nat)
    requires |before| == |after| && k < |before| && Counted(after[k])
    requires forall j :: 0 <= j < |before| ==> Counted(before[j])
    requires forall j :: 0 <= j < |before| && j != k ==> after[j] == before[j]
    ensures forall j :: 0 <= j < |after| ==> Counted(after[j])
  {
  }

  /** Child `k` is replaced by a tree with one particle more. */
  lemma ChildCounts(c: Cell, k: nat, d: Cell, i: nat, e: Cell)
    requires c.Cell? && CountedBelow(c) && k < 8 && i !in LeavesBelow(c)
    requires Counted(d) && Leaves(d) == Leaves(c.children[k]) + {i} && e.Cell? && e.children == c.children[k := d]
    ensures CountedBelow(e) && LeavesBelow(e) == LeavesBelow(c) + {i}
  {
    NotBelow(c, i);
    UnionGains(c, e, k, i);
    DisjointGains(c.children, e.children, k, i);
    CountedGains(c.children, e.children, k);
  }

  lemma {:induction false} DescendCounts(c: Cell, k: nat, i: nat, sys: Bodies, fuel: nat, d: Cell)
    requires fuel > 0 && k < 8 && i < sys.Count() && FitsBelow(c, sys) && CountedBelow(c) && i !in LeavesBelow(c)
    requires Descend(c, k, i, sys, fuel) == Some(d)
    ensures d.Cell? && CountedBelow(d) && LeavesBelow(d) == LeavesBelow(c) + {i}
    decreases fuel, 0
  {
    var child := if c.children[k].Null? then EmptyCell(ChildBox(c.box, k)) else c.children[k];
    EmptyCounts(ChildBox(c.box, k));
    assert i !in Leaves(c.children[k]);
    var grown := Insert(child, i, sys.positions[i], sys, fuel - 1).value;
    InsertCounts(child, i, sys.positions[i], sys, fuel - 1, grown);
    ChildCounts(c, k, grown, i, d);
  }

  lemma {:induction false} InsertBelowCounts(c: Cell, i: nat, pos: Vec, sys: Bodies, fuel: nat, d: Cell)
    requires fuel > 0 && i < sys.Count() && FitsBelow(c, sys) && CountedBelow(c) && i !in LeavesBelow(c)
    requires c.numParticles == |LeavesBelow(c)| > 0 && InsertBelow(c, i, pos, sys, fuel) == Some(d)
    ensures Counted(d) && Leaves(d) == LeavesBelow(c) + {i}
    decreases fuel, 1, 0
  {
    var k := OctantIndex(pos, Center(c.box));
    var e := Descend(c, k, i, sys, fuel).value;
    DescendCounts(c, k, i, sys, fuel, e);
    SameChildren(d, e);
  }

  lemma SameChildren(c: Cell, d: Cell)
    requires c.Cell? && d.Cell? && c.children == d.children
    ensures LeavesBelow(c) == LeavesBelow(d) && (CountedBelow(c) <==> CountedBelow(d))
  {
  }

  /** Whatever the particle compares equal to: when insertion ends, it is in one leaf more, all others are where they were
      found before, and every node counts the particles below it. */
  lemma {:induction false} InsertCounts(c: Cell, i: nat, pos: Vec, sys: Bodies, fuel: nat, d: Cell)
    requires i < sys.Count() && Fits(c, sys) && Counted(c) && i !in Leaves(c) && Insert(c, i, pos, sys, fuel) == Some(d)
    ensures Counted(d) && Leaves(d) == Leaves(c) + {i}
    decreases fuel, 2
  {
    if c.numParticles == 0 {
      SameChildren(c, d);
    } else if c.numParticles != 1 {
      InsertBelowCounts(c, i, pos, sys, fuel, d);
    } else if NearlyEqual(sys.positions[c.particleIndex], pos) {
      InsertCounts(c, i, Shifted(pos, i % 3, Perturbation(c.box)), sys, fuel - 1, d);
    } else {
      LeafCounts(c, i, pos, sys, fuel, d);
    }
  }

  /** A leaf that is subdivided. */
  lemma {:induction false} LeafCounts(c: Cell, i: nat, pos: Vec, sys: Bodies, fuel: nat, d: Cell)
    requires i < sys.Count() && Fits(c, sys) && c.numParticles == 1 && CountedBelow(c) && LeavesBelow(c) == {}
    requires c.particleIndex != i && fuel > 0 && !NearlyEqual(sys.positions[c.particleIndex], pos)
    requires Insert(c, i, pos, sys, fuel) == Some(d)
    ensures Counted(d) && Leaves(d) == {c.particleIndex as nat, i}
    decreases fuel, 1, 1
  {
    var j := c.particleIndex;
    var k := OctantIndex(sys.positions[j], Center(c.box));
    var e := Descend(c, k, j, sys, fuel).value;
    DescendCounts(c, k, j, sys, fuel, e);
    SameChildren(e.(particleIndex := NO_PARTICLE), e);
    assert LeavesBelow(e) == {j};
    InsertBelowCounts(e.(particleIndex := NO_PARTICLE), i, pos, sys, fuel, d);
  }

  // ---- all particles, one after the other ----

  /** The tree of the first `n` particles, as the loop builds it; `fuel` bounds the depth of each insertion. */
  ghost function BuildUpTo(b: Box, sys: Bodies, n: nat, fuel: nat): (r: Option<Cell>)
    requires n <= sys.Count()
    ensures r.Some? ==> Fits(r.value, sys)
  {
    if n == 0 then
      assert FitsBelow(EmptyCell(b), sys);
      Some(EmptyCell(b))
    else
      match BuildUpTo(b, sys, n - 1, fuel)
      case None => None
      case Some(c) => Insert(c, n - 1, sys.positions[n - 1], sys, fuel)
  }

  lemma {:induction false} BuildEndsBefore(b: Box, sys: Bodies, m: nat, n: nat, fuel: nat)
    requires m <= n <= sys.Count() && BuildUpTo(b, sys, n, fuel).Some?
    ensures BuildUpTo(b, sys, m, fuel).Some?
  {
    if m < n {
      BuildEndsBefore(b, sys, m, n - 1, fuel);
    }
  }

  /** The loop gets past the first `n` particles. */
  ghost predicate BuildGets(b: Box, sys: Bodies, n: nat)
    requires n <= sys.Count()
  {
    exists fuel: nat :: BuildUpTo(b, sys, n, fuel).Some?
  }

  /** The loop ends. */
  ghost predicate BuildEnds(b: Box, sys: Bodies) { BuildGets(b, sys, sys.Count()) }

  lemma {:induction false} BuildMoreFuel(b: Box, sys: Bodies, n: nat, fuel: nat, more: nat)
    requires n <= sys.Count() && fuel <= more && BuildUpTo(b, sys, n, fuel).Some?
    ensures BuildUpTo(b, sys, n, more) == BuildUpTo(b, sys, n, fuel)
  {
    if n > 0 {
      BuildMoreFuel(b, sys, n - 1, fuel, more);
      MoreFuel(BuildUpTo(b, sys, n - 1, fuel).value, n - 1, sys.positions[n - 1], sys, fuel, more);
    }
  }

  /** The tree that is built where building ends. */
  ghost function Built(b: Box, sys: Bodies): (c: Cell)
    requires BuildEnds(b, sys)
    ensures Fits(c, sys)
  {
    var fuel: nat :| BuildUpTo(b, sys, sys.Count(), fuel).Some?;
    BuildUpTo(b, sys, sys.Count(), fuel).value
  }

  lemma BuiltIsUnique(b: Box, sys: Bodies, fuel: nat)
    requires BuildUpTo(b, sys, sys.Count(), fuel).Some?
    ensures BuildEnds(b, sys) && BuildUpTo(b, sys, sys.Count(), fuel) == Some(Built(b, sys))
  {
    var other: nat :| BuildUpTo(b, sys, sys.Count(), other) == Some(Built(b, sys));
    if other <= fuel {
      BuildMoreFuel(b, sys, sys.Count(), other, fuel);
    } else {
      BuildMoreFuel(b, sys, sys.Count(), fuel, other);
    }
  }

  /** When building ends, every particle is in exactly one leaf, and every node counts those below it. */
  lemma {:induction false} BuildCounts(b: Box, sys: Bodies, n: nat, fuel: nat, c: Cell)
    requires n <= sys.Count() && BuildUpTo(b, sys, n, fuel) == Some(c)
    ensures Counted(c) && Leaves(c) == All(n)
  {
    if n == 0 {
      EmptyCounts(b);
    } else {
      var before := BuildUpTo(b, sys, n - 1, fuel).value;
      BuildCounts(b, sys, n - 1, fuel, before);
      InsertCounts(before, n - 1, sys.positions[n - 1], sys, fuel, c);
    }
  }

  lemma BuiltCounts(b: Box, sys: Bodies)
    requires BuildEnds(b, sys)
    ensures Counted(Built(b, sys)) && Leaves(Built(b, sys)) == All(sys.Count())
  {
    var fuel: nat :| BuildUpTo(b, sys, sys.Count(), fuel) == Some(Built(b, sys));
    BuildCounts(b, sys, sys.Count(), fuel, Built(b, sys));
  }

  lemma InsertsTo(b: Box, s: set<nat>, t: set<nat>, sys: Bodies, i: nat, fuel: nat, c: Cell, d: Cell)
    requires Placed(b, s, sys) && Placed(b, t, sys) && i < sys.Count() && i !in s && t == s + {i}
    requires fuel >= Levels(Edge(b)) + 2 && c == TreeOf(b, s, sys, false) && d == TreeOf(b, t, sys, false)
    ensures Fits(c, sys) && Insert(c, i, sys.positions[i], sys, fuel) == Some(d)
  {
    InsertsUnequal(b, s, sys, i, fuel);
  }

  /** The trees in between, one for each number of particles. */
  lemma {:induction false} BuildsAlong(b: Box, sys: Bodies, n: nat, fuel: nat, cs: seq<Cell>)
    requires n < |cs| <= sys.Count() + 1 && cs[0] == EmptyCell(b)
    requires forall k :: 0 <= k < n ==>
      Fits(cs[k], sys) && Insert(cs[k], k, sys.positions[k], sys, fuel) == Some(cs[k + 1])
    ensures BuildUpTo(b, sys, n, fuel) == Some(cs[n])
  {
    if n > 0 {
      BuildsAlong(b, sys, n - 1, fuel, cs);
    }
  }

  /** The reference tree of the first `n` of `m` particles. */
  ghost function TreeOfFirst(b: Box, sys: Bodies, n: nat, m: nat): Cell
    requires Placed(b, All(m), sys) && n <= m
  {
    PlacedSubset(b, All(n), All(m), sys);
    TreeOf(b, All(n), sys, false)
  }

  lemma InsertsNext(b: Box, sys: Bodies, n: nat, m: nat, fuel: nat, c: Cell, d: Cell)
    requires Placed(b, All(m), sys) && n < m <= sys.Count() && fuel >= Levels(Edge(b)) + 2
    requires c == TreeOfFirst(b, sys, n, m) && d == TreeOfFirst(b, sys, n + 1, m)
    ensures Fits(c, sys) && Insert(c, n, sys.positions[n], sys, fuel) == Some(d)
  {
    PlacedSubset(b, All(n), All(m), sys);
    PlacedSubset(b, All(n + 1), All(m), sys);
    assert All(n) + {n} == All(n + 1);
    InsertsTo(b, All(n), All(n + 1), sys, n, fuel, c, d);
  }

  /** As long as no particles coincide building goes on, with the reference tree. */
  lemma {:induction false} BuildsUnequal(b: Box, sys: Bodies, m: nat, fuel: nat)
    requires Placed(b, All(m), sys) && m <= sys.Count() && fuel >= Levels(Edge(b)) + 2
    ensures BuildUpTo(b, sys, m, fuel) == Some(TreeOfFirst(b, sys, m, m))
  {
    var cs := seq(m + 1, k requires 0 <= k <= m => TreeOfFirst(b, sys, k, m));
    forall k | 0 <= k < m {
      InsertsNext(b, sys, k, m, fuel, cs[k], cs[k + 1]);
    }
    BuildsAlong(b, sys, m, fuel, cs);
  }

  lemma BuiltUnequal(b: Box, sys: Bodies)
    requires Placed(b, All(sys.Count()), sys)
    ensures BuildEnds(b, sys) && Built(b, sys) == TreeOf(b, All(sys.Count()), sys, false)
  {
    var fuel := Levels(Edge(b)) + 2;
    BuildsUnequal(b, sys, sys.Count(), fuel);
    BuiltIsUnique(b, sys, fuel);
  }
}
