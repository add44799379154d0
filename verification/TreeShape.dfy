/** What the reference tree says about its particles, read off the nodes alone. */
module TreeShape {
  import opened Vectors
  import opened Systems
  import opened Octree

  /** The particles found in the leaves of a tree. */
  ghost function Leaves(c: Cell): set<nat>
    decreases c, 1
  {
    if c.Null? then {}
    else if c.numParticles == 1 then if c.particleIndex >= 0 then {c.particleIndex} else {}
    else LeavesBelow(c)
  }

  /** Those in the leaves of its children. */
  ghost function LeavesBelow(c: Cell): set<nat>
    requires c.Cell?
    decreases c, 0
  {
    set k, i | 0 <= k < |c.children| && i in Leaves(c.children[k]) :: i
  }

  /** Every node says how many particles are in the leaves below it, no particle is in two of them, and a child that
      is there holds a particle. */
  ghost predicate Counted(c: Cell)
    decreases c, 1
  {
    c.Cell? ==>
      && CountedBelow(c)
      && if c.numParticles == 1 then c.particleIndex >= 0 && LeavesBelow(c) == {} else c.numParticles == |LeavesBelow(c)|
  }

  ghost predicate CountedBelow(c: Cell)
    requires c.Cell?
    decreases c, 0
  {
    && |c.children| == 8
    && (forall j, k :: 0 <= j < k < 8 ==> Leaves(c.children[j]) !! Leaves(c.children[k]))
    && (forall k :: 0 <= k < 8 ==> Counted(c.children[k]) && (c.children[k].Cell? ==> Leaves(c.children[k]) != {}))
  }

  /** No leaf lies more than `d` levels below the root of `c`. */
  ghost predicate DepthAtMost(c: Cell, d: nat)
    decreases c
  {
    c.Null? || c.numParticles <= 1 ||
    (d > 0 && forall k :: 0 <= k < |c.children| ==> DepthAtMost(c.children[k], d - 1))
  }

  /** A node is a cube that counts, encloses and weighs exactly the particles in the leaves below it. */
  ghost predicate SoundNode(c: Cell, sys: Bodies)
    requires sys.Valid() && c.Cell?
  {
    && Cube(c.box)
    && (forall i :: i in Leaves(c) ==> 0 <= i < sys.Count() && InBox(sys.positions[i], c.box))
    && c.numParticles == |Leaves(c)|
    && (c.numParticles == 1 <==> c.particleIndex != NO_PARTICLE)
    && Term(Scale(c.centerOfMass, c.totalMass), c.totalMass) == MomentsOf(Leaves(c), sys)
    && (PositiveMasses(sys) && c.numParticles > 0 ==> c.totalMass > 0.0 && InBox(c.centerOfMass, c.box))
  }

  /** Every node does, and no particle is below two children of one node. */
  ghost predicate Sound(c: Cell, sys: Bodies)
    requires sys.Valid()
    decreases c
  {
    c.Cell? ==>
      && SoundNode(c, sys)
      && (forall j, k :: 0 <= j < k < |c.children| ==> Leaves(c.children[j]) !! Leaves(c.children[k]))
      && (forall k :: 0 <= k < |c.children| ==> Sound(c.children[k], sys))
  }

  // ---- the centre of mass lies in the cell ----

  lemma QuotientBounds(w: real, m: real, lo: real, hi: real)
    requires m > 0.0 && lo * m <= w <= hi * m
    ensures lo <= w / m <= hi
  {
    var q := w / m;
    assert q * m == w;
    ProductCancels(lo, q, m);
    ProductCancels(q, hi, m);
  }

  /** A moment `w` of mass `m` with arm between `lo` and `hi`. */
  ghost predicate Between(lo: real, w: real, hi: real, m: real) { lo * m <= w <= hi * m }

  lemma BetweenParticle(lo: real, x: real, hi: real, m: real)
    requires lo <= x <= hi && m > 0.0
    ensures Between(lo, x * m, hi, m)
  {
    ProductMonotone(lo, x, m);
    ProductMonotone(x, hi, m);
  }

  lemma BetweenSum(lo: real, w: real, m: real, w': real, m': real, hi: real)
    requires Between(lo, w, hi, m) && Between(lo, w', hi, m')
    ensures Between(lo, w + w', hi, m + m')
  {
    assert lo * (m + m') == lo * m + lo * m';
    assert hi * (m + m') == hi * m + hi * m';
  }

  lemma BetweenQuotient(lo: real, w: real, hi: real, m: real)
    requires m > 0.0 && Between(lo, w, hi, m)
    ensures lo <= w / m <= hi
  {
    QuotientBounds(w, m, lo, hi);
  }

  /** The moment of a body that lies in `b`. */
  ghost predicate Bounded(b: Box, t: Term) {
    && Between(b.min.x, t.vec.x, b.max.x, t.scalar)
    && Between(b.min.y, t.vec.y, b.max.y, t.scalar)
    && Between(b.min.z, t.vec.z, b.max.z, t.scalar)
  }

  lemma ParticleBounded(b: Box, p: Vec, m: real)
    requires InBox(p, b) && m > 0.0
    ensures Bounded(b, Term(Scale(p, m), m))
  {
    BetweenParticle(b.min.x, p.x, b.max.x, m);
    BetweenParticle(b.min.y, p.y, b.max.y, m);
    BetweenParticle(b.min.z, p.z, b.max.z, m);
  }

  lemma SumBounded(b: Box, t: Term, u: Term)
    requires Bounded(b, t) && Bounded(b, u)
    ensures Bounded(b, Plus(t, u))
  {
    BetweenSum(b.min.x, t.vec.x, t.scalar, u.vec.x, u.scalar, b.max.x);
    BetweenSum(b.min.y, t.vec.y, t.scalar, u.vec.y, u.scalar, b.max.y);
    BetweenSum(b.min.z, t.vec.z, t.scalar, u.vec.z, u.scalar, b.max.z);
  }

  lemma QuotientInBox(b: Box, t: Term)
    requires Bounded(b, t) && t.scalar > 0.0
    ensures InBox(Div(t.vec, t.scalar), b)
  {
    BetweenQuotient(b.min.x, t.vec.x, b.max.x, t.scalar);
    BetweenQuotient(b.min.y, t.vec.y, b.max.y, t.scalar);
    BetweenQuotient(b.min.z, t.vec.z, b.max.z, t.scalar);
  }

  /** For positive masses the centre of mass of a cell lies in the cell. */
  lemma CenterInBox(b: Box, s: set<nat>, sys: Bodies)
    requires Placed(b, s, sys) && s != {} && PositiveMasses(sys)
    ensures MassOf(s, sys) > 0.0 && InBox(CenterOf(s, sys), b)
  {
    var p := (t: Term) => Bounded(b, t);
    forall t, u | p(t) && p(u) ensures p(Plus(t, u)) { SumBounded(b, t, u); }
    forall i | i in s && i < sys.Count() ensures p(Moments(sys)[i]) {
      ParticleBounded(b, sys.positions[i], sys.masses[i]);
    }
    TotalKeeps(p, Moments(sys), s, sys.Count());
    var i :| i in s;
    TotalAtLeast(Moments(sys), s, i, sys.Count());
    QuotientInBox(b, MomentsOf(s, sys));
  }

  // ---- every particle in exactly one leaf ----

  /** The children of a cell, as trees of their octants. */
  lemma ChildTree(b: Box, s: set<nat>, sys: Bodies, weighed: bool, k: nat)
    requires Placed(b, s, sys) && Edge(b) >= EPSILON && k < 8
    ensures Placed(ChildBox(b, k), InOctant(b, s, sys, k), sys)
    ensures ChildOf(b, s, sys, weighed, k) ==
      if InOctant(b, s, sys, k) == {} then Null
      else TreeOf(ChildBox(b, k), InOctant(b, s, sys, k), sys, weighed)
    ensures Levels(Edge(ChildBox(b, k))) < Levels(Edge(b))
  {
    PlacedInOctant(b, s, sys, k);
    ChildUsesLevel(b, k);
  }

  lemma OctantsHoldAll(c: Cell, b: Box, s: set<nat>, sys: Bodies)
    requires Placed(b, s, sys) && c.Cell? && |c.children| == 8
    requires forall k :: 0 <= k < 8 ==> Leaves(c.children[k]) == InOctant(b, s, sys, k)
    ensures LeavesBelow(c) == s
  {
    forall i | i in s ensures i in LeavesBelow(c) {
      var k := OctantIndex(sys.positions[i], Center(b));
      assert i in InOctant(b, s, sys, k);
      assert i in Leaves(c.children[k]);
    }
  }

  lemma {:induction false} LeavesOfTree(b: Box, s: set<nat>, sys: Bodies, weighed: bool)
    requires Placed(b, s, sys)
    ensures Leaves(TreeOf(b, s, sys, weighed)) == s
    decreases Levels(Edge(b))
  {
    var c := TreeOf(b, s, sys, weighed);
    CountMeaning(b, s, sys, weighed);
    if |s| >= 2 {
      TwoParticlesNeedRoom(b, s, sys);
      forall k | 0 <= k < 8
        ensures Leaves(c.children[k]) == InOctant(b, s, sys, k)
      {
        ChildTree(b, s, sys, weighed, k);
        if InOctant(b, s, sys, k) != {} {
          LeavesOfTree(ChildBox(b, k), InOctant(b, s, sys, k), sys, weighed);
        }
      }
      OctantsHoldAll(c, b, s, sys);
    } else {
      assert LeavesBelow(c) == {};
    }
  }

  lemma {:induction false} TreeCounts(b: Box, s: set<nat>, sys: Bodies, weighed: bool)
    requires Placed(b, s, sys)
    ensures Counted(TreeOf(b, s, sys, weighed))
    decreases Levels(Edge(b))
  {
    var c := TreeOf(b, s, sys, weighed);
    CountMeaning(b, s, sys, weighed);
    LeavesOfTree(b, s, sys, weighed);
    if |s| >= 2 {
      TwoParticlesNeedRoom(b, s, sys);
      forall k | 0 <= k < 8
        ensures Counted(c.children[k]) && Leaves(c.children[k]) == InOctant(b, s, sys, k)
      {
        ChildTree(b, s, sys, weighed, k);
        if InOctant(b, s, sys, k) != {} {
          TreeCounts(ChildBox(b, k), InOctant(b, s, sys, k), sys, weighed);
          LeavesOfTree(ChildBox(b, k), InOctant(b, s, sys, k), sys, weighed);
        }
      }
    } else {
      assert LeavesBelow(c) == {};
    }
  }

  /** An explicit bound on the depth of the tree: the edge is halved at every level. */
  lemma {:induction false} DepthOfTree(b: Box, s: set<nat>, sys: Bodies, weighed: bool, d: nat)
    requires Placed(b, s, sys) && Levels(Edge(b)) <= d
    ensures DepthAtMost(TreeOf(b, s, sys, weighed), d)
    decreases Levels(Edge(b))
  {
    if |s| >= 2 {
      TwoParticlesNeedRoom(b, s, sys);
      var c := TreeOf(b, s, sys, weighed);
      forall k | 0 <= k < 8
        ensures DepthAtMost(c.children[k], d - 1)
      {
        ChildTree(b, s, sys, weighed, k);
        if InOctant(b, s, sys, k) != {} {
          DepthOfTree(ChildBox(b, k), InOctant(b, s, sys, k), sys, weighed, d - 1);
        }
      }
    }
  }

  lemma NodeIsSound(b: Box, s: set<nat>, sys: Bodies, c: Cell)
    requires Placed(b, s, sys) && s != {} && NonNegativeMasses(sys) && c == TreeOf(b, s, sys, true)
    ensures SoundNode(c, sys)
  {
    LeavesOfTree(b, s, sys, true);
    CountMeaning(b, s, sys, true);
    CellMass(b, s, sys);
    if PositiveMasses(sys) {
      CenterInBox(b, s, sys);
    }
  }

  lemma {:induction false} TreeIsSound(b: Box, s: set<nat>, sys: Bodies)
    requires Placed(b, s, sys) && s != {} && NonNegativeMasses(sys)
    ensures Sound(TreeOf(b, s, sys, true), sys)
    decreases Levels(Edge(b))
  {
    NodeIsSound(b, s, sys, TreeOf(b, s, sys, true));
    if |s| >= 2 {
      TwoParticlesNeedRoom(b, s, sys);
      var c := TreeOf(b, s, sys, true);
      forall k | 0 <= k < 8
        ensures Sound(c.children[k], sys) && Leaves(c.children[k]) == InOctant(b, s, sys, k)
      {
        ChildTree(b, s, sys, true, k);
        if InOctant(b, s, sys, k) != {} {
          TreeIsSound(ChildBox(b, k), InOctant(b, s, sys, k), sys);
          LeavesOfTree(ChildBox(b, k), InOctant(b, s, sys, k), sys, true);
        }
      }
    }
  }
}
