/** Mass aggregation on any tree, as it comes: with coincident particles, and masses of any sign. */
module TreeMass {
  import opened Vectors
  import opened Systems
  import opened Octree
  import opened TreeShape
  import opened Insertion

  /** Mass moment and mass of the first `n` children. */
  ghost function Gathered(cs: seq<Cell>, n: nat): Term
    requires n <= |cs|
  {
    if n == 0 then NOTHING
    else if cs[n - 1].Null? then Gathered(cs, n - 1)
    else Plus(Gathered(cs, n - 1), MomentOfCell(cs[n - 1]))
  }

  ghost function MomentOfCell(c: Cell): Term
    requires c.Cell?
  {
    Term(Scale(c.centerOfMass, c.totalMass), c.totalMass)
  }

  /** Mass and centre of mass from a moment. Without mass nothing is divided. */
  ghost function CenterOfTerm(t: Term): Vec { if t.scalar > 0.0 then Div(t.vec, t.scalar) else t.vec }

  /** The tree with mass and centre of mass at every node, bottom up. */
  ghost function Weighed(c: Cell, sys: Bodies): (r: Cell)
    requires sys.Valid() && (c.Null? || Fits(c, sys))
    ensures r.Null? <==> c.Null?
    ensures r.Cell? ==> Fits(r, sys)
    decreases c
  {
    if c.Null? then Null
    else if c.numParticles == 1 then
      assert FitsBelow(c.(centerOfMass := sys.positions[c.particleIndex], totalMass := sys.masses[c.particleIndex]), sys) by {
        assert FitsBelow(c, sys);
      }
      c.(centerOfMass := sys.positions[c.particleIndex], totalMass := sys.masses[c.particleIndex])
    else
      var children := seq(8, k requires 0 <= k < 8 => Weighed(c.children[k], sys));
      var sum := Gathered(children, 8);
      c.(centerOfMass := CenterOfTerm(sum), totalMass := sum.scalar, children := children)
  }

  /** The children while masses are being propagated: those before `n` are done. */
  ghost function PartlyWeighed(c: Cell, sys: Bodies, n: nat): (r: seq<Cell>)
    requires sys.Valid() && FitsBelow(c, sys)
    ensures |r| == 8 && forall k :: 0 <= k < 8 ==> r[k] == if k < n then Weighed(c.children[k], sys) else c.children[k]
  {
    seq(8, k requires 0 <= k < 8 => if k < n then Weighed(c.children[k], sys) else c.children[k])
  }

  lemma WeighedInside(c: Cell, sys: Bodies, cs: seq<Cell>, sum: Term)
    requires sys.Valid() && c.Cell? && Fits(c, sys) && c.numParticles != 1
    requires FitsBelow(c, sys) && cs == PartlyWeighed(c, sys, 8) && sum == Gathered(cs, 8)
    ensures Weighed(c, sys) == c.(centerOfMass := CenterOfTerm(sum), totalMass := sum.scalar, children := cs)
  {
    assert Weighed(c, sys).children == cs;
  }

  // ---- aggregation changes nothing else ----

  lemma SameLeavesBelow(c: Cell, d: Cell)
    requires c.Cell? && d.Cell? && |c.children| == |d.children|
    requires forall k :: 0 <= k < |c.children| ==> Leaves(c.children[k]) == Leaves(d.children[k])
    ensures LeavesBelow(c) == LeavesBelow(d)
  {
    assert forall k, i :: 0 <= k < |c.children| ==> (i in Leaves(c.children[k]) <==> i in Leaves(d.children[k]));
  }

  lemma {:induction false} WeighedLeaves(c: Cell, sys: Bodies)
    requires sys.Valid() && (c.Null? || Fits(c, sys))
    ensures Leaves(Weighed(c, sys)) == Leaves(c)
    decreases c
  {
    if c.Cell? && c.numParticles != 1 {
      assert FitsBelow(c, sys);
      forall k | 0 <= k < 8 ensures Leaves(Weighed(c, sys).children[k]) == Leaves(c.children[k]) {
        WeighedLeaves(c.children[k], sys);
      }
      SameLeavesBelow(c, Weighed(c, sys));
    }
  }

  lemma {:induction false} WeighedCounts(c: Cell, sys: Bodies)
    requires sys.Valid() && (c.Null? || Fits(c, sys)) && Counted(c)
    ensures Counted(Weighed(c, sys))
    decreases c
  {
    if c.Cell? {
      assert FitsBelow(c, sys);
      var r := Weighed(c, sys);
      if c.numParticles == 1 {
        SameChildren(c, r);
      } else {
        WeighedLeaves(c, sys);
        forall k | 0 <= k < 8 ensures Counted(r.children[k]) && Leaves(r.children[k]) == Leaves(c.children[k]) {
          WeighedCounts(c.children[k], sys);
          WeighedLeaves(c.children[k], sys);
        }
      }
    }
  }

  // ---- every node carries the mass of its leaves ----

  /** The particles in the leaves of the first `n` children. */
  ghost function LeavesBefore(c: Cell, n: nat): set<nat>
    requires c.Cell? && n <= |c.children|
  {
    set k, i | 0 <= k < n && i in Leaves(c.children[k]) :: i
  }

  lemma LeavesBeforeNext(c: Cell, n: nat)
    requires c.Cell? && CountedBelow(c) && n < 8
    ensures LeavesBefore(c, 0) == {} && LeavesBefore(c, 8) == LeavesBelow(c)
    ensures LeavesBefore(c, n + 1) == LeavesBefore(c, n) + Leaves(c.children[n])
    ensures LeavesBefore(c, n) !! Leaves(c.children[n])
  {
  }

  /** What a node carries: the mass of the particles in `s`, and unless masses are negative their moment. */
  ghost predicate Carries(t: Term, s: set<nat>, sys: Bodies)
    requires sys.Valid()
  {
    t.scalar == MassOf(s, sys) && (NonNegativeMasses(sys) ==> t == MomentsOf(s, sys))
  }

  lemma NothingCarries(sys: Bodies)
    requires sys.Valid()
    ensures Carries(NOTHING, {}, sys)
  {
    TotalEmpty(Moments(sys), sys.Count());
  }

  lemma CarriesUnion(t: Term, s: set<nat>, u: Term, r: set<nat>, sys: Bodies)
    requires sys.Valid() && s !! r && Carries(t, s, sys) && Carries(u, r, sys)
    ensures Carries(Plus(t, u), s + r, sys)
  {
    TotalUnion(Moments(sys), s, r, sys.Count());
  }

  lemma OneMoreCarries(c: Cell, cs: seq<Cell>, n: nat, sys: Bodies)
    requires sys.Valid() && c.Cell? && CountedBelow(c) && |cs| == 8 && n < 8
    requires Carries(Gathered(cs, n), LeavesBefore(c, n), sys)
    requires if cs[n].Null? then Leaves(c.children[n]) == {} else Carries(MomentOfCell(cs[n]), Leaves(c.children[n]), sys)
    ensures Carries(Gathered(cs, n + 1), LeavesBefore(c, n + 1), sys)
  {
    LeavesBeforeNext(c, n);
    if cs[n].Cell? {
      CarriesUnion(Gathered(cs, n), LeavesBefore(c, n), MomentOfCell(cs[n]), Leaves(c.children[n]), sys);
    } else {
      assert LeavesBefore(c, n + 1) == LeavesBefore(c, n);
    }
  }

  lemma {:induction false} GatheredCarries(c: Cell, sys: Bodies, n: nat)
    requires sys.Valid() && FitsBelow(c, sys) && CountedBelow(c) && n <= 8
    ensures Carries(Gathered(PartlyWeighed(c, sys, 8), n), LeavesBefore(c, n), sys)
    decreases c, 0, n
  {
    var cs := PartlyWeighed(c, sys, 8);
    if n == 0 {
      NothingCarries(sys);
      assert LeavesBefore(c, 0) == {};
    } else {
      GatheredCarries(c, sys, n - 1);
      if cs[n - 1].Cell? {
        CellCarries(c.children[n - 1], sys);
      }
      OneMoreCarries(c, cs, n - 1, sys);
    }
  }

  lemma CenterCarries(t: Term, s: set<nat>, sys: Bodies)
    requires sys.Valid() && Carries(t, s, sys)
    ensures Carries(Term(Scale(CenterOfTerm(t), t.scalar), t.scalar), s, sys)
    ensures NonNegativeMasses(sys) ==> CenterOfTerm(t) == CenterOf(s, sys)
  {
    if NonNegativeMasses(sys) {
      MassNonNegative(s, sys);
      if t.scalar > 0.0 {
        ScaleUndoesDiv(t.vec, t.scalar);
      } else {
        ScaleByZero(t.vec, t.scalar);
      }
    }
  }

  /** Whatever the signs of the masses, every cell carries the mass of its particles. Unless masses are negative,
      it carries their moment, too. */
  lemma {:induction false} CellCarries(c: Cell, sys: Bodies)
    requires sys.Valid() && c.Cell? && Fits(c, sys) && Counted(c)
    ensures Carries(MomentOfCell(Weighed(c, sys)), Leaves(c), sys)
    ensures NonNegativeMasses(sys) && c.numParticles != 1 ==> Weighed(c, sys).centerOfMass == CenterOf(Leaves(c), sys)
    decreases c, 1
  {
    if c.numParticles == 1 {
      assert Leaves(c) == {c.particleIndex as nat};
      TotalOne(Moments(sys), c.particleIndex, sys.Count());
    } else {
      assert FitsBelow(c, sys);
      GatheredCarries(c, sys, 8);
      LeavesBeforeNext(c, 7);
      assert Weighed(c, sys).children == PartlyWeighed(c, sys, 8);
      CenterCarries(Gathered(PartlyWeighed(c, sys, 8), 8), Leaves(c), sys);
    }
  }

  /** Every node with more than one particle carries their mass and their centre of mass. */
  ghost predicate CarriesMasses(c: Cell, sys: Bodies)
    requires sys.Valid()
    decreases c
  {
    c.Cell? ==>
      && (c.numParticles != 1 ==> c.totalMass == MassOf(Leaves(c), sys) && c.centerOfMass == CenterOf(Leaves(c), sys))
      && (c.numParticles != 1 ==> forall k :: 0 <= k < |c.children| ==> CarriesMasses(c.children[k], sys))
  }

  lemma {:induction false} WeighedCarriesMasses(c: Cell, sys: Bodies)
    requires sys.Valid() && (c.Null? || Fits(c, sys)) && Counted(c) && NonNegativeMasses(sys)
    ensures CarriesMasses(Weighed(c, sys), sys)
    decreases c
  {
    if c.Cell? && c.numParticles != 1 {
      assert FitsBelow(c, sys);
      WeighedLeaves(c, sys);
      CellCarries(c, sys);
      forall k | 0 <= k < 8 ensures CarriesMasses(Weighed(c, sys).children[k], sys) {
        WeighedCarriesMasses(c.children[k], sys);
      }
    }
  }

  // ---- the reference tree ----

  /** The reference tree of a set of particles, weighed: masses are those of the octants. */
  lemma {:induction false} WeighedTree(b: Box, s: set<nat>, sys: Bodies)
    requires Placed(b, s, sys) && s != {} && NonNegativeMasses(sys)
    ensures Fits(TreeOf(b, s, sys, false), sys)
    ensures Weighed(TreeOf(b, s, sys, false), sys) == TreeOf(b, s, sys, true)
    decreases Levels(Edge(b))
  {
    var c, d := TreeOf(b, s, sys, false), TreeOf(b, s, sys, true);
    TreeFits(b, s, sys);
    TreeCounts(b, s, sys, false);
    LeavesOfTree(b, s, sys, false);
    CellCarries(c, sys);
    CountMeaning(b, s, sys, false);
    CountMeaning(b, s, sys, true);
    if |s| == 1 {
      TotalOne(Moments(sys), c.particleIndex, sys.Count());
    } else {
      TwoParticlesNeedRoom(b, s, sys);
      forall k | 0 <= k < 8 ensures d.children[k] == Weighed(c.children[k], sys) {
        ChildTree(b, s, sys, false, k);
        ChildTree(b, s, sys, true, k);
        if InOctant(b, s, sys, k) != {} {
          WeighedTree(ChildBox(b, k), InOctant(b, s, sys, k), sys);
        }
      }
      assert PartlyWeighed(c, sys, 8) == d.children;
      WeighedInside(c, sys, d.children, Gathered(d.children, 8));
    }
  }

  // ---- masses of any sign ----

  /** Whatever the signs, a cell with other than one particle divides the moments of its children by their mass if that
      is positive, and otherwise keeps them undivided. */
  lemma CenterForAnySign(c: Cell, sys: Bodies)
    requires sys.Valid() && c.Cell? && Fits(c, sys) && c.numParticles != 1
    ensures var r := Weighed(c, sys);
      && |r.children| == 8 && r.totalMass == Gathered(r.children, 8).scalar
      && Scale(r.centerOfMass, if r.totalMass > 0.0 then r.totalMass else 1.0) == Gathered(r.children, 8).vec
  {
    assert FitsBelow(c, sys);
    var cs := PartlyWeighed(c, sys, 8);
    var sum := Gathered(cs, 8);
    WeighedInside(c, sys, cs, sum);
    if sum.scalar > 0.0 {
      ScaleUndoesDiv(sum.vec, sum.scalar);
    }
  }
}
