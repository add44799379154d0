/** The pruned walk over the octree that stands in for direct summation, and what it computes. */
module TreeWalk {
  import opened Vectors
  import opened Systems
  import opened Octree
  import opened TreeShape
  import opened Gravity
  import opened Insertion
  import opened TreeMass

  /** The acceptance test edge^2 / d^2 < theta^2. At d = 0 the machine quotient is infinite or not
      a number, and the comparison is false. */
  predicate Accepts(edgeSqr: real, distSqr: real, thetaSqr: real) {
    distSqr > 0.0 && edgeSqr / distSqr < thetaSqr
  }

  /** A target particle, and the walk's parameters. */
  datatype Walker = Walker(sys: Bodies, law: Law, thetaSqr: real, target: nat) {
    ghost predicate Valid() { sys.Valid() && target < sys.Count() && law.Valid() }

    function Position(): Vec
      requires sys.Valid() && target < sys.Count()
    {
      sys.positions[target]
    }

    function Mass(): real
      requires sys.Valid() && target < sys.Count()
    {
      sys.masses[target]
    }
  }

  ghost predicate AcceptsCell(w: Walker, c: Cell)
    requires w.Valid() && c.Cell?
  {
    Accepts(EdgeSqr(c.box), Norm2(Sub(c.centerOfMass, w.Position())), w.thetaSqr)
  }

  ghost function The(s: set<nat>): (i: nat)
    requires |s| == 1
    ensures s == {i}
  {
    var i :| i in s;
    SingletonIsElement(s, i);
    i
  }

  /** The walk over a tree. */
  ghost function Walk(w: Walker, c: Cell): Term
    requires w.Valid() && (c.Null? || Fits(c, w.sys))
    decreases c, 9
  {
    if c.Null? then NOTHING
    else if c.numParticles == 1 then PairPull(w.sys, w.law, w.target, c.particleIndex)
    else if AcceptsCell(w, c) then Pull(c.totalMass, c.centerOfMass, w.Position(), w.Mass(), w.law)
    else
      assert FitsBelow(c, w.sys);
      WalkChildren(w, c, 8)
  }

  /** The walk over the first `n` children. */
  ghost function WalkChildren(w: Walker, c: Cell, n: nat): Term
    requires w.Valid() && FitsBelow(c, w.sys) && n <= 8
    decreases c, n
  {
    if n == 0 then NOTHING else Plus(WalkChildren(w, c, n - 1), Walk(w, c.children[n - 1]))
  }

  // ---- theta = 0: the walk is the direct sum ----

  lemma NeverAccepts(edgeSqr: real, distSqr: real, thetaSqr: real)
    requires edgeSqr >= 0.0 && thetaSqr <= 0.0
    ensures !Accepts(edgeSqr, distSqr, thetaSqr)
  {
  }

  lemma EdgeSqrNonNegative(b: Box)
    ensures EdgeSqr(b) >= 0.0
  {
    var p := SquareOf(Edge(b));
  }

  lemma NoChildPulls(w: Walker, c: Cell)
    requires w.Valid() && c.Cell?
    ensures PullFrom(w.sys, w.law, w.target, LeavesBefore(c, 0)) == NOTHING
  {
    assert LeavesBefore(c, 0) == {};
    TotalEmpty(Pulls(w.sys, w.law, w.target), w.sys.Count());
  }

  lemma ChildAdds(w: Walker, c: Cell, n: nat, before: Term, child: Term)
    requires w.Valid() && c.Cell? && CountedBelow(c) && 0 < n <= 8
    requires before == PullFrom(w.sys, w.law, w.target, LeavesBefore(c, n - 1))
    requires child == PullFrom(w.sys, w.law, w.target, Leaves(c.children[n - 1]))
    ensures Plus(before, child) == PullFrom(w.sys, w.law, w.target, LeavesBefore(c, n))
  {
    LeavesBeforeNext(c, n - 1);
    TotalUnion(Pulls(w.sys, w.law, w.target), LeavesBefore(c, n - 1), Leaves(c.children[n - 1]), w.sys.Count());
  }

  lemma {:induction false} ZeroThetaChildren(w: Walker, c: Cell, n: nat)
    requires w.Valid() && FitsBelow(c, w.sys) && CountedBelow(c) && w.thetaSqr <= 0.0 && n <= 8
    ensures WalkChildren(w, c, n) == PullFrom(w.sys, w.law, w.target, LeavesBefore(c, n))
    decreases c, n
  {
    if n == 0 {
      NoChildPulls(w, c);
    } else {
      ZeroThetaChildren(w, c, n - 1);
      ZeroThetaIsDirect(w, c.children[n - 1]);
      ChildAdds(w, c, n, WalkChildren(w, c, n - 1), Walk(w, c.children[n - 1]));
    }
  }

  /** With theta = 0 the walk visits every leaf and adds exactly what direct summation adds, whatever the tree
      and whatever masses its nodes carry. */
  lemma {:induction false} ZeroThetaIsDirect(w: Walker, c: Cell)
    requires w.Valid() && (c.Null? || Fits(c, w.sys)) && Counted(c) && w.thetaSqr <= 0.0
    ensures Walk(w, c) == PullFrom(w.sys, w.law, w.target, Leaves(c))
    decreases c, 9
  {
    var pulls := Pulls(w.sys, w.law, w.target);
    if c.Null? {
      TotalEmpty(pulls, w.sys.Count());
    } else if c.numParticles == 1 {
      assert Leaves(c) == {c.particleIndex as nat};
      TotalOne(pulls, c.particleIndex, w.sys.Count());
    } else {
      assert FitsBelow(c, w.sys);
      EdgeSqrNonNegative(c.box);
      NeverAccepts(EdgeSqr(c.box), Norm2(Sub(c.centerOfMass, w.Position())), w.thetaSqr);
      ZeroThetaChildren(w, c, 8);
      LeavesBeforeNext(c, 7);
    }
  }

  // ---- any theta: the walk splits the particles into groups, each felt as one body ----

  ghost function Groups(w: Walker, c: Cell): (gs: seq<set<nat>>)
    requires w.Valid() && (c.Null? || Fits(c, w.sys))
    decreases c, 9
  {
    if c.Null? then []
    else if c.numParticles == 1 || AcceptsCell(w, c) then [Leaves(c)]
    else
      assert FitsBelow(c, w.sys);
      GroupsChildren(w, c, 8)
  }

  ghost function GroupsChildren(w: Walker, c: Cell, n: nat): (gs: seq<set<nat>>)
    requires w.Valid() && FitsBelow(c, w.sys) && n <= 8
    decreases c, n
  {
    if n == 0 then [] else GroupsChildren(w, c, n - 1) + Groups(w, c.children[n - 1])
  }

  /** What a group does to the target: the pull of its total mass at its centre of mass. */
  ghost function GroupPull(w: Walker, g: set<nat>): Term
    requires w.Valid()
  {
    if g == {w.target} then NOTHING
    else if |g| == 1 && The(g) < w.sys.Count() then
      Pull(w.sys.masses[The(g)], w.sys.positions[The(g)], w.Position(), w.Mass(), w.law)
    else Pull(MassOf(g, w.sys), CenterOf(g, w.sys), w.Position(), w.Mass(), w.law)
  }

  ghost function GroupsPull(w: Walker, gs: seq<set<nat>>): Term
    requires w.Valid()
  {
    if gs == [] then NOTHING
    else Plus(GroupsPull(w, gs[..|gs| - 1]), GroupPull(w, gs[|gs| - 1]))
  }

  ghost function GroupsMass(w: Walker, gs: seq<set<nat>>): real
    requires w.Valid()
  {
    if gs == [] then 0.0
    else GroupsMass(w, gs[..|gs| - 1]) + MassOf(gs[|gs| - 1], w.sys)
  }

  /** The sets of `gs` are not empty, do not overlap, and make up `s`. */
  ghost predicate Partition(gs: seq<set<nat>>, s: set<nat>) {
    if gs == [] then s == {}
    else
      var last := gs[|gs| - 1];
      last != {} && last <= s && Partition(gs[..|gs| - 1], s - last)
  }

  lemma {:induction false} PartitionUnion(gs: seq<set<nat>>, s: set<nat>, hs: seq<set<nat>>, t: set<nat>)
    requires Partition(gs, s) && Partition(hs, t) && s !! t
    ensures Partition(gs + hs, s + t)
  {
    if hs == [] {
      assert gs + hs == gs && s + t == s;
    } else {
      var both, last := gs + hs, hs[|hs| - 1];
      PartitionUnion(gs, s, hs[..|hs| - 1], t - last);
      assert both[..|both| - 1] == gs + hs[..|hs| - 1] && both[|both| - 1] == last;
      assert s + t - last == s + (t - last);
    }
  }

  lemma PlusAssociative(a: Term, b: Term, c: Term)
    ensures Plus(Plus(a, b), c) == Plus(a, Plus(b, c))
  {
  }

  lemma {:induction false} GroupsPullConcat(w: Walker, gs: seq<set<nat>>, hs: seq<set<nat>>)
    requires w.Valid()
    ensures GroupsPull(w, gs + hs) == Plus(GroupsPull(w, gs), GroupsPull(w, hs))
  {
    if hs == [] {
      assert gs + hs == gs;
      PlusNothing(GroupsPull(w, gs));
    } else {
      var rest, last := hs[..|hs| - 1], hs[|hs| - 1];
      assert (gs + hs)[..|gs + hs| - 1] == gs + rest;
      GroupsPullConcat(w, gs, rest);
      PlusAssociative(GroupsPull(w, gs), GroupsPull(w, rest), GroupPull(w, last));
    }
  }

  lemma OneGroup(w: Walker, s: set<nat>)
    requires w.Valid() && s != {}
    ensures Partition([s], s)
    ensures GroupsPull(w, [s]) == GroupPull(w, s)
  {
    assert [s][..0] == [] && s - s == {};
    PlusNothing(GroupPull(w, s));
    assert GroupsPull(w, [s]) == Plus(NOTHING, GroupPull(w, s));
  }

  /** The groups split the particles. */
  lemma {:induction false} GroupsPartition(w: Walker, c: Cell)
    requires w.Valid() && (c.Null? || Fits(c, w.sys)) && Counted(c) && (c.Cell? ==> Leaves(c) != {})
    ensures Partition(Groups(w, c), Leaves(c))
    decreases c, 9
  {
    if c.Cell? {
      if c.numParticles == 1 || AcceptsCell(w, c) {
        OneGroup(w, Leaves(c));
      } else {
        assert FitsBelow(c, w.sys);
        GroupsChildrenPartition(w, c, 8);
        LeavesBeforeNext(c, 7);
      }
    }
  }

  lemma {:induction false} GroupsChildrenPartition(w: Walker, c: Cell, n: nat)
    requires w.Valid() && FitsBelow(c, w.sys) && CountedBelow(c) && n <= 8
    ensures Partition(GroupsChildren(w, c, n), LeavesBefore(c, n))
    decreases c, n
  {
    if n > 0 {
      GroupsChildrenPartition(w, c, n - 1);
      GroupsPartition(w, c.children[n - 1]);
      LeavesBeforeNext(c, n - 1);
      PartitionUnion(GroupsChildren(w, c, n - 1), LeavesBefore(c, n - 1),
                     Groups(w, c.children[n - 1]), Leaves(c.children[n - 1]));
    }
  }

  lemma AcceptedIsGroup(w: Walker, c: Cell)
    requires w.Valid() && c.Cell? && c.numParticles != 1 && Counted(c) && Leaves(c) != {}
    requires c.totalMass == MassOf(Leaves(c), w.sys) && c.centerOfMass == CenterOf(Leaves(c), w.sys)
    requires w.target !in Leaves(c) || |Leaves(c)| != 1
    ensures Pull(c.totalMass, c.centerOfMass, w.Position(), w.Mass(), w.law) == GroupPull(w, Leaves(c))
  {
  }

  /** The walk is the sum of what the groups do, each felt at its own centre of mass. */
  lemma {:induction false} WalkIsGroups(w: Walker, c: Cell)
    requires w.Valid() && (c.Null? || Fits(c, w.sys)) && Counted(c) && (c.Cell? ==> Leaves(c) != {})
    requires CarriesMasses(c, w.sys)
    ensures Walk(w, c) == GroupsPull(w, Groups(w, c))
    decreases c, 9
  {
    if c.Cell? {
      OneGroup(w, Leaves(c));
      if c.numParticles == 1 {
        assert Leaves(c) == {c.particleIndex as nat};
      } else if AcceptsCell(w, c) {
        AcceptedIsGroup(w, c);
      } else {
        assert FitsBelow(c, w.sys);
        WalkChildrenIsGroups(w, c, 8);
      }
    }
  }

  lemma {:induction false} WalkChildrenIsGroups(w: Walker, c: Cell, n: nat)
    requires w.Valid() && FitsBelow(c, w.sys) && CountedBelow(c) && n <= 8
    requires forall k :: 0 <= k < 8 ==> CarriesMasses(c.children[k], w.sys)
    ensures WalkChildren(w, c, n) == GroupsPull(w, GroupsChildren(w, c, n))
    decreases c, n
  {
    if n > 0 {
      WalkChildrenIsGroups(w, c, n - 1);
      WalkIsGroups(w, c.children[n - 1]);
      GroupsPullConcat(w, GroupsChildren(w, c, n - 1), Groups(w, c.children[n - 1]));
    }
  }

  /** The masses of the groups add up to the mass of the particles. */
  lemma {:induction false} PartitionMass(w: Walker, gs: seq<set<nat>>, s: set<nat>)
    requires w.Valid() && Partition(gs, s)
    ensures GroupsMass(w, gs) == MassOf(s, w.sys)
  {
    if gs == [] {
      TotalEmpty(Moments(w.sys), w.sys.Count());
    } else {
      var last := gs[|gs| - 1];
      PartitionMass(w, gs[..|gs| - 1], s - last);
      TotalUnion(Moments(w.sys), s - last, last, w.sys.Count());
      assert (s - last) + last == s;
    }
  }

  // ---- which cells are felt as one body ----

  /** Cell `d` is somewhere in the tree `c`. */
  ghost predicate Within(d: Cell, c: Cell)
    decreases c
  {
    c.Cell? && d.Cell? && (d == c || exists k :: 0 <= k < |c.children| && Within(d, c.children[k]))
  }

  /** How far the target is from the centre of mass of a cell, squared. */
  ghost function CenterDistSqr(w: Walker, d: Cell): real
    requires w.Valid() && d.Cell?
  {
    Norm2(Sub(d.centerOfMass, w.Position()))
  }

  /** The cell looks smaller than theta: its edge is less than theta times its distance. */
  ghost predicate LooksSmall(w: Walker, d: Cell)
    requires w.Valid() && d.Cell?
  {
    CenterDistSqr(w, d) > 0.0 && Edge(d.box) * Edge(d.box) < w.thetaSqr * CenterDistSqr(w, d)
  }

  /** Several particles that are felt as one are those of a cell that looks small. */
  ghost predicate IsFarCell(w: Walker, c: Cell, g: set<nat>)
    requires w.Valid()
  {
    exists d: Cell :: Within(d, c) && Leaves(d) == g && LooksSmall(w, d)
  }

  lemma QuotientBelow(e: real, d: real, t: real)
    requires d > 0.0
    ensures e / d < t <==> e < t * d
  {
    var q := e / d;
    assert q * d == e;
    if q < t {
      var p := ProductPositive(t - q, d);
    } else {
      ProductMonotone(t, q, d);
    }
  }

  lemma AcceptsSmall(w: Walker, c: Cell)
    requires w.Valid() && c.Cell?
    ensures AcceptsCell(w, c) <==> LooksSmall(w, c)
  {
    if CenterDistSqr(w, c) > 0.0 {
      QuotientBelow(EdgeSqr(c.box), CenterDistSqr(w, c), w.thetaSqr);
    }
  }

  lemma WithinChild(d: Cell, c: Cell, k: nat)
    requires c.Cell? && k < |c.children| && Within(d, c.children[k])
    ensures Within(d, c)
  {
  }

  lemma FarCellAbove(w: Walker, c: Cell, k: nat, g: set<nat>)
    requires w.Valid() && c.Cell? && k < |c.children| && IsFarCell(w, c.children[k], g)
    ensures IsFarCell(w, c, g)
  {
    var d: Cell :| Within(d, c.children[k]) && Leaves(d) == g && LooksSmall(w, d);
    WithinChild(d, c, k);
  }

  /** Every group of more than one particle is the particles of a cell whose edge is less than theta times the distance
      of its centre of mass, which is not zero. */
  lemma {:induction false} GroupsLookSmall(w: Walker, c: Cell, g: set<nat>)
    requires w.Valid() && (c.Null? || Fits(c, w.sys)) && Counted(c) && g in Groups(w, c)
    ensures |g| == 1 || IsFarCell(w, c, g)
    decreases c, 9
  {
    if c.numParticles == 1 {
      assert g == {c.particleIndex as nat};
    } else if AcceptsCell(w, c) {
      AcceptsSmall(w, c);
      assert Within(c, c);
    } else {
      assert FitsBelow(c, w.sys);
      GroupsOfChildrenLookSmall(w, c, g, 8);
    }
  }

  lemma {:induction false} GroupsOfChildrenLookSmall(w: Walker, c: Cell, g: set<nat>, n: nat)
    requires w.Valid() && FitsBelow(c, w.sys) && CountedBelow(c) && n <= 8 && g in GroupsChildren(w, c, n)
    ensures |g| == 1 || IsFarCell(w, c, g)
    decreases c, n
  {
    if g in GroupsChildren(w, c, n - 1) {
      GroupsOfChildrenLookSmall(w, c, g, n - 1);
    } else {
      GroupsLookSmall(w, c.children[n - 1], g);
      if |g| != 1 {
        FarCellAbove(w, c, n - 1, g);
      }
    }
  }

  lemma {:induction false} LeavesWithin(d: Cell, c: Cell)
    requires Within(d, c) && Counted(c)
    ensures Leaves(d) <= Leaves(c)
    decreases c
  {
    if d != c {
      var k :| 0 <= k < |c.children| && Within(d, c.children[k]);
      LeavesWithin(d, c.children[k]);
      assert Leaves(c.children[k]) <= LeavesBelow(c);
    }
  }

  lemma {:induction false} GroupsOfChild(w: Walker, c: Cell, k: nat, n: nat)
    requires w.Valid() && FitsBelow(c, w.sys) && k < n <= 8
    ensures forall g :: g in Groups(w, c.children[k]) ==> g in GroupsChildren(w, c, n)
    decreases n
  {
    if k < n - 1 {
      GroupsOfChild(w, c, k, n - 1);
    }
  }

  /** No group holds all particles of the cell: the walk has opened it. */
  ghost predicate Opened(d: Cell, gs: seq<set<nat>>) { forall g :: g in gs ==> !(Leaves(d) <= g) }

  lemma ClosedIsGroup(w: Walker, c: Cell)
    requires w.Valid() && c.Cell? && Fits(c, w.sys) && (c.numParticles == 1 || AcceptsCell(w, c))
    ensures Leaves(c) in Groups(w, c)
  {
    assert Groups(w, c) == [Leaves(c)];
  }

  /** Every cell that is opened does not look small. */
  lemma {:induction false} OpenedLooksLarge(w: Walker, c: Cell, d: Cell)
    requires w.Valid() && c.Cell? && Fits(c, w.sys) && Counted(c)
    requires Within(d, c) && Opened(d, Groups(w, c))
    ensures !LooksSmall(w, d)
    decreases c
  {
    LeavesWithin(d, c);
    if c.numParticles == 1 || AcceptsCell(w, c) {
      ClosedIsGroup(w, c);
      assert false;
    }
    AcceptsSmall(w, c);
    if d != c {
      assert FitsBelow(c, w.sys);
      var k :| 0 <= k < |c.children| && Within(d, c.children[k]);
      GroupsOfChild(w, c, k, 8);
      OpenedLooksLarge(w, c.children[k], d);
    }
  }

  /** Each of the first groups lies in one of the second. */
  ghost predicate Finer(fine: seq<set<nat>>, coarse: seq<set<nat>>) {
    forall g :: g in fine ==> exists h :: h in coarse && g <= h
  }

  lemma LargerThetaAccepts(w: Walker, c: Cell, thetaSqr: real)
    requires w.Valid() && c.Cell? && w.thetaSqr <= thetaSqr && AcceptsCell(w, c)
    ensures AcceptsCell(w.(thetaSqr := thetaSqr), c)
  {
  }

  /** A larger theta gives a coarser split. */
  lemma {:induction false} LargerThetaIsCoarser(w: Walker, c: Cell, thetaSqr: real)
    requires w.Valid() && (c.Null? || Fits(c, w.sys)) && Counted(c) && (c.Cell? ==> Leaves(c) != {})
    requires w.thetaSqr <= thetaSqr
    ensures Finer(Groups(w, c), Groups(w.(thetaSqr := thetaSqr), c))
    decreases c, 9
  {
    var v := w.(thetaSqr := thetaSqr);
    if c.Cell? {
      if c.numParticles == 1 || AcceptsCell(v, c) {
        GroupsPartition(w, c);
        PartsWithin(Groups(w, c), Leaves(c));
        assert Leaves(c) in Groups(v, c);
      } else {
        if AcceptsCell(w, c) {
          LargerThetaAccepts(w, c, thetaSqr);
        }
        assert FitsBelow(c, w.sys);
        LargerThetaIsCoarserBelow(w, c, thetaSqr, 8);
      }
    }
  }

  lemma {:induction false} PartsWithin(gs: seq<set<nat>>, s: set<nat>)
    requires Partition(gs, s)
    ensures forall g :: g in gs ==> g <= s
  {
    if gs != [] {
      PartsWithin(gs[..|gs| - 1], s - gs[|gs| - 1]);
      assert gs == gs[..|gs| - 1] + [gs[|gs| - 1]];
    }
  }

  lemma FinerTogether(a: seq<set<nat>>, b: seq<set<nat>>, c: seq<set<nat>>, d: seq<set<nat>>)
    requires Finer(a, c) && Finer(b, d)
    ensures Finer(a + b, c + d)
  {
    forall g | g in a + b ensures exists h :: h in c + d && g <= h {
      if g in a {
        var h :| h in c && g <= h;
        assert h in c + d;
      } else {
        var h :| h in d && g <= h;
        assert h in c + d;
      }
    }
  }

  lemma {:induction false} LargerThetaIsCoarserBelow(w: Walker, c: Cell, thetaSqr: real, n: nat)
    requires w.Valid() && FitsBelow(c, w.sys) && CountedBelow(c) && n <= 8 && w.thetaSqr <= thetaSqr
    ensures Finer(GroupsChildren(w, c, n), GroupsChildren(w.(thetaSqr := thetaSqr), c, n))
    decreases c, n
  {
    if n > 0 {
      var v := w.(thetaSqr := thetaSqr);
      LargerThetaIsCoarserBelow(w, c, thetaSqr, n - 1);
      LargerThetaIsCoarser(w, c.children[n - 1], thetaSqr);
      FinerTogether(GroupsChildren(w, c, n - 1), Groups(w, c.children[n - 1]),
                    GroupsChildren(v, c, n - 1), Groups(v, c.children[n - 1]));
    }
  }

  // ---- small theta: a cell is never accepted for a particle inside it ----

  /** Two points of a cube are no further apart than its diagonal. */
  lemma WithinDiagonal(b: Box, p: Vec, q: Vec)
    requires Cube(b) && InBox(p, b) && InBox(q, b)
    ensures Norm2(Sub(p, q)) <= 3.0 * EdgeSqr(b)
  {
    var e := Edge(b);
    SquareWithin(p.x - q.x, e);
    SquareWithin(p.y - q.y, e);
    SquareWithin(p.z - q.z, e);
  }

  lemma SquareWithin(a: real, e: real)
    requires -e <= a <= e
    ensures a * a <= e * e
  {
    ProductNonNegative(e - a, e + a);
    assert (e - a) * (e + a) == e * e - a * a;
  }

  lemma CloseIsNotAccepted(edgeSqr: real, distSqr: real, thetaSqr: real)
    requires distSqr <= 3.0 * edgeSqr && 3.0 * thetaSqr <= 1.0
    ensures !Accepts(edgeSqr, distSqr, thetaSqr)
  {
    if distSqr > 0.0 {
      var q := edgeSqr / distSqr;
      assert q * distSqr == edgeSqr;
      ProductMonotone(3.0 * thetaSqr, 1.0, distSqr);
      ProductCancels(thetaSqr, q, distSqr);
    }
  }

  /** For positive masses and theta^2 <= 1/3, a cell that holds the target is opened, if it encloses it. */
  lemma OwnCellIsOpened(w: Walker, c: Cell)
    requires w.Valid() && c.Cell? && SoundNode(c, w.sys) && w.target in Leaves(c)
    requires PositiveMasses(w.sys) && 3.0 * w.thetaSqr <= 1.0
    ensures !AcceptsCell(w, c)
  {
    assert |Leaves(c) - {w.target}| >= 0;
    WithinDiagonal(c.box, c.centerOfMass, w.Position());
    CloseIsNotAccepted(EdgeSqr(c.box), Norm2(Sub(c.centerOfMass, w.Position())), w.thetaSqr);
  }

  /** The target is felt by itself only, and its leaf exerts no force on it. */
  lemma {:induction false} TargetIsAlone(w: Walker, c: Cell)
    requires w.Valid() && (c.Null? || Fits(c, w.sys)) && Sound(c, w.sys)
    requires PositiveMasses(w.sys) && 3.0 * w.thetaSqr <= 1.0
    ensures forall g :: g in Groups(w, c) && w.target in g ==> g == {w.target}
    decreases c, 9
  {
    if c.Cell? {
      if c.numParticles == 1 || AcceptsCell(w, c) {
        if w.target in Leaves(c) {
          OwnCellIsOpened(w, c);
          assert Leaves(c) == {w.target};
        }
      } else {
        assert FitsBelow(c, w.sys);
        TargetIsAloneChildren(w, c, 8);
      }
    }
  }

  lemma {:induction false} TargetIsAloneChildren(w: Walker, c: Cell, n: nat)
    requires w.Valid() && FitsBelow(c, w.sys) && n <= 8
    requires forall k :: 0 <= k < 8 ==> Sound(c.children[k], w.sys)
    requires PositiveMasses(w.sys) && 3.0 * w.thetaSqr <= 1.0
    ensures forall g :: g in GroupsChildren(w, c, n) && w.target in g ==> g == {w.target}
    decreases c, n
  {
    if n > 0 {
      TargetIsAloneChildren(w, c, n - 1);
      TargetIsAlone(w, c.children[n - 1]);
    }
  }

  /** The groups that act on the target: all but its own leaf. */
  ghost function ActingMass(w: Walker, gs: seq<set<nat>>): real
    requires w.Valid()
  {
    if gs == [] then 0.0
    else
      var last := gs[|gs| - 1];
      ActingMass(w, gs[..|gs| - 1]) + if last == {w.target} then 0.0 else MassOf(last, w.sys)
  }

  lemma {:induction false} ActingMassOfPartition(w: Walker, gs: seq<set<nat>>, s: set<nat>)
    requires w.Valid() && Partition(gs, s)
    requires forall g :: g in gs && w.target in g ==> g == {w.target}
    ensures ActingMass(w, gs) == MassOf(s, w.sys) - if w.target in s then w.Mass() else 0.0
  {
    if gs == [] {
      TotalEmpty(Moments(w.sys), w.sys.Count());
    } else {
      var last := gs[|gs| - 1];
      ActingMassOfPartition(w, gs[..|gs| - 1], s - last);
      TotalUnion(Moments(w.sys), s - last, last, w.sys.Count());
      assert (s - last) + last == s;
      TotalOne(Moments(w.sys), w.target, w.sys.Count());
    }
  }

  /** What the target feels of the particles `s` are groups that split them, none of which holds it but its own leaf,
      and the mass that acts on it is their mass less its own. */
  ghost predicate FeelsOthers(w: Walker, c: Cell, s: set<nat>)
    requires w.Valid() && (c.Null? || Fits(c, w.sys))
  {
    var gs := Groups(w, c);
    && Partition(gs, s)
    && (forall g :: g in gs && w.target in g ==> g == {w.target})
    && Walk(w, c) == GroupsPull(w, gs)
    && ActingMass(w, gs) == MassOf(s, w.sys) - w.Mass()
  }

  /** For positive masses and theta^2 <= 1/3, in a sound tree. */
  lemma SmallThetaFeels(w: Walker, c: Cell)
    requires w.Valid() && c.Cell? && Fits(c, w.sys) && Counted(c) && CarriesMasses(c, w.sys) && Sound(c, w.sys)
    requires w.target in Leaves(c) && PositiveMasses(w.sys) && 3.0 * w.thetaSqr <= 1.0
    ensures FeelsOthers(w, c, Leaves(c))
  {
    GroupsPartition(w, c);
    TargetIsAlone(w, c);
    WalkIsGroups(w, c);
    ActingMassOfPartition(w, Groups(w, c), Leaves(c));
  }

  /** No other particle is without softened distance from the target. */
  ghost predicate TargetApart(w: Walker)
    requires w.Valid()
  {
    forall j :: 0 <= j < w.sys.Count() && j != w.target ==> DistSqr(w.sys.positions[j], w.Position(), w.law) > 0.0
  }
}
