/** The Barnes-Hut tree as it is built and updated in place. */
module BarnesHut {
  import opened Vectors
  import opened Systems
  import opened Octree
  import opened Options
  import opened Insertion
  import opened TreeMass
  import opened Gravity
  import opened TreeWalk
  import opened TreeField

  class BarnesHutNode {
    var maxPoint: Vec
    var minPoint: Vec
    var edgeLengthSqr: real
    var centerOfMass: Vec
    var totalMass: real
    var numParticles: int
    var children: seq<BarnesHutNode?>
    var particleIndex: int

    /** The tree below this node as a value, and the nodes it is made of. */
    ghost var Tree: Cell
    ghost var Repr: set<BarnesHutNode>

    /** The tree carries what the fields of this node say. */
    ghost predicate Labelled()
      reads this
    {
      && Tree.Cell? && |Tree.children| == 8
      && Tree.box == Box(maxPoint, minPoint)
      && edgeLengthSqr == EdgeSqr(Tree.box)
      && Tree.centerOfMass == centerOfMass
      && Tree.totalMass == totalMass
      && Tree.numParticles == numParticles
      && Tree.particleIndex == particleIndex
    }

    ghost predicate Valid()
      reads this, Repr
      ensures Valid() ==> this in Repr
      decreases Repr
    {
      && this in Repr
      && |children| == 8
      && (forall k :: 0 <= k < 8 && children[k] != null ==>
        children[k] in Repr && children[k].Repr <= Repr - {this} && children[k].Valid())
      && (forall j, k :: 0 <= j < k < 8 && children[j] != null && children[k] != null ==>
        children[j].Repr !! children[k].Repr)
      && Labelled()
      && (forall k :: 0 <= k < 8 ==>
        Tree.children[k] == if children[k] == null then Null else children[k].Tree)
    }

    /** The same, except for child `k`. */
    ghost predicate ValidBut(k: nat)
      reads this, Repr
    {
      && this in Repr && k < |children| == 8
      && (forall j :: 0 <= j < 8 && j != k && children[j] != null ==>
        children[j] in Repr && children[j].Repr <= Repr - {this} && children[j].Valid())
      && (forall i, j :: 0 <= i < j < 8 && i != k && j != k && children[i] != null && children[j] != null ==>
        children[i].Repr !! children[j].Repr)
      && Labelled()
      && (forall j :: 0 <= j < 8 && j != k ==>
        Tree.children[j] == if children[j] == null then Null else children[j].Tree)
    }

    /** Records child `k`, new or changed. */
    ghost method Record(k: nat)
      requires ValidBut(k) && children[k] != null && children[k].Valid() && this !in children[k].Repr
      requires forall j :: 0 <= j < 8 && j != k && children[j] != null ==> children[j].Repr !! children[k].Repr
      modifies `Tree, `Repr
      ensures Valid() && Repr == old(Repr) + children[k].Repr
      ensures Tree == old(Tree).(children := old(Tree).children[k := children[k].Tree])
    {
      Repr := Repr + children[k].Repr;
      Tree := Tree.(children := Tree.children[k := children[k].Tree]);
    }

    constructor (max: Vec, min: Vec)
      ensures Valid() && fresh(Repr)
      ensures Tree == EmptyCell(Box(max, min))
    {
      maxPoint, minPoint := max, min;
      var extent := Sub(max, min);
      var maxEdge := Max(Max(extent.x, extent.y), extent.z);
      edgeLengthSqr := maxEdge * maxEdge;
      centerOfMass, totalMass, numParticles := ZERO, 0.0, 0;
      children := [null, null, null, null, null, null, null, null];
      particleIndex := NO_PARTICLE;
      Tree := EmptyCell(Box(max, min));
      Repr := {this};
    }

    method SetOccupant(index: int, count: int)
      requires Valid()
      modifies `particleIndex, `numParticles, `Tree
      ensures Valid() && Tree == old(Tree).(particleIndex := index, numParticles := count)
    {
      particleIndex, numParticles := index, count;
      Tree := Tree.(particleIndex := index, numParticles := count);
    }

    /** Creates the child in octant `k` if it is missing. */
    method CreateChild(k: nat)
      requires Valid() && k < 8
      modifies this
      ensures Valid() && fresh(Repr - old(Repr))
      ensures children[k] != null && children[k].Tree == Tree.children[k]
      ensures Tree == old(Tree).(children := old(Tree).children[k :=
        if old(Tree).children[k] == Null then EmptyCell(ChildBox(old(Tree).box, k)) else old(Tree).children[k]])
    {
      if children[k] == null {
        var box := ChildBox(Box(maxPoint, minPoint), k);
        var child := new BarnesHutNode(box.max, box.min);
        children := children[k := child];
        Record(k);
      }
    }

    /** Changes confined to the nodes of child `k` leave its siblings as they were. */
    twostate lemma SiblingsUntouched(k: nat)
      requires old(Valid()) && k < 8 && old(children[k]) != null
      requires unchanged(this)
      requires forall o: BarnesHutNode :: o in old(Repr) && o !in old(children[k].Repr) ==> unchanged(o)
      ensures forall j :: 0 <= j < 8 && j != k && children[j] != null ==> unchanged(children[j]) && children[j].Valid()
    {
      forall j | 0 <= j < 8 && j != k && children[j] != null
        ensures unchanged(children[j]) && children[j].Valid()
      {
        var c := children[j];
        assert old(c.Repr !! children[k].Repr);
        assert c in old(c.Repr);
        assert forall o :: o in c.Repr ==> unchanged(o);
        assert old(c.Valid());
      }
    }

    /** Descends into an existing child. */
    method InsertIntoChild(k: nat, i: nat, sys: Bodies, ghost fuel: nat)
      requires Valid() && k < 8 && children[k] != null && i < sys.Count()
      requires Fits(children[k].Tree, sys) && Insert(children[k].Tree, i, sys.positions[i], sys, fuel).Some?
      modifies Repr
      ensures Valid() && fresh(Repr - old(Repr))
      ensures Tree == old(Tree).(children := old(Tree).children[k :=
        Insert(old(children[k].Tree), i, sys.positions[i], sys, fuel).value])
      decreases fuel, 4
    {
      var child := children[k];
      child.InsertRecursive(i, sys, fuel);
      SiblingsUntouched(k);
      Record(k);
    }

    /** Puts particle `i` into octant `k`, creating the child if it is missing. */
    method CreateAndInsertIntoChild(k: nat, i: nat, sys: Bodies, ghost fuel: nat)
      requires Valid() && k < 8 && i < sys.Count() && fuel > 0 && FitsBelow(Tree, sys)
      requires Descend(Tree, k, i, sys, fuel).Some?
      modifies Repr
      ensures Valid() && fresh(Repr - old(Repr))
      ensures Some(Tree) == Descend(old(Tree), k, i, sys, fuel)
      decreases fuel, 0
    {
      ghost var c := Tree;
      CreateChild(k);
      ghost var child := children[k].Tree;
      InsertIntoChild(k, i, sys, fuel - 1);
      DescendsInto(c, k, i, sys, fuel, child, Insert(child, i, sys.positions[i], sys, fuel - 1).value, Tree.children);
    }

    /** Moves the particle of a leaf down into a child. */
    method Subdivide(sys: Bodies, ghost fuel: nat)
      requires Valid() && fuel > 0 && Fits(Tree, sys) && numParticles == 1
      requires Descend(Tree, OctantIndex(sys.positions[particleIndex], Center(Tree.box)), particleIndex, sys, fuel).Some?
      modifies Repr
      ensures Valid() && fresh(Repr - old(Repr))
      ensures Tree == Descend(old(Tree), OctantIndex(sys.positions[old(particleIndex)], Center(old(Tree).box)),
                              old(particleIndex), sys, fuel).value.(particleIndex := NO_PARTICLE)
      decreases fuel, 1
    {
      var center := Center(Box(maxPoint, minPoint));
      var oldIndex := OctantIndex(sys.positions[particleIndex], center);
      CreateAndInsertIntoChild(oldIndex, particleIndex, sys, fuel);
      SetOccupant(NO_PARTICLE, numParticles);
    }

    /** Puts particle `i`, taken to be at `pos`, into its octant, and counts it. */
    method InsertBelow(i: nat, pos: Vec, sys: Bodies, ghost fuel: nat)
      requires Valid() && fuel > 0 && i < sys.Count() && FitsBelow(Tree, sys) && numParticles != 0
      requires Insertion.InsertBelow(Tree, i, pos, sys, fuel).Some?
      modifies Repr
      ensures Valid() && fresh(Repr - old(Repr))
      ensures Some(Tree) == Insertion.InsertBelow(old(Tree), i, pos, sys, fuel)
      decreases fuel, 1
    {
      var center := Center(Box(maxPoint, minPoint));
      var newIndex := OctantIndex(pos, center);
      CreateAndInsertIntoChild(newIndex, i, sys, fuel);
      SetOccupant(particleIndex, numParticles + 1);
    }

    /** Inserts particle `i`, taken to be at `pos`, below this node, where that ends within `fuel` calls. */
    method InsertRecursiveAt(i: nat, pos: Vec, sys: Bodies, ghost fuel: nat)
      requires Valid() && i < sys.Count() && Fits(Tree, sys) && Insert(Tree, i, pos, sys, fuel).Some?
      modifies Repr
      ensures Valid() && fresh(Repr - old(Repr))
      ensures Some(Tree) == Insert(old(Tree), i, pos, sys, fuel)
      decreases fuel, 2
    {
      if numParticles == 0 {
        SetOccupant(i, 1);
        return;
      }
      if numParticles == 1 {
        if NearlyEqual(sys.positions[particleIndex], pos) {
          InsertRecursiveAt(i, Shifted(pos, i % 3, Perturbation(Box(maxPoint, minPoint))), sys, fuel - 1);
          return;
        }
        Subdivide(sys, fuel);
      }
      InsertBelow(i, pos, sys, fuel);
    }

    /** Inserts particle `i` from its own position. */
    method InsertRecursive(i: nat, sys: Bodies, ghost fuel: nat)
      requires Valid() && i < sys.Count() && Fits(Tree, sys) && Insert(Tree, i, sys.positions[i], sys, fuel).Some?
      modifies Repr
      ensures Valid() && fresh(Repr - old(Repr))
      ensures Some(Tree) == Insert(old(Tree), i, sys.positions[i], sys, fuel)
      decreases fuel, 3
    {
      InsertRecursiveAt(i, sys.positions[i], sys, fuel);
    }

    method SetMass(center: Vec, mass: real)
      requires Valid()
      modifies `centerOfMass, `totalMass, `Tree
      ensures Valid() && Tree == old(Tree).(centerOfMass := center, totalMass := mass)
    {
      centerOfMass, totalMass := center, mass;
      Tree := Tree.(centerOfMass := center, totalMass := mass);
    }

    /** Propagates the masses of child `k`. */
    method UpdateChildMass(k: nat, sys: Bodies)
      requires Valid() && k < 8 && children[k] != null && sys.Valid() && Fits(children[k].Tree, sys)
      modifies Repr
      ensures Valid() && Repr == old(Repr) && children == old(children)
      ensures Tree == old(Tree).(children := old(Tree).children[k := Weighed(old(children[k].Tree), sys)])
      ensures children[k] != null && children[k].Tree == Tree.children[k] && children[k].Valid()
      decreases Repr, 0
    {
      var child := children[k];
      child.UpdateMassRecursive(sys);
      SiblingsUntouched(k);
      Record(k);
    }

    /** One round of the loop over the children: propagates the masses of child `k` and adds its mass and moment. */
    method AddChildMass(k: nat, sys: Bodies)
      requires Valid() && k < 8 && children[k] != null && sys.Valid() && Fits(children[k].Tree, sys)
      modifies Repr
      ensures Valid() && Repr == old(Repr)
      ensures var child := Weighed(old(children[k].Tree), sys);
        Tree == old(Tree).(children := old(Tree).children[k := child],
          centerOfMass := Plus(Term(old(Tree).centerOfMass, old(Tree).totalMass), MomentOfCell(child)).vec,
          totalMass := Plus(Term(old(Tree).centerOfMass, old(Tree).totalMass), MomentOfCell(child)).scalar)
      decreases Repr, 1
    {
      UpdateChildMass(k, sys);
      var child := children[k];
      SetMass(Add(centerOfMass, Scale(child.centerOfMass, child.totalMass)), totalMass + child.totalMass);
    }

    /** Sums mass and moment over the children, after propagating theirs. */
    method SumChildren(sys: Bodies)
      requires Valid() && sys.Valid() && FitsBelow(Tree, sys) && totalMass == 0.0 && centerOfMass == ZERO
      modifies Repr
      ensures Valid() && Repr == old(Repr)
      ensures var cs := PartlyWeighed(old(Tree), sys, 8);
        Tree == old(Tree).(centerOfMass := Gathered(cs, 8).vec, totalMass := Gathered(cs, 8).scalar, children := cs)
      decreases Repr, 2
    {
      ghost var c := Tree;
      ghost var cs := PartlyWeighed(c, sys, 8);
      assert Tree.children == PartlyWeighed(c, sys, 0);
      for k := 0 to 8
        invariant Valid() && Repr == old(Repr)
        invariant Tree == c.(centerOfMass := Gathered(cs, k).vec, totalMass := Gathered(cs, k).scalar,
          children := PartlyWeighed(c, sys, k))
      {
        if children[k] != null {
          AddChildMass(k, sys);
        }
        assert PartlyWeighed(c, sys, k + 1) == PartlyWeighed(c, sys, k)[k := cs[k]];
      }
    }

    /** Computes mass and centre of mass of every cell, bottom up. */
    method UpdateMassRecursive(sys: Bodies)
      requires Valid() && sys.Valid() && Fits(Tree, sys)
      modifies Repr
      ensures Valid() && Repr == old(Repr)
      ensures Tree == Weighed(old(Tree), sys)
      decreases Repr, 3
    {
      if numParticles == 1 {
        SetMass(sys.positions[particleIndex], sys.masses[particleIndex]);
        return;
      }
      ghost var c := Tree;
      assert FitsBelow(c, sys);
      SetMass(ZERO, 0.0);
      SumChildren(sys);
      WeighedInside(c, sys, Tree.children, Gathered(Tree.children, 8));
      if totalMass > 0.0 {
        SetMass(Div(centerOfMass, totalMass), totalMass);
      }
    }

    /** Adds the pull on the walker's target to `potential` and returns its acceleration. */
    method SumForcesRecursive(w: Walker, potential: real) returns (acc: Vec, potential': real)
      requires Valid() && w.Valid() && TargetApart(w) && Fits(Tree, w.sys)
      ensures acc == Walk(w, Tree).vec && potential' == potential + Walk(w, Tree).scalar
      decreases Repr
    {
      var sys := w.sys;
      if numParticles == 1 {
        if particleIndex != w.target {
          acc, potential' := PullOn(w, sys.masses[particleIndex], sys.positions[particleIndex], potential);
        } else {
          acc, potential' := ZERO, potential;
        }
        return;
      }
      var dSqr := Norm2(Sub(centerOfMass, w.Position()));
      if Accepts(edgeLengthSqr, dSqr, w.thetaSqr) {
        acc, potential' := PullOn(w, totalMass, centerOfMass, potential);
        return;
      }
      assert FitsBelow(Tree, sys);
      acc, potential' := ZERO, potential;
      for k := 0 to 8
        invariant acc == WalkChildren(w, Tree, k).vec
        invariant potential' == potential + WalkChildren(w, Tree, k).scalar
      {
        if children[k] != null {
          var pull;
          pull, potential' := children[k].SumForcesRecursive(w, potential');
          acc := Add(acc, pull);
        } else {
          PlusNothing(WalkChildren(w, Tree, k));
        }
      }
    }
  }

  /** The pull of mass `m` at `p`, added to `potential`. */
  method PullOn(w: Walker, m: real, p: Vec, potential: real) returns (acc: Vec, potential': real)
    requires w.Valid() && DistSqr(p, w.Position(), w.law) > 0.0
    ensures acc == Pull(m, p, w.Position(), w.Mass(), w.law).vec
    ensures potential' == potential + Pull(m, p, w.Position(), w.Mass(), w.law).scalar
  {
    var r := Sub(p, w.Position());
    var distSqr := Norm2(r) + w.law.softeningSqr;
    var distInv := w.law.inv(distSqr);
    PullInWalkForm(r, m, w.Mass(), distInv, distSqr);
    potential' := potential - m * w.Mass() * distInv;
    acc := Scale(r, m * distInv / distSqr);
  }

  class BarnesHutTree {
    var root: BarnesHutNode?

    ghost predicate Valid()
      reads this, root, if root != null then root.Repr else {}
    {
      root != null ==> root.Valid()
    }

    /** This tree is the one that building and weighing give for `sys`. */
    ghost predicate Represents(sys: Bodies)
      requires Buildable(sys)
      reads this, root, if root != null then root.Repr else {}
    {
      if sys.Count() == 0 then root == null else root != null && root.Valid() && root.Tree == FieldTree(sys)
    }

    constructor ()
      ensures Valid() && root != null && fresh(root) && fresh(root.Repr)
    {
      root := new BarnesHutNode(ZERO, ZERO);
    }

    /** The root cell of a system that is not empty. */
    static method RootCell(sys: Bodies) returns (box: Box)
      requires sys.Count() > 0
      ensures box == RootBox(sys)
    {
      var maxP, minP := sys.positions[0], sys.positions[0];
      for i := 1 to sys.Count()
        invariant maxP == Highest(sys.positions, i) && minP == Lowest(sys.positions, i)
      {
        var pos := sys.positions[i];
        maxP := Vec(Max(pos.x, maxP.x), Max(pos.y, maxP.y), Max(pos.z, maxP.z));
        minP := Vec(Min(pos.x, minP.x), Min(pos.y, minP.y), Min(pos.z, minP.z));
      }
      box := PaddedCube(maxP, minP);
    }

    /** The unweighed tree of the whole system on cube `box`, where building it ends. */
    static method InsertAll(sys: Bodies, box: Box, ghost fuel: nat) returns (node: BarnesHutNode)
      requires BuildUpTo(box, sys, sys.Count(), fuel).Some?
      ensures fresh(node) && node.Valid() && fresh(node.Repr)
      ensures Some(node.Tree) == BuildUpTo(box, sys, sys.Count(), fuel)
    {
      node := new BarnesHutNode(box.max, box.min);
      for i := 0 to sys.Count()
        invariant fresh(node) && node.Valid() && fresh(node.Repr)
        invariant Some(node.Tree) == BuildUpTo(box, sys, i, fuel)
      {
        BuildEndsBefore(box, sys, i + 1, sys.Count(), fuel);
        node.InsertRecursive(i, sys, fuel);
      }
    }

    method Build(sys: Bodies)
      requires Buildable(sys)
      modifies this
      ensures Represents(sys)
      ensures root != null ==> fresh(root) && fresh(root.Repr)
    {
      if sys.Count() == 0 {
        root := null;
        return;
      }
      var box := RootCell(sys);
      ghost var fuel: nat :| BuildUpTo(box, sys, sys.Count(), fuel).Some?;
      BuiltIsUnique(box, sys, fuel);
      var node := InsertAll(sys, box, fuel);
      node.UpdateMassRecursive(sys);
      root := node;
    }

    /** The acceleration of every particle, and the potential energy of the system. */
    method UpdateForces(sys: Bodies, law: Law, thetaSqr: real) returns (acc: seq<Vec>, potential: real)
      requires Buildable(sys) && Represents(sys) && law.Valid() && AllApart(sys, law)
      ensures |acc| == sys.Count()
      ensures forall i :: 0 <= i < sys.Count() ==> acc[i] == TreePull(sys, law, thetaSqr, i).vec
      ensures potential == TreeEnergy(sys, law, thetaSqr, sys.Count()) * 0.5
    {
      acc := seq(sys.Count(), _ => ZERO);
      potential := 0.0;
      if root == null || sys.Count() == 0 {
        return;
      }
      for i := 0 to sys.Count()
        invariant |acc| == sys.Count()
        invariant potential == TreeEnergy(sys, law, thetaSqr, i)
        invariant forall j :: 0 <= j < i ==> acc[j] == TreePull(sys, law, thetaSqr, j).vec
      {
        var pull, energy := root.SumForcesRecursive(Walker(sys, law, thetaSqr, i), 0.0);
        acc := acc[i := pull];
        potential := potential + energy;
      }
      potential := potential * 0.5;
    }
  }
}
