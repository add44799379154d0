/** The tree field of a whole system against direct summation. */
module TreeAgainstDirect {
  import opened Vectors
  import opened Systems
  import opened Octree
  import opened TreeShape
  import opened Gravity
  import opened Insertion
  import opened TreeMass
  import opened PairForces
  import opened TreeWalk
  import opened TreeField

  /** Whatever the positions, when building ends: the tree holds every particle in exactly one leaf. */
  lemma FieldTreeHoldsAll(sys: Bodies)
    requires Buildable(sys) && sys.Count() > 0
    ensures Counted(FieldTree(sys)) && Leaves(FieldTree(sys)) == All(sys.Count()) != {}
  {
    var c := Built(RootBox(sys), sys);
    BuiltCounts(RootBox(sys), sys);
    WeighedLeaves(c, sys);
    WeighedCounts(c, sys);
    assert 0 in All(sys.Count());
  }

  /** Its root carries the total mass, whatever the signs; unless masses are negative, the total moment, too,
      and every node its particles' mass and centre of mass. */
  lemma FieldTreeWeighsAll(sys: Bodies)
    requires Buildable(sys) && sys.Count() > 0
    ensures FieldTree(sys).totalMass == MassOf(All(sys.Count()), sys)
    ensures NonNegativeMasses(sys) ==>
      && Scale(FieldTree(sys).centerOfMass, FieldTree(sys).totalMass) == MomentOf(All(sys.Count()), sys)
      && CarriesMasses(FieldTree(sys), sys)
  {
    var c := Built(RootBox(sys), sys);
    BuiltCounts(RootBox(sys), sys);
    CellCarries(c, sys);
    if NonNegativeMasses(sys) {
      WeighedCarriesMasses(c, sys);
    }
  }

  /** Without coincident particles the tree is sound at every node, too, and no deeper than the root edge allows. */
  lemma RootTreeIsSound(sys: Bodies)
    requires sys.Valid() && sys.Count() > 0 && AllUnequal(sys) && NonNegativeMasses(sys)
    ensures Buildable(sys) && Sound(FieldTree(sys), sys)
    ensures DepthAtMost(FieldTree(sys), Levels(Edge(RootBox(sys))))
  {
    var s := All(sys.Count());
    UnequalIsBuildable(sys);
    assert 0 in s;
    TreeIsSound(RootBox(sys), s, sys);
    DepthOfTree(RootBox(sys), s, sys, true, Levels(Edge(RootBox(sys))));
  }

  /** With theta = 0 every particle gets exactly the acceleration of direct summation. */
  lemma ZeroThetaPull(sys: Bodies, law: Law, thetaSqr: real, i: nat)
    requires Buildable(sys) && law.Valid() && i < sys.Count() && thetaSqr <= 0.0
    ensures TreePull(sys, law, thetaSqr, i) == DirectPull(sys, law, i)
  {
    FieldTreeHoldsAll(sys);
    ZeroThetaIsDirect(Walker(sys, law, thetaSqr, i), FieldTree(sys));
  }

  /** Partial sums of the scalars of terms. */
  lemma {:induction false} ScalarsAdd(sums: seq<real>, terms: seq<Term>, n: nat)
    requires n <= |terms| < |sums| && sums[0] == 0.0
    requires forall k :: 0 <= k < |terms| ==> sums[k + 1] == sums[k] + terms[k].scalar
    ensures sums[n] == Total(terms, All(|terms|), n).scalar
  {
    if n > 0 {
      ScalarsAdd(sums, terms, n - 1);
      assert n - 1 in All(|terms|);
      assert sums[n - 1 + 1] == sums[n - 1] + terms[n - 1].scalar;
    }
  }

  lemma {:induction false} OneMoreEnergy(sys: Bodies, law: Law, thetaSqr: real, n: nat)
    requires Buildable(sys) && law.Valid() && 0 < n <= sys.Count() && thetaSqr <= 0.0
    ensures TreeEnergy(sys, law, thetaSqr, n) == TreeEnergy(sys, law, thetaSqr, n - 1) + Forces(sys, law)[n - 1].scalar
  {
    ZeroThetaPull(sys, law, thetaSqr, n - 1);
  }

  lemma {:induction false} ZeroThetaEnergySum(sys: Bodies, law: Law, thetaSqr: real, n: nat)
    requires Buildable(sys) && law.Valid() && n <= sys.Count() && thetaSqr <= 0.0
    ensures TreeEnergy(sys, law, thetaSqr, n) == Total(Forces(sys, law), All(sys.Count()), n).scalar
  {
    var sums := seq(sys.Count() + 1, k requires 0 <= k <= sys.Count() => TreeEnergy(sys, law, thetaSqr, k));
    forall k | 0 <= k < sys.Count() ensures sums[k + 1] == sums[k] + Forces(sys, law)[k].scalar {
      OneMoreEnergy(sys, law, thetaSqr, k + 1);
    }
    ScalarsAdd(sums, Forces(sys, law), n);
  }

  /** With theta = 0 the halved energy of the tree is the energy of all pairs i < j, each counted once. */
  lemma {:induction false} ZeroThetaEnergy(sys: Bodies, law: Law, thetaSqr: real, n: nat)
    requires Buildable(sys) && law.Valid() && thetaSqr <= 0.0 && n == sys.Count()
    ensures TreeEnergy(sys, law, thetaSqr, n) * 0.5 == TriangleTotal(ForceGrid(sys, law), n).scalar
  {
    ZeroThetaEnergySum(sys, law, thetaSqr, n);
    NoNetForce(sys, law);
  }

  /** Whatever theta, and whether or not particles coincide: every particle feels groups that split all particles, each
      with its total mass at its centre of mass, and they weigh what the system weighs. */
  lemma FeelsGroups(sys: Bodies, law: Law, thetaSqr: real, i: nat)
    requires Buildable(sys) && law.Valid() && i < sys.Count() && NonNegativeMasses(sys)
    ensures var w, all := Walker(sys, law, thetaSqr, i), All(sys.Count());
      var gs := Groups(w, FieldTree(sys));
      && Partition(gs, all)
      && TreePull(sys, law, thetaSqr, i) == GroupsPull(w, gs)
      && GroupsMass(w, gs) == MassOf(all, sys)
  {
    var w := Walker(sys, law, thetaSqr, i);
    FieldTreeHoldsAll(sys);
    FieldTreeWeighsAll(sys);
    GroupsPartition(w, FieldTree(sys));
    WalkIsGroups(w, FieldTree(sys));
    PartitionMass(w, Groups(w, FieldTree(sys)), All(sys.Count()));
  }

  lemma PositiveIsNonNegative(sys: Bodies)
    requires PositiveMasses(sys)
    ensures NonNegativeMasses(sys)
  {
  }

  /** For positive masses and theta^2 <= 1/3, without coincident particles, every particle feels exactly the others:
      no group that it feels holds it, and what acts on it is the total mass less its own. */
  lemma SmallThetaFeelsOthers(sys: Bodies, law: Law, thetaSqr: real, i: nat)
    requires sys.Valid() && AllUnequal(sys) && law.Valid() && i < sys.Count()
    requires PositiveMasses(sys) && 3.0 * thetaSqr <= 1.0
    ensures Buildable(sys) && FeelsOthers(Walker(sys, law, thetaSqr, i), FieldTree(sys), All(sys.Count()))
  {
    PositiveIsNonNegative(sys);
    RootTreeIsSound(sys);
    FieldTreeHoldsAll(sys);
    FieldTreeWeighsAll(sys);
    assert i in All(sys.Count());
    SmallThetaFeels(Walker(sys, law, thetaSqr, i), FieldTree(sys));
  }
}
