/** Leapfrog over a tree that is rebuilt at every step. */
module BarnesHutLeapfrog {
  import opened Options
  import opened Vectors
  import opened Systems
  import opened Gravity
  import opened PairForces
  import opened TreeField
  import opened TreeAgainstDirect
  import opened BarnesHut
  import opened KickDrift
  import opened Leapfrog
  import HenonUnits

  class BarnesHutLeapfrogSimulator {
    const timeStep: real
    const thetaSqr: real
    const law: Law
    const tree: BarnesHutTree

    var previous: System
    var system: System
    var accelerations: seq<Vec>
    var potentialEnergy: real
    var systemTime: real

    ghost predicate Valid()
      reads this
    {
      && law.Valid() && law.softeningSqr > 0.0
      && previous.Valid() && system.Valid()
      && system.masses == previous.masses
      && |accelerations| == previous.Count()
    }

    ghost function Force(): Field { BarnesHut(law, thetaSqr) }

    /** The state between steps. */
    ghost function Current(): State
      reads this
    {
      State(previous, accelerations)
    }

    /** Rebuilds the tree and walks it for every particle. */
    method UpdateForces(sys: Bodies)
      requires law.Valid() && law.softeningSqr > 0.0 && Buildable(sys)
      modifies `accelerations, `potentialEnergy, tree
      ensures Admits(Force(), sys) && accelerations == Accelerations(Force(), sys)
      ensures potentialEnergy == TreeEnergy(sys, law, thetaSqr, sys.Count()) * 0.5
    {
      tree.Build(sys);
      SoftenedApart(sys, law);
      accelerations, potentialEnergy := tree.UpdateForces(sys, law, thetaSqr);
      assert accelerations == Accelerations(Force(), sys);
    }

    /** Scales the initial system. Accelerations are first computed from the scaled system. */
    constructor (law: Law, thetaSqr: real, timeStep: real, initial: System, buffer: System)
      requires law.Valid() && law.softeningSqr > 0.0 && HenonUnits.Scalable(initial, law.softeningSqr, law.inv)
      requires Buildable(HenonUnits.Normalized(initial, law.softeningSqr, law.inv).Matter())
      requires |buffer.positions| == |buffer.velocities| == initial.Count()
      ensures Valid() && this.law == law && this.thetaSqr == thetaSqr && this.timeStep == timeStep
      ensures previous == HenonUnits.Normalized(initial, law.softeningSqr, law.inv)
      ensures systemTime == 0.0 && fresh(tree)
      ensures Consistent(Force(), Current())
    {
      var scaled := HenonUnits.ScaleInitial(initial, law);
      this.law := law;
      this.thetaSqr := thetaSqr;
      this.timeStep := timeStep;
      tree := new BarnesHutTree();
      previous := scaled;
      system := buffer.(masses := scaled.masses);
      accelerations := seq(|scaled.positions|, _ => ZERO);
      potentialEnergy := 0.0;
      systemTime := 0.0;
      new;
      UpdateForces(previous.Matter());
    }

    /** Half kick, drift, forces, half kick; the result goes to the scratch buffer. */
    method CalculateNextSystemState()
      requires Valid() && CanStep(Force(), Current(), timeStep)
      modifies this, tree
      ensures Valid() && previous == old(previous)
      ensures State(system, accelerations) == Step(Force(), old(Current()), timeStep)
      ensures system.Count() > 0 ==> systemTime == old(systemTime) + timeStep
      ensures system.Count() > 0 ==>
        Buildable(system.Matter()) &&
        potentialEnergy == TreeEnergy(system.Matter(), law, thetaSqr, system.Count()) * 0.5
    {
      ghost var before := Current();
      if system.Count() == 0 {
        NothingToStep(Force(), before, State(system, accelerations), timeStep);
        return;
      }
      var half := KickAll(previous.velocities, accelerations, timeStep);
      var moved := DriftAll(previous.positions, half, timeStep);
      system := System(moved, half, system.masses);
      assert system.Matter() == Drifted(before, timeStep);
      UpdateForces(system.Matter());
      var full := KickAll(system.velocities, accelerations, timeStep);
      system := system.(velocities := full);
      systemTime := systemTime + timeStep;
    }

    /** One step, into the caller's buffer if there is one, and a report on its result if one is asked for.
        Afterwards the new state is the current one, and the one before it is the scratch buffer. */
    method StepOnce(buffer: Option<System>, diagnose: bool) returns (diagnostics: Option<HenonUnits.Diagnostics>)
      requires Valid() && CanStep(Force(), Current(), timeStep)
      requires buffer.Some? ==> |buffer.value.positions| == |buffer.value.velocities| == previous.Count()
      modifies this, tree
      ensures Valid()
      ensures Current() == Step(Force(), old(Current()), timeStep) && system == old(previous)
      ensures previous.Count() > 0 ==>
        && systemTime == old(systemTime) + timeStep && Buildable(previous.Matter())
        && potentialEnergy == TreeEnergy(previous.Matter(), law, thetaSqr, previous.Count()) * 0.5
      ensures diagnostics == if !diagnose then None else Some(HenonUnits.DiagnosticsOf(previous, potentialEnergy, law.inv))
    {
      if buffer.Some? {
        system := buffer.value.(masses := previous.masses);
      }
      CalculateNextSystemState();
      diagnostics := HenonUnits.Diagnose(diagnose, system, potentialEnergy, law.inv);
      previous, system := system, previous;
    }
  }

  /** With theta = 0 the tree simulator computes what the direct simulator computes:
      the same accelerations, and the energy of every pair once. */
  lemma ZeroThetaMatchesDirect(sys: Bodies, law: Law, thetaSqr: real)
    requires Admits(BarnesHut(law, thetaSqr), sys) && thetaSqr <= 0.0
    ensures Accelerations(BarnesHut(law, thetaSqr), sys) == Accelerations(Direct(law), sys)
    ensures TreeEnergy(sys, law, thetaSqr, sys.Count()) * 0.5 == PairEnergy(sys, law, sys.Count(), sys.Count())
  {
    forall i | 0 <= i < sys.Count()
      ensures Accelerations(BarnesHut(law, thetaSqr), sys)[i] == Accelerations(Direct(law), sys)[i]
    {
      ZeroThetaPull(sys, law, thetaSqr, i);
    }
    ZeroThetaEnergy(sys, law, thetaSqr, sys.Count());
    PairEnergyIsTriangle(sys, law, sys.Count());
  }

  /** Every run of the tree simulator with theta = 0 is a run of the direct simulator. */
  lemma ZeroThetaRuns(law: Law, thetaSqr: real, dt: real, run: seq<State>)
    requires IsRun(BarnesHut(law, thetaSqr), dt, run) && thetaSqr <= 0.0
    ensures IsRun(Direct(law), dt, run)
  {
    ZeroThetaMatchesDirect(run[0].sys.Matter(), law, thetaSqr);
    forall i | 0 <= i < |run| - 1
      ensures StepsTo(Direct(law), dt, run[i], run[i + 1])
    {
      assert StepsTo(BarnesHut(law, thetaSqr), dt, run[i], run[i + 1]);
      ZeroThetaMatchesDirect(Drifted(run[i], dt), law, thetaSqr);
    }
  }
}
