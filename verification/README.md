# Verification of the n-body simulator

A Dafny model of the simulation core and the data pipelines of an n-body simulator for star systems. The files prove
what the program promises of four parts:

* **The Barnes-Hut octree.** `Octree.dfy` defines the tree of a set of particles as a value, with no mention of
  insertion. `Insertion.dfy` is insertion call by call, with its branch for coincident particles, and `TreeMass.dfy`
  mass aggregation, on any tree. `BarnesHut.dfy` has the nodes as objects whose fields insertion, aggregation and force
  summation change and read in place, proved to compute those. `Coincident.dfy` is about when insertion ends.
  `TreeShape.dfy`, `TreeWalk.dfy`, `TreeField.dfy` and `TreeAgainstDirect.dfy` prove the shape, the depth bound, and how
  the walk stands to direct summation (`Gravity.dfy`, `PairForces.dfy`).
* **The integrators.** `KickDrift.dfy` is leapfrog as a state machine over either force field, with time reversal;
  `Conservation.dfy` has what direct forces conserve, and `EnergyRate.dfy` why their energy belongs to them.
  `Leapfrog.dfy` and `BarnesHutLeapfrog.dfy` are the simulators in place, `HandOver.dfy` the buffers they pass on.
  `Hermite.dfy` is the interpolating corrector, `Schedule.dfy` the event schedule of the individual time-step simulator
  over whole runs, and `Hits.dfy` that simulator in place; `Jerk.dfy` and `StepLaws.dfy` show what its jerk and its time
  steps are.
* **Replay.** `RingBuffer.dfy` refines the ring buffer to a bounded window with a read cursor. `Replay.dfy` interleaves
  worker and reader, one step per lock. `Csv.dfy`, `CsvFormat.dfy` and `SnapshotFile.dfy` are the file as characters:
  writing, indexing, reading back; `SnapshotIndex.dfy` is about the index of any file. `SnapshotStream.dfy` and
  `BufferWorker.dfy` are the stream and the worker in place.
* **Kernels.** `Henon.dfy` and `HenonUnits.dfy`: energies, centring, scaling and diagnostics. `Rotor.dfy`: rotor
  algebra. `Downsampling.dfy`: largest-triangle downsampling. `Storage.dfy` and `StoragePipeline.dfy`: memory pool,
  blocking queue and storage worker, in place and interleaved.

Numbers are exact reals. The inverse square root is a parameter `inv` with `inv(d) > 0` and `inv(d) * inv(d) * d == 1`
for `d > 0`. The comparison of an infinite or undefined quotient when a target sits at a centre of mass is written out:
it never accepts the cell. Printing and parsing of numbers are parameters that are inverse on the numbers the machine
can represent.

`dafny verify dfyconfig.toml` checks the whole project.

## Where the code does not do what is expected of it

Each of these is a lemma or a contract with the exact condition or a concrete input; most have both.

* The octree perturbs a particle that compares equal to the one in its leaf, but only to choose an octant. Insertion then
  ends if and only if the leaf has no extent, or its particle is not on the upper face of it, on the axis that the new
  particle's index selects, or the two differ on another axis (`Coincident.InsertionEnds`). Four particles at -e, e, 0
  and 0 on the first axis are an input for which it does not (`Coincident.FourInLineNeverEnd`). Results about the tree
  of a whole system hold wherever building it ends.
* `LeapfrogSimulator::initialize` computes the first accelerations from the scratch buffer. With a fresh buffer and
  positive masses they are right if and only if all particles start at one point (`Leapfrog.InitialCache`); two unit
  masses at unit distance are an input for which they are not (`Leapfrog.InitialCacheIsStale`). The results about runs
  start where the cache matches, as it does after any step.
* The particle data that a leapfrog step hands out is scratch two steps later. The simulator writes to it again if and
  only if that step is not given a buffer of its own (`HandOver.OverwrittenTwoStepsLater`), while a snapshot that refers
  to it may still be queued.
* Stepping backward through a recording: undisturbed, the step leaves the cursor at the end of the window exactly under
  the condition of `Replay.BackwardKeeps`, which a caller could test before it (`Replay.BackwardKeepsExactly`). Filling
  the last free slot breaks it, and then the window repeats a snapshot (`Replay.FillingTheLastSlotRepeats`); so does a
  second step back over the wrap while the cursor is at the end position, and then the window skips one
  (`Replay.SteppingBackOverTheWrapSkips`). The step takes the lock of the buffer three times. A read forward that drops
  the tail in between makes the window skip a snapshot (`Replay.ReadingWithinBackwardSkips`); exactly when it does is
  `Replay.PushTailAfterReads`.
* The event schedule has one entry for each key. Among equal first keys the assignment keeps the last particle, and a
  later key that is already taken drops the particle, as `std::map::insert` keeps the old entry; a particle without an
  entry is never updated again. All particles stay scheduled if and only if the first steps are pairwise different and
  no two keys ever coincide (`Schedule.AllStayScheduled`). The first steps of two bodies of positive mass are always
  equal, so one of them is never updated (`Hits.TwoBodiesLoseOne`).
* `getPotentialEnergy` takes the softening and squares it, but the simulators pass the squared softening when they scale
  the initial system. Under the softening they then run with, the energy is the promised quarter if and only if that
  softening is the length unit, and under it in the length unit if and only if it is 1
  (`HenonUnits.EnergyUnderOwnSoftening`). For two unit masses at rest at unit distance the former never happens
  (`HenonUnits.TwoBodiesMissQuarter`). The individual time-step simulator passes the squared softening when it reports,
  too; what it reports is the potential energy if and only if the softening is 1 (`HenonUnits.EnergyUnderSquare`).
* The last bucket of the downsampling holds only the last point, which is then added once more
  (`Downsampling.SampledInOrder`).
* The comment on `pushHead` says that it waits for room; the code returns `false`
  (`RingBuffer.SystemRingBuffer.PushHead`).
* The loop that indexes a file starts from time -1 and takes a line at that time for none before it: lines at -1 are
  counted with the lines that follow. What is indexed of any file, with that exception, is
  `SnapshotIndex.IndexHoldsLastRuns`.
* Indexing passes over lines without a time and counts the rest; reading takes as many lines as were counted, whatever they
  are (`SnapshotIndex.ReadingTakesLines`). So with an empty line among its rows a snapshot is indexed, but cannot be read
  (`SnapshotIndex.EmptyLineSpoils`).
* A file with nothing but its header fails to index when the header's line is ended, and succeeds when it is not
  (`SnapshotFile.HeaderAlone`); a jump to a fraction of such a stream leaves the index.

## Model

| member | source | states |
|---|---|---|
| `Octree.ChildBoxContains` | core/src/simulation/simulators/barneshut_tree.cpp:123-157 | a point of a cube lies in the child cube of the octant that its comparison with the centre selects |
| `Octree.OctantIsFirst` | core/src/simulation/simulators/barneshut_tree.cpp:123-130 | of the children whose closed cubes hold a point, that octant is the first: a point on a shared face goes to the lower side |
| `Octree.ChildrenInOrder` | core/src/simulation/simulators/barneshut_tree.cpp:139-153 | the children are numbered in the order of their lowest corners, compared by x, then y, then z |
| `Octree.UnequalPointsNeedRoom` | core/src/simulation/simulators/barneshut_tree.cpp:134-217 | a cube that holds two unequal points has an edge of at least 1e-9, and halving it lowers the level that bounds the depth |
| `Octree.LevelsBracketEdge` | core/src/simulation/simulators/barneshut_tree.cpp:134-217 | the level of an edge is its base-two logarithm in units of 1e-9, bracketed from both sides: the depth bound in closed form |
| `Octree.ChildrenInsert` | core/src/simulation/simulators/barneshut_tree.cpp:211-216 | inserting a particle changes exactly the child in its octant, to the reference tree of that octant with the particle added |
| `Octree.CellMass` | core/src/simulation/simulators/barneshut_tree.cpp:49-62 | total mass and mass moment of a weighed cell are the sums over its particles, also when the mass is zero and nothing is divided |
| `BarnesHut.BarnesHutNode.CreateChild` | core/src/simulation/simulators/barneshut_tree.cpp:138-157 | a missing child is created as an empty cell of the octant; an existing one is left alone |
| `BarnesHut.BarnesHutNode.SiblingsUntouched` | core/src/simulation/simulators/barneshut_tree.cpp:159-160 | changes in the nodes below one child leave every other child valid and unchanged |
| `BarnesHut.BarnesHutNode.InsertRecursive` | core/src/simulation/simulators/barneshut_tree.cpp:162-225 | in-place insertion, the branch for coincident particles included: where it ends, the tree is the one that the insertion of `Insertion`, call by call, makes of the tree before |
| `BarnesHut.BarnesHutNode.UpdateMassRecursive` | core/src/simulation/simulators/barneshut_tree.cpp:42-63 | in-place mass aggregation, on any tree and for masses of any sign: every node carries what its children, weighed, carry together |
| `BarnesHut.BarnesHutNode.SumForcesRecursive` | core/src/simulation/simulators/barneshut_tree.cpp:65-121 | on any tree the recursive accumulation of acceleration and energy is the walk, whose acceptance test `TreeWalk.GroupsLookSmall` and `TreeWalk.OpenedLooksLarge` pin from both sides |
| `BarnesHut.BarnesHutTree.Build` | core/src/simulation/simulators/barneshut_tree.cpp:230-266 | whatever the positions and masses, where building ends it yields the tree of all particles, inserted one by one from their own positions and then weighed |
| `BarnesHut.BarnesHutTree.UpdateForces` | core/src/simulation/simulators/barneshut_tree.cpp:268-297 | every particle gets the walk from its own position, and the result is half the sum of the energies |
| `Insertion.MoreFuel` | core/src/simulation/simulators/barneshut_tree.cpp:162-221 | the result of an insertion that ends does not depend on the bound on its depth |
| `Insertion.InsertCounts` | core/src/simulation/simulators/barneshut_tree.cpp:162-221 | whatever the new particle compares equal to, where its insertion ends: it is in one leaf, every other particle is in the leaves once, as before, every node counts the particles below it, and no child is empty |
| `Insertion.InsertsUnequal` | core/src/simulation/simulators/barneshut_tree.cpp:162-221 | a particle that compares equal to none in the tree: insertion ends, with the reference tree of one particle more |
| `Insertion.BuiltCounts` | core/src/simulation/simulators/barneshut_tree.cpp:259-262 | where building ends, every particle is in exactly one leaf, and every node counts those below it |
| `Insertion.BuiltUnequal` | core/src/simulation/simulators/barneshut_tree.cpp:259-262 | without coincident particles it ends, with the reference tree |
| `Coincident.LeafEnds` | core/src/simulation/simulators/barneshut_tree.cpp:173-221 | a particle that compares equal to the one in a leaf: perturbing, subdividing and descending end if and only if the leaf has no extent, or its particle is below the upper face on the axis of the perturbation, or the two differ on another axis |
| `Coincident.InsertionEnds` | core/src/simulation/simulators/barneshut_tree.cpp:162-221 | any particle of the root cube, into the reference tree of any set of particles: insertion ends if and only if the leaf that it reaches is empty, or holds a particle that it does not compare equal to, or has room in that sense |
| `Coincident.BuildGoesOn` | core/src/simulation/simulators/barneshut_tree.cpp:259-262 | building gets past the first particle that may coincide with an earlier one if and only if the leaf that it reaches has room for it |
| `Coincident.LastIsBuildable` | core/src/simulation/simulators/barneshut_tree.cpp:230-262 | the tree of a system in which only the last particle may coincide with another can be built if and only if there is room for that one |
| `Coincident.FourInLineNeverEnd` | core/src/simulation/simulators/barneshut_tree.cpp:230-263 | for particles at -e, e, 0 and 0 on the first axis, with e at least 1e-9, building never ends |
| `Coincident.ShiftsUntilThousandth` | core/src/simulation/simulators/barneshut_tree.cpp:176-199 | two particles at one point: the second is shifted on, a call at a time, as long as the number of shifts times the edge of the cell is below a thousandth, and in a cell without extent once |
| `Coincident.EqualForFewShifts` | core/src/simulation/simulators/barneshut_tree.cpp:173-180 | for exactly so long they compare equal |
| `TreeField.RootEncloses` | core/src/simulation/simulators/barneshut_tree.cpp:236-257 | the padded root box is a cube that contains every particle |
| `TreeField.RootFits` | core/src/simulation/simulators/barneshut_tree.cpp:236-257 | on every axis the root box is centred midway between the outermost particles, and its edge is at least 1.1 times their distance |
| `TreeField.RootIsTight` | core/src/simulation/simulators/barneshut_tree.cpp:236-257 | on one axis it is exactly 1.1 times their distance |
| `TreeMass.CellCarries` | core/src/simulation/simulators/barneshut_tree.cpp:42-63 | for masses of any sign every node carries the mass of the particles in its leaves; for masses that are not negative also their moment, and inner nodes their centre of mass |
| `TreeMass.WeighedTree` | core/src/simulation/simulators/barneshut_tree.cpp:42-63 | the reference tree of a set of particles, weighed bottom up, has at every node the mass and the centre of mass of the particles of its octant |
| `TreeMass.CenterForAnySign` | core/src/simulation/simulators/barneshut_tree.cpp:49-62 | whatever the signs of the masses, the moments of the children are divided by their total mass if that is positive, and are kept undivided otherwise |
| `TreeShape.CenterInBox` | core/src/simulation/simulators/barneshut_tree.cpp:42-63 | for positive masses the mass of a non-empty cell is positive and its centre of mass lies in the cell |
| `TreeShape.LeavesOfTree` | core/src/simulation/simulators/barneshut_tree.cpp:162-217 | the leaves of the tree hold exactly the particles of the set; that no particle is in two leaves is part of `TreeCounts` |
| `TreeShape.TreeCounts` | core/src/simulation/simulators/barneshut_tree.cpp:162-217 | at every node of the reference tree the particle count is the number of particles in the leaves below, siblings share none, and no child is empty |
| `TreeShape.DepthOfTree` | core/src/simulation/simulators/barneshut_tree.cpp:162-217 | the tree is no deeper than the level of its edge |
| `TreeShape.TreeIsSound` | core/src/simulation/simulators/barneshut_tree.cpp:42-63 | at every node of the weighed reference tree: all its particles lie in the closed cube, mass and mass moment are their sums, and for positive masses the centre of mass lies in the cube |
| `TreeAgainstDirect.FieldTreeHoldsAll` | core/src/simulation/simulators/barneshut_tree.cpp:230-266 | whatever the positions: the tree that is built and weighed holds every particle in exactly one leaf |
| `TreeAgainstDirect.FieldTreeWeighsAll` | core/src/simulation/simulators/barneshut_tree.cpp:230-266 | its root carries the total mass, whatever the signs; for masses that are not negative also the total moment, and every inner node the centre of mass of its particles |
| `TreeAgainstDirect.RootTreeIsSound` | core/src/simulation/simulators/barneshut_tree.cpp:230-266 | without coincident particles the tree can be built, is sound at every node, and obeys the depth bound of the root edge |
| `Gravity.UnequalPointsApart` | core/include/enkas/math/vector3d.h:74-78 | points that are unequal under the tolerance have a positive distance |
| `Gravity.PullInWalkForm` | core/src/simulation/simulators/barneshut_tree.cpp:77-85 | mass times inverse distance over squared distance is the pull with the cubed inverse distance that the direct loop computes |
| `Gravity.PullFollowsLaw` | core/src/simulation/simulators/leapfrog_simulator.cpp:111-124 | the pull of a pair with a distance is that of Plummer, with unit gravitational constant: its square times the cubed softened squared distance is the squared mass times the squared distance, it is towards the mass, the potential energy is not positive and its square times the softened squared distance is the square of the product of the masses; without softening it is the inverse square law |
| `TreeWalk.ZeroThetaIsDirect` | core/src/simulation/simulators/barneshut_tree.cpp:90-121 | with theta zero the walk over any tree, whatever masses its nodes carry, is the direct sum over the particles in its leaves |
| `TreeWalk.GroupsPartition` | core/src/simulation/simulators/barneshut_tree.cpp:74-121 | accepted cells and reached leaves split the particles of any tree |
| `TreeWalk.WalkIsGroups` | core/src/simulation/simulators/barneshut_tree.cpp:74-121 | the walk over a weighed tree is the sum of the pulls of those groups, each with its total mass at its centre of mass |
| `TreeWalk.PartitionMass` | core/src/simulation/simulators/barneshut_tree.cpp:90-121 | the masses of the groups add up to the mass of the particles |
| `TreeWalk.OwnCellIsOpened` | core/src/simulation/simulators/barneshut_tree.cpp:90-92 | for positive masses and theta squared at most 1/3 a sound cell that contains the target is never accepted |
| `TreeWalk.TargetIsAlone` | core/src/simulation/simulators/barneshut_tree.cpp:74-121 | under the same conditions the group of the target is the target alone |
| `TreeWalk.GroupsLookSmall` | core/src/simulation/simulators/barneshut_tree.cpp:90-121 | every group of more than one particle holds the particles of a cell whose distance is positive, and whose squared edge is below theta squared times the squared distance |
| `TreeWalk.OpenedLooksLarge` | core/src/simulation/simulators/barneshut_tree.cpp:90-121 | every inner cell that the walk opens has no distance, or a squared edge that is not below theta squared times the squared distance |
| `TreeWalk.LargerThetaIsCoarser` | core/src/simulation/simulators/barneshut_tree.cpp:90-121 | with a larger theta the groups are coarser: every group of the smaller one lies in a group of the larger one |
| `TreeAgainstDirect.ZeroThetaPull` | core/src/simulation/simulators/barneshut_tree.cpp:268-297 | with theta zero every particle of every system whose tree can be built gets exactly the acceleration of direct summation |
| `TreeAgainstDirect.ZeroThetaEnergy` | core/src/simulation/simulators/barneshut_tree.cpp:292-296 | with theta zero the halved double-counted energy is the sum over pairs i < j |
| `TreeAgainstDirect.FeelsGroups` | core/src/simulation/simulators/barneshut_tree.cpp:65-121 | for masses that are not negative and any theta, coincident or not: every particle feels groups that split all particles, each with its total mass at its centre of mass, and they weigh what the system weighs |
| `TreeAgainstDirect.SmallThetaFeelsOthers` | core/src/simulation/simulators/barneshut_tree.cpp:65-121 | for positive masses and theta squared at most 1/3, without coincident particles, every particle feels groups that split the others, and whose mass is the total minus its own |
| `Leapfrog.PairKernelMeaning` | core/src/simulation/simulators/leapfrog_simulator.cpp:111-124 | one pass of the inner loop adds to both partners the pull of the other, and to the energy that of the pair; pairs without distance are skipped |
| `Leapfrog.LeapfrogSimulator.UpdateForces` | core/src/simulation/simulators/leapfrog_simulator.cpp:96-126 | the triangular loop gives every particle the sum of the pulls of all others, and the energy of every pair once |
| `PairForces.PairEnergyIsTriangle` | core/src/simulation/simulators/leapfrog_simulator.cpp:109-125 | summed by rows or by columns, the energy of the pairs is the same |
| `Leapfrog.LeapfrogSimulator.CalculateNextSystemState` | core/src/simulation/simulators/leapfrog_simulator.cpp:64-92 | the in-place loops compute one kick-drift-kick step, its time and its energy, into the scratch buffer |
| `Leapfrog.LeapfrogSimulator.StepOnce` | core/src/simulation/simulators/leapfrog_simulator.cpp:45-62 | into the buffer of the caller or the scratch buffer: after the swap the current state is one step on, its energy is that of all pairs, the state before it is scratch, and the diagnostics are those of the new system |
| `Leapfrog.LeapfrogSimulator.constructor` | core/src/simulation/simulators/leapfrog_simulator.cpp:16-43 | the current system is the scaled initial one, and the first accelerations are those of the scratch buffer, not of that system |
| `Leapfrog.NobodyPulled` | core/src/simulation/simulators/leapfrog_simulator.cpp:109-125 | for positive masses no particle is accelerated if and only if all of them sit at one point: otherwise the first in the order of x, y, z is pulled strictly onward |
| `Leapfrog.InitialCache` | core/src/simulation/simulators/leapfrog_simulator.cpp:16-43 | for positive masses and a fresh scratch buffer, the cache after initialization belongs to the current positions if and only if all initial positions are one point |
| `Leapfrog.InitialCacheIsStale` | core/src/simulation/simulators/leapfrog_simulator.cpp:16-43 | for two unit masses at rest at unit distance it does not, whatever the softening |
| `PairForces.ActionAndReaction` | core/src/simulation/simulators/leapfrog_simulator.cpp:120-121 | the forces of a pair are opposite and its energy is seen alike from both sides |
| `PairForces.NoNetForce` | core/src/simulation/simulators/leapfrog_simulator.cpp:109-125 | forces and torques of all pairs cancel, and the doubly counted energy is twice that of the pairs |
| `PairForces.WedgeIsArea` | core/include/enkas/physics/helpers.h:79-94 | the squared size of the bivector of two vectors, and the square of their inner product, add up to the product of their squared lengths |
| `PairForces.WedgeHoldsBoth` | core/include/enkas/physics/helpers.h:79-94 | it changes its sign with their order, its plane holds both, and the bivectors of the axes are its three components |
| `EnergyRate.PowerOfPair` | core/src/simulation/simulators/leapfrog_simulator.cpp:111-124 | while two particles move, the power of their forces is the rate at which their potential energy falls |
| `EnergyRate.EnergyIsConstant` | core/src/simulation/simulators/leapfrog_simulator.cpp:96-126 | along the motion that direct forces cause, the rate of the total energy, kinetic and of all pairs, is zero: the accelerations are the gradient of the energy that is reported |
| `KickDrift.StepReverses` | core/src/simulation/simulators/leapfrog_simulator.cpp:64-92 | from the reversed end of a step, one step leads to the reversed start, in either field |
| `KickDrift.RunReverses` | core/src/simulation/simulators/leapfrog_simulator.cpp:64-92 | after n steps, reversing the velocities makes the simulator retrace the run state by state; reversed once more the last state is the first, for direct forces and for the tree at any theta |
| `KickDrift.RunsAgree` | core/src/simulation/simulators/leapfrog_simulator.cpp:64-92 | a run is determined by its start, so the retraced run is the one the simulator takes |
| `KickDrift.StepIsVerlet` | core/src/simulation/simulators/leapfrog_simulator.cpp:64-92 | a step, in either field: the new positions are those of motion from the start under the first acceleration, and the old ones those of motion back from the end under the last |
| `KickDrift.RunFollowsField` | core/src/simulation/simulators/leapfrog_simulator.cpp:64-92 | in every run the second difference of the positions is the acceleration of the field times the squared step, and the velocity is the central difference |
| `Conservation.StepConserves` | core/src/simulation/simulators/leapfrog_simulator.cpp:64-126 | one step keeps momentum and angular momentum and moves the mass moment by the momentum times the step |
| `Conservation.RunConserves` | core/src/simulation/simulators/leapfrog_simulator.cpp:64-126 | over any number of steps momentum and angular momentum are unchanged and the mass moment has moved by the momentum times the elapsed time |
| `Conservation.ElapsedIsProduct` | core/src/simulation/simulators/leapfrog_simulator.cpp:90-91 | the elapsed time of n steps is n times the step |
| `Conservation.AngularMomentumMoves` | core/include/enkas/physics/helpers.h:79-94 | seen from another origin, angular momentum differs by the offset wedge the momentum |
| `BarnesHutLeapfrog.BarnesHutLeapfrogSimulator.constructor` | core/src/simulation/simulators/barneshutleapfrog_simulator.cpp:15-42 | the current system is the scaled initial one, and the cached accelerations are those of its positions |
| `BarnesHutLeapfrog.BarnesHutLeapfrogSimulator.UpdateForces` | core/src/simulation/simulators/barneshutleapfrog_simulator.cpp:95-99 | tree and field are rebuilt for the given system |
| `BarnesHutLeapfrog.BarnesHutLeapfrogSimulator.CalculateNextSystemState` | core/src/simulation/simulators/barneshutleapfrog_simulator.cpp:63-91 | the in-place loops compute one kick-drift-kick step in the tree field |
| `BarnesHutLeapfrog.BarnesHutLeapfrogSimulator.StepOnce` | core/src/simulation/simulators/barneshutleapfrog_simulator.cpp:44-61 | into the buffer of the caller or the scratch buffer: after the swap the current state is one step on, its energy is half of what the walks add up, the state before it is scratch, and the diagnostics are those of the new system |
| `HandOver.OverwrittenTwoStepsLater` | core/src/simulation/simulators/leapfrog_simulator.cpp:45-62 | the particle data that a step hands out is written again by the simulator if and only if the second step after it is not given a buffer of its own |
| `BarnesHutLeapfrog.ZeroThetaMatchesDirect` | core/src/simulation/simulators/barneshutleapfrog_simulator.cpp:95-99 | with theta zero accelerations and energy are those of the direct simulator |
| `BarnesHutLeapfrog.ZeroThetaRuns` | core/src/simulation/simulators/barneshutleapfrog_simulator.cpp:63-91 | every run with theta zero is a run of the direct simulator |
| `Hermite.ShiftComposes` | core/src/simulation/simulators/hits_simulator.cpp:118-146 | the Taylor sums of the synchronizing prediction compose: going h and then k is going h + k |
| `Hermite.InterpolantMeetsEnds` | core/src/simulation/simulators/hits_simulator.cpp:193-199 | the quintic has position, velocity, acceleration and jerk of the old motion at the old time, and the new acceleration and jerk at the new time |
| `Hermite.CorrectedIsShift` | core/src/simulation/simulators/hits_simulator.cpp:187-213 | all six stored values are the derivatives of that quintic at the new time |
| `Hermite.CorrectionLosesNothing` | core/src/simulation/simulators/hits_simulator.cpp:138-145 | the corrected motion is the quintic at every time; at the old time it gives the old position and velocity |
| `Hermite.CorrectedVelocityClosedForm` | core/src/simulation/simulators/hermite_simulator.cpp:93-95 | the corrected velocity is the old one plus the mean acceleration times the step plus the difference of the jerks times its square over twelve |
| `Hits.SyncBackIsExact` | core/src/simulation/simulators/hits_simulator.cpp:136-146 | in three dimensions: synchronizing a corrected particle back to the time of its last correction returns its position and velocity of then |
| `Hits.SyncedToThen` | core/src/simulation/simulators/hits_simulator.cpp:64-81 | after an event, synchronizing to the time that the updated particle came from returns its position and velocity of then |
| `Hits.PredictedToNow` | core/src/simulation/simulators/hits_simulator.cpp:118-150 | predicting a particle to its own time returns what is stored, in both modes |
| `Hits.EvaluatesDirectPull` | core/src/simulation/simulators/hits_simulator.cpp:163-172 | where no pair is without distance, the evaluated acceleration is that of direct summation |
| `Hits.CalculateAccJrk` | core/src/simulation/simulators/hits_simulator.cpp:152-181 | acceleration and jerk are the sums over all other particles |
| `Jerk.InverseDistanceIsRoot` | core/src/simulation/simulators/hits_simulator.cpp:167-176 | for a pair with softened distance, the inverse distance and the rate that the jerk takes it to have are the only ones whose square times the moving squared distance stays 1 |
| `Jerk.PairJerkIsRate` | core/src/simulation/simulators/hits_simulator.cpp:167-179 | on every axis the jerk of a pair is the rate at which its acceleration changes, by the product rule, while both particles move |
| `Jerk.JerkIsRate` | core/src/simulation/simulators/hits_simulator.cpp:152-181 | so is the jerk of a particle that of its acceleration, over all partners |
| `Hits.FirstStepPositive` | core/src/simulation/simulators/hits_simulator.cpp:51-56 | the first step of a particle is positive |
| `Hits.NextStepPositive` | core/src/simulation/simulators/hits_simulator.cpp:216-235 | the next step is positive and at most 30 % longer than the last; which one it is, `StepLaws` says |
| `StepLaws.FirstStepLaw` | core/src/simulation/simulators/hits_simulator.cpp:51-56 | the first step times the size of the jerk is the parameter times the size of the acceleration; without one of them it is the parameter |
| `StepLaws.NextStepIsCapped` | core/src/simulation/simulators/hits_simulator.cpp:216-235 | the next step is 1.3 times the last if and only if the suggested one is at least as long |
| `StepLaws.NextStepBalances` | core/src/simulation/simulators/hits_simulator.cpp:216-235 | otherwise its square times |j| |c| + |s|^2 is the parameter times |a| |s| + |j|^2, for acceleration, jerk, snap and crackle |
| `StepLaws.SuggestedStepHasUnit` | core/src/simulation/simulators/hits_simulator.cpp:216-235 | the suggested step is the same time in every unit of time, unless it is the parameter for want of one of the two sums, which it then is in every unit |
| `Hits.HitsSimulator.PredictSystem` | core/src/simulation/simulators/hits_simulator.cpp:118-150 | every particle is taken from its own time to the given one, to the order of the jerk or of the crackle |
| `Hits.HitsSimulator.CorrectParticle` | core/src/simulation/simulators/hits_simulator.cpp:183-214 | one particle moves to the corrected motion, all others stay; the division is by its own step, which is not zero |
| `Hits.HitsSimulator.CalculateNextSystemState` | core/src/simulation/simulators/hits_simulator.cpp:83-98 | one event updates exactly the particle with the earliest key, from the prediction of all to that key, and reschedules it; the clock advances as the schedule says |
| `Hits.HitsSimulator.constructor` | core/src/simulation/simulators/hits_simulator.cpp:16-60 | the system is the scaled initial one; every particle is evaluated and its first step is a key; of particles with equal first steps the last one has it, so all are scheduled if and only if the first steps are pairwise different |
| `Hits.TwoBodiesShareFirstStep` | core/src/simulation/simulators/hits_simulator.cpp:45-58 | two bodies of positive masses, at any positions and velocities, have equal first steps: acceleration and jerk of each are proportional to the mass of the other |
| `Hits.TwoBodiesLoseOne` | core/src/simulation/simulators/hits_simulator.cpp:57 | so in every run of two bodies the first of them is never scheduled and never updated |
| `Hits.HitsSimulator.StepOnce` | core/src/simulation/simulators/hits_simulator.cpp:64-81 | one event of the schedule; the system that is handed out, and the one that is reported on, are synchronized to the new time; the reported potential energy is that under the squared softening in place of the softening |
| `HenonUnits.EnergyUnderSquare` | core/src/simulation/simulators/hits_simulator.cpp:75-80 | for positive masses and two or more particles, it is the potential energy of the system if and only if the softening is 1 |
| `Schedule.EventKeepsValid` | core/src/simulation/simulators/hits_simulator.cpp:83-98 | an event keeps every key equal to time plus step, every step positive and every key in the future, and moves the time strictly forward |
| `Schedule.ScheduledOnce` | core/src/simulation/simulators/hits_simulator.cpp:94-97 | no particle has two entries |
| `Schedule.PredictionStaysInStep` | core/src/simulation/simulators/hits_simulator.cpp:102-112 | a prediction to the next event spans at most the step of every scheduled particle, and exactly the step of the one that is corrected |
| `Schedule.SynchronizationStaysInStep` | core/src/simulation/simulators/hits_simulator.cpp:69-76 | a prediction to the system time stays strictly inside the step of every scheduled particle |
| `Schedule.EventDrops` | core/src/simulation/simulators/hits_simulator.cpp:94-97 | an event whose new key is taken drops exactly one particle from the schedule; any other event drops none |
| `Schedule.RunKeepsValid` | core/src/simulation/simulators/hits_simulator.cpp:83-98 | over whole runs: the schedule is valid and never empty, time strictly increases, and a dropped particle never returns and is never updated again |
| `Schedule.CollisionsCost` | core/src/simulation/simulators/hits_simulator.cpp:94-97 | after n events the schedule is shorter by exactly the number of coinciding keys |
| `Schedule.NoCollisionKeepsAll` | core/src/simulation/simulators/hits_simulator.cpp:94-97 | the scheduled particles are those that were scheduled at first if and only if no two keys have coincided in an event |
| `Schedule.FirstClockHoldsAll` | core/src/simulation/simulators/hits_simulator.cpp:45-58 | after initialization all particles are scheduled if and only if their first steps are pairwise different |
| `Schedule.AllStayScheduled` | core/src/simulation/simulators/hits_simulator.cpp:45-98 | at every event of every run: every particle is scheduled, and no particle twice, if and only if the first steps were pairwise different and no two keys have coincided since |
| `RingBuffer.NeighboursAreModular` | app/src/core/dataflow/system_ring_buffer.cpp:104-108 | the neighbours of a slot are those of modular arithmetic and undo each other |
| `RingBuffer.OperationsKeepValid` | app/src/core/dataflow/system_ring_buffer.cpp:10-94 | every operation keeps the size within the capacity, the reader between tail and head, and at most the retained number of items behind it |
| `RingBuffer.BackwardUndoesForward` | app/src/core/dataflow/system_ring_buffer.cpp:62-83 | a backward read after a forward read returns the same item if and only if the buffer retains items; then what is unread is as before, and otherwise there is nothing to go back to |
| `RingBuffer.ReadsInOrder` | app/src/core/dataflow/system_ring_buffer.cpp:62-75 | any number of forward reads returns the unread items in order and leaves the rest unread |
| `RingBuffer.ReadsMove` | app/src/core/dataflow/system_ring_buffer.cpp:62-75 | any number of them moves the cursor by that number and drops at the tail exactly the items beyond those retained |
| `RingBuffer.BackwardKeepsItems` | app/src/core/dataflow/system_ring_buffer.cpp:77-83 | a backward read changes nothing that the window holds, and only moves the cursor back by one unless it stands at the tail |
| `RingBuffer.BackwardReadsUndoForward` | app/src/core/dataflow/system_ring_buffer.cpp:62-83 | after n forward reads, m backward reads, with m at most n and at most what is retained, return the last m items in reverse, and leave those m and the rest unread |
| `RingBuffer.PushHeadAdds` | app/src/core/dataflow/system_ring_buffer.cpp:10-21 | a push at the head is refused exactly when the window is full or shut down; otherwise it adds one item at the end of what is unread |
| `RingBuffer.PushTailAdds` | app/src/core/dataflow/system_ring_buffer.cpp:23-44 | a push at the tail is refused exactly when the window is full and read to its end; otherwise it puts one item before all others, of which a full window loses the newest, and what is unread starts where it did, or one item earlier when too many would lie behind the reader |
| `RingBuffer.SystemRingBuffer.constructor` | app/src/core/dataflow/system_ring_buffer.cpp:7-8 | one slot more than the capacity, nothing in it |
| `RingBuffer.SystemRingBuffer.IsFull` | app/src/core/dataflow/system_ring_buffer.cpp:96 | the head before the tail means that the window holds its capacity |
| `RingBuffer.SystemRingBuffer.IsEmpty` | app/src/core/dataflow/system_ring_buffer.cpp:98 | tail at head means that the window holds nothing |
| `RingBuffer.SystemRingBuffer.HasReaderCaughtUp` | app/src/core/dataflow/system_ring_buffer.cpp:100 | reader at head means that nothing is unread |
| `RingBuffer.SystemRingBuffer.Size` | app/src/core/dataflow/system_ring_buffer.cpp:102 | the distance from tail to head is the number of items |
| `RingBuffer.SystemRingBuffer.PushHead` | app/src/core/dataflow/system_ring_buffer.cpp:10-21 | refines the push at the head of the window, refused when full or shut down |
| `RingBuffer.SystemRingBuffer.PushTail` | app/src/core/dataflow/system_ring_buffer.cpp:23-44 | refines the push at the tail: a full window drops its head unless the reader stands there, and the reader keeps its item unless too many would lie behind it |
| `RingBuffer.SystemRingBuffer.ReadForward` | app/src/core/dataflow/system_ring_buffer.cpp:62-75 | refines the forward read; at most one item at the tail is dropped |
| `RingBuffer.SystemRingBuffer.ReadBackward` | app/src/core/dataflow/system_ring_buffer.cpp:77-83 | refines the backward read, which ends at the tail and drops nothing (`RingBuffer.BackwardReadsUndoForward`) |
| `RingBuffer.SystemRingBuffer.Clear` | app/src/core/dataflow/system_ring_buffer.cpp:85-89 | empties the window |
| `RingBuffer.SystemRingBuffer.Shutdown` | app/src/core/dataflow/system_ring_buffer.cpp:91-94 | from then on nothing is pushed at the head |
| `RingBuffer.SystemRingBuffer.TailItem` | app/src/core/dataflow/system_ring_buffer.cpp:54-60 | the oldest item, if there is one |
| `RingBuffer.SystemRingBuffer.HeadItem` | app/src/core/dataflow/system_ring_buffer.cpp:46-52 | the newest item, if there is one |
| `Replay.FractionInRange` | app/src/core/files/system_snapshot_stream.cpp:179 | the index at a fraction is in range; 0 is the first snapshot and 1 the last |
| `Replay.FractionIsBracketed` | app/src/core/files/system_snapshot_stream.cpp:179 | for every fraction the index is the floor of the fraction of the last index |
| `Replay.FractionsInOrder` | app/src/core/files/system_snapshot_stream.cpp:179 | a larger fraction never selects an earlier snapshot |
| `Replay.FractionOfSnapshot` | app/src/core/files/system_snapshot_stream.cpp:179 | the fractions that select snapshot k are those from k up to k + 1, over the last index |
| `Replay.FailedPushUndoes` | app/src/workers/system_buffer_worker.cpp:53-55 | the retreat after a failed push puts the cursor back where it was |
| `Replay.StepKeepsExactly` | app/src/workers/system_buffer_worker.cpp:36-68 | for every step of worker and reader, a backward step being three: it keeps the window consecutive and ending at the cursor if and only if a condition on the state before it holds, which is nothing for all steps but the push to the tail and the test for fullness after it |
| `Replay.PushTailAfterReads` | app/src/workers/system_buffer_worker.cpp:36-43 | the reader moves between the look at the tail and the push to it: the push keeps the window consecutive if and only if it pushes nothing, or none or whole turns of items have left the tail since, or the window has been emptied with the same snapshot last |
| `Replay.BackwardKeepsExactly` | app/src/workers/system_buffer_worker.cpp:36-43 | with the reader idle, a whole backward step leaves a consecutive window that ends at the cursor if and only if it pushes nothing, or leaves room in the window, or the window was full exactly when the cursor was not at the end position |
| `Replay.FillingTheLastSlotRepeats` | app/src/workers/system_buffer_worker.cpp:40 | a run, taken as the loop of the worker and the requests of the player allow, in which nothing but one backward step into the last free slot breaks that condition: four steps later the window holds snapshot 2 twice |
| `Replay.SteppingBackOverTheWrapSkips` | app/src/workers/system_buffer_worker.cpp:40 | another such run, in which nothing but the second of two backward steps over the wrap breaks it: five steps later the window goes from snapshot 1 to snapshot 0 of three |
| `Replay.ReadingWithinBackwardSkips` | app/src/workers/system_buffer_worker.cpp:36-43 | another such run, in which nothing but the push to the tail breaks it: the reader has dropped the tail since the look at it, and the window goes from snapshot 0 to snapshot 2 |
| `Replay.RunKeepsInv` | app/src/workers/system_buffer_worker.cpp:36-68 | in every run of worker and reader, interleaved in any way, also within a backward step, the window is a consecutive cyclic run of snapshots, and between steps of the worker it ends where the cursor stands; the steps of a backward step are taken where they keep this |
| `Replay.PlaybackShowsLog` | app/src/workers/system_buffer_worker.cpp:45-57 | in every run of playback, from the start or from a jump, what forward reads have returned is everything pushed up to the position of the reader |
| `Replay.PlaybackInOrder` | app/src/workers/system_buffer_worker.cpp:45-68 | in every such run, whatever the interleaving and however small the window, the item shown m-th after a jump to snapshot i is snapshot i + m modulo their number; from the start, i is 0 |
| `Csv.FieldsOfJoin` | app/src/core/files/system_snapshot_stream.cpp:124-130 | splitting a line at commas undoes joining fields with commas |
| `Csv.JoinOfFields` | app/src/core/files/system_snapshot_stream.cpp:124-130 | any line is its fields with commas between them, but for a comma at its end; no field has a comma, and only the empty line has no field |
| `Csv.LineInFile` | app/src/core/files/system_snapshot_stream.cpp:112-117 | a line in the middle of a file is read back from its offset, and the next offset is after its end |
| `Csv.LastLine` | app/src/core/files/system_snapshot_stream.cpp:112-117 | the last line of a file is read without an end, too; after it there is none |
| `CsvFormat.FormatIsValid` | app/src/core/dataflow/snapshot.h:33-42 | if the text of representable numbers parses back, is not empty, and has no comma or line end in it, every line of the writer is read back, its time by indexing and its particle by reading, and the header is accepted |
| `SnapshotFile.Write` | app/src/core/dataflow/snapshot.h:33-42 | the loop appends the lines of a snapshot |
| `SnapshotFile.IndexOfWritten` | app/src/core/files/system_snapshot_stream.cpp:99-169 | indexing a recorded file succeeds if it holds a snapshot, with one entry for each: its time, the offset of its first line and its number of lines |
| `SnapshotFile.RowCountsOfWritten` | app/src/core/files/system_snapshot_stream.cpp:139-166 | the row counts add up to the number of lines after the header |
| `SnapshotFile.IndexReadsBack` | app/src/core/files/system_snapshot_stream.cpp:236-327 | parsing at any entry of that index returns the snapshot that was written |
| `CsvFormat.FileReadsBack` | app/src/core/files/system_snapshot_stream.cpp:99-327 | the whole round trip at the level of characters: write, index, and read every snapshot back |
| `CsvFormat.FileWithReturnsReadsBack` | app/src/core/files/system_snapshot_stream.cpp:63-327 | the same file with CR LF line ends is indexed as well, and every snapshot is read back |
| `SnapshotStream.IndexIsSorted` | app/src/core/files/system_snapshot_stream.cpp:139-166 | whatever the file holds, the index is ordered by strictly increasing time, and empty when indexing fails |
| `SnapshotIndex.IndexHoldsLastRuns` | app/src/core/files/system_snapshot_stream.cpp:99-169 | any file with a header that something follows: the index holds one entry for the last run of lines of every time, with the offset of its first line and the number of its lines, and nothing else; lines without a time are passed over |
| `SnapshotIndex.RunHasOneTime` | app/src/core/files/system_snapshot_stream.cpp:139-166 | unless a line is at time -1, with which the loop starts, such a run is a longest stretch of lines at one time |
| `SnapshotIndex.ReadingTakesLines` | app/src/core/files/system_snapshot_stream.cpp:236-327 | at any offset of any file a number of particles is read if and only if there are so many lines, and each has a particle; what is read is those particles |
| `SnapshotIndex.EmptyLineSpoils` | app/src/core/files/system_snapshot_stream.cpp:121-169 | two rows of the writer at one time with an empty line between them are indexed as one snapshot of two particles, which cannot be read |
| `SnapshotStream.LowerBound` | app/src/core/files/system_snapshot_stream.cpp:215 | the first entry at or after a time: all before it are earlier |
| `SnapshotStream.LowerBoundOfEntry` | app/src/core/files/system_snapshot_stream.cpp:215 | the first entry not before the time of an entry is that entry |
| `SnapshotStream.SystemSnapshotStream.BuildIndex` | app/src/core/files/system_snapshot_stream.cpp:50-169 | the loop over the lines computes the index of the file, empty and malformed lines included |
| `SnapshotStream.SystemSnapshotStream.Initialize` | app/src/core/files/system_snapshot_stream.cpp:24-48 | indexes once and sets the cursor to the end position; it fails, with an empty index, exactly when one of the two openings of the file or the indexing fails |
| `SnapshotStream.SystemSnapshotStream.GetFirstSnapshot` | app/src/core/files/system_snapshot_stream.cpp:188-192 | the first snapshot, and the cursor on it |
| `SnapshotStream.SystemSnapshotStream.GetNextSnapshot` | app/src/core/files/system_snapshot_stream.cpp:194-208 | moves the cursor by one, cyclically by way of the end position, and returns what it stands on |
| `SnapshotStream.SystemSnapshotStream.GetPrecedingSnapshot` | app/src/core/files/system_snapshot_stream.cpp:210-224 | the last snapshot before a time, without moving the cursor |
| `SnapshotStream.SystemSnapshotStream.GetSnapshotAtFraction` | app/src/core/files/system_snapshot_stream.cpp:171-186 | moves the cursor to the floor of the fraction of the last index and returns what is there; other fractions return nothing; of an initialized stream without entries nothing is promised |
| `SnapshotFile.HeaderAlone` | app/src/core/files/system_snapshot_stream.cpp:110-169 | a file with nothing but its header is indexed, with no entries, when its line is not ended, and fails to be indexed when it is |
| `SnapshotStream.SystemSnapshotStream.RetreatIndexIterator` | app/src/core/files/system_snapshot_stream.cpp:329-340 | moves the cursor back by one, from the first snapshot to the end position and from there to the last |
| `BufferWorker.SystemBufferWorker.StepForward` | app/src/workers/system_buffer_worker.cpp:45-57 | on the in-place buffer and stream, undisturbed: exactly the forward step and push of the protocol |
| `BufferWorker.SystemBufferWorker.StepBackward` | app/src/workers/system_buffer_worker.cpp:36-43 | on the in-place buffer and stream, undisturbed: exactly the backward step of the protocol |
| `BufferWorker.SystemBufferWorker.Jump` | app/src/workers/system_buffer_worker.cpp:59-68 | on the in-place buffer and stream, undisturbed: exactly the jump of the protocol |
| `BufferWorker.ForwardStepKeeps` | app/src/workers/system_buffer_worker.cpp:45-57 | a whole forward step keeps the window consecutive and ending at the cursor |
| `BufferWorker.JumpStepKeeps` | app/src/workers/system_buffer_worker.cpp:59-68 | so does a whole jump |
| `HenonUnits.SystemData.GetKineticEnergy` | core/include/enkas/physics/helpers.h:23-37 | the loop computes half the sum of mass times squared speed |
| `HenonUnits.SystemData.GetPotentialEnergy` | core/include/enkas/physics/helpers.h:49-71 | the double loop computes the energy of every pair once |
| `HenonUnits.SystemData.GetAngularMomentum` | core/include/enkas/physics/helpers.h:79-94 | the loop computes the bivector that direct-force runs conserve |
| `HenonUnits.SystemData.GetCenterOfMass` | core/include/enkas/physics/helpers.h:111-133 | the loop computes the centre of mass and its velocity, both zero without mass |
| `HenonUnits.SystemData.CenterSystem` | core/include/enkas/physics/helpers.h:140-150 | the in-place loop subtracts them from every particle |
| `Henon.CenteredIsCentered` | core/include/enkas/physics/helpers.h:134-150 | the centre of mass of a centred system is at rest at the origin, in every case; with mass, momentum and mass moment vanish |
| `Henon.CenteringEnergies` | core/include/enkas/physics/helpers.h:134-150 | centring keeps the potential energy and takes off the kinetic energy of the centre of mass |
| `Henon.CenteredStaysCentered` | core/include/enkas/physics/helpers.h:134-150 | a centred system stays centred over every run of direct-force leapfrog |
| `Henon.CenterMovesUniformly` | core/src/simulation/simulators/leapfrog_simulator.cpp:64-126 | over every run of direct-force leapfrog the centre of mass keeps its velocity and has moved by it times n steps |
| `HenonUnits.VelocityUnitSquared` | core/include/enkas/physics/helpers.h:169-173 | the squared velocity unit times the mass unit is four times the energy |
| `HenonUnits.StandardUnits` | core/include/enkas/physics/helpers.h:164-178 | in the scaled system the mass is 1 and the energy, with the softening in the length unit, is +1/4 or -1/4 by the sign of the physical energy whose absolute value was given |
| `HenonUnits.SystemData.ScaleToHenonUnits` | core/include/enkas/physics/helpers.h:164-178 | the in-place loops scale masses, positions and velocities; a system without particles is left alone |
| `HenonUnits.SystemData.ScaleInitialSystem` | core/src/simulation/simulators/leapfrog_simulator.cpp:27-31 | energies, absolute value and scaling as every simulator starts, in place |
| `HenonUnits.NormalizedEnergy` | core/src/simulation/simulators/leapfrog_simulator.cpp:27-31 | the scaled initial system has mass 1 and energy +1/4 or -1/4, for the squared softening, in the length unit, in place of the softening |
| `HenonUnits.SofteningRaisesEnergy` | core/include/enkas/physics/helpers.h:49-71 | for positive masses more softening means strictly more energy |
| `HenonUnits.EnergyUnderOwnSoftening` | core/src/simulation/simulators/leapfrog_simulator.cpp:12-31 | the energy of the scaled system is that quarter under the softening of the simulator itself if and only if that is the length unit, and under it in the length unit if and only if it is 1 |
| `HenonUnits.TwoBodiesMissQuarter` | core/src/simulation/simulators/leapfrog_simulator.cpp:12-31 | two unit masses at rest at unit distance: it never is under the softening of the simulator, whatever that is |
| `HenonUnits.SystemData.FillDiagnostics` | core/include/enkas/physics/helpers.h:188-200 | energies, angular momentum, centre of mass, mean square velocity, virial radius and crossing time; a quotient by zero is reported missing |
| `HenonUnits.DiagnosticsMean` | core/include/enkas/physics/helpers.h:188-200 | the reported virial radius times the size of the potential energy is 1/2; the squared crossing time times the mean square velocity is four squared radii; that velocity is twice the kinetic energy, which at mass 1 is the mass-weighted mean; the reported angular momentum is the length of the bivector |
| `HenonUnits.DiagnosticsOfRun` | core/include/enkas/physics/helpers.h:188-200 | over every run of direct-force leapfrog the reported angular momentum and velocity of the centre of mass stay, and the reported centre of mass moves uniformly |
| `Rotors.TimesIsAssociative` | core/src/math/rotor3d.cpp:24-37 | the product of rotors is associative |
| `Rotors.NormOfTimes` | core/src/math/rotor3d.cpp:41 | the squared norm of a product is the product of the squared norms |
| `Rotors.RotateIsSandwich` | core/src/math/rotor3d.cpp:58-69 | the rotation in its two steps with the trivector is the sandwich product |
| `Rotors.RotateByTimes` | core/src/math/rotor3d.cpp:58-69 | rotating by a product is rotating by its second factor and then by its first |
| `Rotors.RotateKeepsDot` | core/src/math/rotor3d.cpp:58-69 | rotating multiplies every inner product by the fourth power of the norm |
| `Rotors.ReverseUndoes` | core/src/math/rotor3d.cpp:56 | rotating by the reverse undoes a rotation, up to the fourth power of the norm |
| `Rotors.AxisIsKept` | core/src/math/rotor3d.cpp:58-69 | the normal of the plane of rotation is scaled by the squared norm and keeps its direction |
| `Rotors.TurnsTowardsFirst` | core/src/math/rotor3d.cpp:58-69 | in every coordinate plane a rotor with cosine and sine of an angle turns by twice that angle, from the second axis towards the first |
| `Rotors.UnitRotors` | core/src/math/rotor3d.cpp:41-69 | unit rotors keep inner products and so lengths, are undone by their reverse, and have unit products |
| `Rotors.Rotor3D.MultiplyBy` | core/src/math/rotor3d.cpp:24-37 | the in-place product, also of a rotor with itself |
| `Rotors.Rotor3D.Normalize` | core/src/math/rotor3d.cpp:45-54 | in place to unit norm; rotations are those of the old rotor over its squared norm |
| `Downsampling.Stretches` | app/src/core/charts/downsampling.h:28-44 | every bucket is non-empty and in bounds; the last one holds only the last point |
| `Downsampling.StretchesAreEven` | app/src/core/charts/downsampling.h:28-44 | the inner points are split as evenly as whole points allow: point k comes before bucket i if and only if its share of the inner points is at most the share of i buckets |
| `Downsampling.AverageIsBalanced` | app/src/core/charts/downsampling.h:46-58 | the deviations of the points of a stretch from its average cancel |
| `Downsampling.NoAreaIsCollinear` | app/src/core/charts/downsampling.h:70-71 | the area is zero if and only if the three points are on a line |
| `Downsampling.AreaMoves` | app/src/core/charts/downsampling.h:70-71 | moving all three points does not change it |
| `Downsampling.AreaSwaps` | app/src/core/charts/downsampling.h:70-71 | exchanging any two points does not change it |
| `Downsampling.AreaShears` | app/src/core/charts/downsampling.h:70-71 | moving the third point along the side of the first two does not change it |
| `Downsampling.AreaStretches` | app/src/core/charts/downsampling.h:70-71 | stretching a side stretches it by the same factor |
| `Downsampling.UnitTriangle` | app/src/core/charts/downsampling.h:70-71 | it is 1 for the unit right triangle, twice the area |
| `Downsampling.LargestTriangleThreeBuckets` | app/src/core/charts/downsampling.h:20-87 | returns all points, or exactly the wanted number: the first point, from every bucket the first of the largest triangles with the last pick and the average of the stretch before, and the last point |
| `Downsampling.SampledInOrder` | app/src/core/charts/downsampling.h:30-84 | the picked indices start at 0 and strictly increase, except that the last two are both the last index |
| `Downsampling.PicksAreUnique` | app/src/core/charts/downsampling.h:35-81 | what is picked is determined by the points and the wanted number |
| `Storage.BlockingQueue.PushBlocking` | app/src/core/dataflow/blocking_queue.h:16-25 | appends, keeping the bound; waits, with nothing changed, exactly when the queue is full |
| `Storage.BlockingQueue.PopBlocking` | app/src/core/dataflow/blocking_queue.h:31-44 | removes the first item; waits exactly when there is none |
| `Storage.MemoryPool.Create` | app/src/core/dataflow/memory_pool.h:36-40 | an empty pool is refused; otherwise every buffer is free |
| `Storage.MemoryPool.Acquire` | app/src/core/dataflow/memory_pool.h:59-70 | the longest free buffer goes from the free to the held ones, every buffer is one or the other, once; waits exactly when none is free |
| `Storage.MemoryPool.ReturnBuffer` | app/src/core/dataflow/memory_pool.h:82-88 | a held buffer becomes the last of the free ones |
| `Storage.QueueStorageWorker.Run` | app/src/workers/queue_storage_worker.h:47-56 | saves what lies before the first sentinel, in order, and leaves what lies after it; without a sentinel it saves everything and waits for more |
| `Storage.QueueStorageWorker.Abort` | app/src/workers/queue_storage_worker.h:62-65 | puts a sentinel behind everything that waits in the queue; waits itself exactly when the queue is full |
| `Storage.SentinelSplits` | app/src/workers/queue_storage_worker.h:49-53 | a queue with a sentinel is what comes before the first one, the sentinel, and the rest |
| `StoragePipeline.RunKeepsInv` | app/src/core/dataflow/memory_pool.h:59-88 | in every interleaving every snapshot object is free once or referenced, never both, the queue is bounded, and everything pushed is what left the queue followed by what it holds |
| `StoragePipeline.FillKeepsOrder` | app/src/core/dataflow/memory_pool.h:59-70 | setting data reference and time of a snapshot object that has one holder changes nothing that is queued or being saved |
| `StoragePipeline.FreedKeepsOrder` | app/src/core/dataflow/memory_pool.h:66-69 | resetting a snapshot object with its last reference changes nothing that is queued or being saved |
| `StoragePipeline.SavedInOrder` | app/src/workers/queue_storage_worker.h:47-56 | at every moment the worker has saved a prefix of what was pushed: the same data references and times, in order |
| `StoragePipeline.FinishedHasSaved` | app/src/workers/queue_storage_worker.h:47-65 | a worker that has finished has saved exactly the data references and times that were pushed before the first sentinel, in order |

## Left out

- BarnesHut.BarnesHutNode.InsertRecursive: nothing is said of an insertion that does not end. The perturbation takes the
  edge of the cell where the source takes the root of its square.
- Coincident.BuildGoesOn: a particle that arrives when particles before it already coincide. Their leaves need not hold
  them in their cubes, and nothing shorter than the calls themselves decides whether its insertion ends.
- TreeAgainstDirect.SmallThetaFeelsOthers: coincident particles, for the same reason: a cell need not enclose what it
  holds.
- BarnesHut.BarnesHutNode.SumForcesRecursive: a particle without softened distance from the target, where the source
  divides by zero. Its settings demand a positive softening.
- BarnesHutLeapfrog.BarnesHutLeapfrogSimulator.constructor: initial systems that cannot be scaled, and trees whose
  building does not end.
- Floating-point rounding, NaN and infinity, apart from the acceptance test at zero distance.
- Leapfrog.LeapfrogSimulator.constructor: initial systems that cannot be scaled are excluded, here and in the other two
  simulators: without mass or energy, or with a pair without softened distance, the source divides by zero.
- Leapfrog.LeapfrogSimulator.StepOnce: buffers are values; which of them is written again later is the subject of
  `HandOver`. A stop request is assumed not to be set.
- Hits.HitsSimulator.constructor: a second initialization of the same simulator, which does not clear the schedule.
- Hits.CalculateAccJrk: a pair without distance gets an unspecified value, where the source gets an infinite one.
- Jerk.JerkIsRate: rates are those of the product rule, not limits.
- Replay.RunKeepsInv: the fullness tests of a forward and of a backward step are each one step with the move of the
  cursor that follows. Requests for jumps and backward steps are arbitrary in these runs; the counters of requests and
  the order of the loop are there in the runs that go wrong (`Replay.FillingTheLastSlotRepeats`).
- BufferWorker.SystemBufferWorker.StepForward: stated for a worker that no reader disturbs within the step;
  interleavings are the subject of `Replay`.
- SnapshotFile.IndexReadsBack: files that the writer produced; for any other file see `SnapshotIndex.IndexHoldsLastRuns`
  and `SnapshotIndex.ReadingTakesLines`. Times are non-negative, because -1 marks the start of the indexing loop.
- SnapshotStream.SystemSnapshotStream.GetSnapshotAtFraction: nothing is promised of an initialized stream with an empty
  index. A file with a header alone makes one (`SnapshotFile.HeaderAlone`); the source computes the number of entries
  less one without a sign, and the iterator leaves the index.
- Rotors.Rotor3D.Normalize: a zero rotor is excluded; the source divides by its norm. The constructor from an angle is
  left out, as trigonometric functions are.
- HenonUnits.SystemData.GetPotentialEnergy: pairs without softened distance are excluded; the source warns of them.
- HenonUnits.SystemData.ScaleToHenonUnits: non-positive mass or energy is excluded; the source would divide by zero or
  take the root of a negative number.
- Storage.QueueStorageWorker.Run: where the source waits, the call returns and says so; waiting is calling again. The
  interleaving with other threads is `StoragePipeline`.
- StoragePipeline.SavedInOrder: the particle data behind a reference. The simulators may write to it while the snapshot
  is queued (`HandOver.OverwrittenTwoStepsLater`). The same holds for `FinishedHasSaved`.
- StoragePipeline.RunKeepsInv: a snapshot object is filled only by a thread that holds its one reference, as the
  simulation worker does. Wake-ups of condition variables and progress are not modelled.
- Closing of files, logging, threads, and the user interface.
- The generators, the shared-step Hermite simulator apart from its corrected velocity, the Euler simulator, settings,
  factories and the diagnostics writer: they would only add easy members.
