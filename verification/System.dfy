/** Systems of particles: parallel sequences, one entry per particle. */
module Systems {
  import opened Vectors

  /** What forces depend on. */
  datatype Bodies = Bodies(positions: seq<Vec>, masses: seq<real>) {
    predicate Valid() { |masses| == |positions| }

    function Count(): nat { |positions| }
  }

  datatype System = System(positions: seq<Vec>, velocities: seq<Vec>, masses: seq<real>) {
    predicate Valid() { |velocities| == |positions| && |masses| == |positions| }

    function Count(): nat { |positions| }

    function Matter(): Bodies { Bodies(positions, masses) }
  }

  ghost predicate NonNegativeMasses(sys: Bodies) { forall m :: m in sys.masses ==> m >= 0.0 }

  ghost predicate PositiveMasses(sys: Bodies) { forall i :: 0 <= i < |sys.masses| ==> sys.masses[i] > 0.0 }

  /** The indices of the first `n` particles. */
  ghost function All(n: int): (s: set<nat>)
    ensures forall i: nat :: i in s <==> i < n
  {
    if n <= 0 then {} else All(n - 1) + {n - 1}
  }

  /** Every particle's mass times position, with its mass. */
  ghost function Moments(sys: Bodies): (r: seq<Term>)
    requires sys.Valid()
    ensures |r| == sys.Count()
  {
    seq(sys.Count(), i requires 0 <= i < sys.Count() => Term(Scale(sys.positions[i], sys.masses[i]), sys.masses[i]))
  }
}
