/** When insertion into the octree ends. */
module Coincident {
  import opened Options
  import opened Vectors
  import opened Systems
  import opened Octree
  import opened Insertion
  import opened TreeField

  // ---- a leaf, and a second particle that compares equal to its particle ----

  ghost predicate Coincide(sys: Bodies, i: nat, j: nat) {
    i < sys.Count() && j < sys.Count() && NearlyEqual(sys.positions[j], sys.positions[i])
  }

  /** Particle `i` shifted by `t` on the axis of its perturbation. */
  ghost function Displaced(sys: Bodies, i: nat, t: real): Vec
    requires i < sys.Count()
  {
    Shifted(sys.positions[i], i % 3, t)
  }

  lemma LeafFits(b: Box, j: nat, sys: Bodies)
    requires j < sys.Count()
    ensures Fits(Leaf(b, j), sys)
  {
  }

  /** Two points that compare equal do so until one is shifted by the tolerance beyond the other. */
  lemma ShiftsAdd(q: Vec, p: Vec, axis: nat, t: real, d: real)
    requires NearlyEqual(q, p) && axis < 3
    ensures Shifted(Shifted(p, axis, t), axis, d) == Shifted(p, axis, t + d)
    ensures Shifted(p, axis, 0.0) == p
    ensures t >= 0.0 ==> (NearlyEqual(q, Shifted(p, axis, t)) <==> Along(p, axis) + t < Along(q, axis) + EPSILON)
  {
  }

  /** While the particles compare equal, the new one is shifted further. */
  lemma ShiftsOn(b: Box, i: nat, j: nat, sys: Bodies, t: real, fuel: nat)
    requires Coincide(sys, i, j) && NearlyEqual(sys.positions[j], Displaced(sys, i, t))
    ensures Fits(Leaf(b, j), sys)
    ensures Insert(Leaf(b, j), i, Displaced(sys, i, t), sys, fuel + 1)
      == Insert(Leaf(b, j), i, Displaced(sys, i, t + Perturbation(b)), sys, fuel)
  {
    LeafFits(b, j, sys);
    ShiftsAdd(sys.positions[j], sys.positions[i], i % 3, t, Perturbation(b));
  }

  /** `n` times a length. */
  function Times(n: nat, d: real): real { n as real * d }

  /** How far `n` shifts go. */
  function Shifts(b: Box, n: nat): real { Times(n, Perturbation(b)) }

  /** Short of a thousandth, counted in edges of the cell; in a cell without extent, no shift at all. */
  predicate FewShifts(b: Box, n: nat) { if Edge(b) > 0.0 then Times(n, Edge(b)) < 0.001 else n == 0 }

  lemma TimesScaled(n: nat, d: real, s: real)
    ensures Times(n, d * s) == Times(n, d) * s
  {
  }

  lemma TimesGrows(n: nat, d: real)
    requires d >= 0.0
    ensures Times(n, d) >= 0.0
    ensures n > 0 ==> Times(n, d) == Times(n - 1, d) + d
    ensures Times(0, d) == 0.0
  {
    ProductNonNegative(n as real, d);
  }

  lemma FewShiftsStayNear(b: Box, n: nat)
    requires Edge(b) >= 0.0
    ensures Shifts(b, n) >= 0.0
    ensures Shifts(b, n) < EPSILON <==> FewShifts(b, n)
  {
    TimesGrows(n, Perturbation(b));
    TimesScaled(n, Edge(b), 0.000001);
    if n > 0 {
      TimesGrows(n - 1, Perturbation(b));
    }
  }

  /** Two particles at one point compare equal for so long. */
  lemma EqualForFewShifts(b: Box, i: nat, j: nat, sys: Bodies, n: nat)
    requires i < sys.Count() && j < sys.Count() && sys.positions[i] == sys.positions[j] && Edge(b) >= 0.0
    ensures NearlyEqual(sys.positions[j], Displaced(sys, i, Shifts(b, n))) <==> FewShifts(b, n)
  {
    FewShiftsStayNear(b, n);
    ShiftsAdd(sys.positions[j], sys.positions[i], i % 3, Shifts(b, n), 0.0);
  }

  lemma FewerShifts(b: Box, n: nat)
    requires n > 0 && FewShifts(b, n) && Edge(b) >= 0.0
    ensures FewShifts(b, n - 1)
  {
    TimesGrows(n, Edge(b));
  }

  /** So insertion of the second into the leaf of the first shifts it on, call by call, until the shifts have come that far. */
  lemma {:induction false} ShiftsUntilThousandth(b: Box, i: nat, j: nat, sys: Bodies, n: nat, fuel: nat)
    requires i < sys.Count() && j < sys.Count() && sys.positions[i] == sys.positions[j] && Edge(b) >= 0.0
    requires n > 0 ==> FewShifts(b, n - 1)
    ensures Fits(Leaf(b, j), sys)
    ensures Insert(Leaf(b, j), i, sys.positions[i], sys, fuel + n)
      == Insert(Leaf(b, j), i, Displaced(sys, i, Shifts(b, n)), sys, fuel)
  {
    LeafFits(b, j, sys);
    if n == 0 {
      ShiftsAdd(sys.positions[j], sys.positions[i], i % 3, 0.0, 0.0);
    } else {
      if n > 1 {
        FewerShifts(b, n - 1);
      }
      TimesGrows(n, Perturbation(b));
      EqualForFewShifts(b, i, j, sys, n - 1);
      EqualForFewShifts(b, i, j, sys, 0);
      ShiftsUntilThousandth(b, i, j, sys, n - 1, fuel + 1);
      ShiftsOn(b, i, j, sys, Shifts(b, n - 1), fuel);
    }
  }

  /** From there, insertion into the leaf ends within `fuel` calls. */
  ghost predicate Reaches(b: Box, i: nat, j: nat, sys: Bodies, t: real, fuel: nat)
    requires i < sys.Count() && j < sys.Count()
  {
    LeafFits(b, j, sys);
    Insert(Leaf(b, j), i, Displaced(sys, i, t), sys, fuel).Some?
  }

  /** The child that a point lies in. */
  ghost function Next(b: Box, q: Vec): Box { ChildBox(b, OctantIndex(q, Center(b))) }

  lemma OldGoesDown(b: Box, j: nat, sys: Bodies, fuel: nat, k: nat, d: Cell)
    requires j < sys.Count() && fuel > 1 && k < 8
    requires d == Cell(b, ZERO, 0.0, 1, j, NoChildren()[k := Leaf(ChildBox(b, k), j)])
    ensures Fits(Leaf(b, j), sys) && Descend(Leaf(b, j), k, j, sys, fuel) == Some(d)
    ensures FitsBelow(d, sys) && FitsBelow(d.(particleIndex := NO_PARTICLE), sys)
  {
    LeafFits(b, j, sys);
    LeafFits(ChildBox(b, k), j, sys);
    var child := EmptyCell(ChildBox(b, k));
    assert Insert(child, j, sys.positions[j], sys, fuel - 1) == Some(Leaf(ChildBox(b, k), j));
    DescendsInto(Leaf(b, j), k, j, sys, fuel, child, Leaf(ChildBox(b, k), j), NoChildren()[k := Leaf(ChildBox(b, k), j)]);
  }

  lemma NewGoesDown(c: Cell, b: Box, i: nat, j: nat, sys: Bodies, fuel: nat, k: nat, l: nat)
    requires i < sys.Count() && j < sys.Count() && fuel > 1 && k < 8 && l < 8
    requires c == Cell(b, ZERO, 0.0, 1, NO_PARTICLE, NoChildren()[k := Leaf(ChildBox(b, k), j)])
    ensures FitsBelow(c, sys) && Fits(Leaf(ChildBox(b, k), j), sys)
    ensures Descend(c, l, i, sys, fuel).Some? <==>
      l != k || Insert(Leaf(ChildBox(b, k), j), i, sys.positions[i], sys, fuel - 1).Some?
  {
    LeafFits(ChildBox(b, k), j, sys);
  }

  /** Once they differ, the leaf is subdivided, and insertion goes on only if both particles have the same octant. */
  lemma PartsOrGoesOn(b: Box, i: nat, j: nat, sys: Bodies, t: real, fuel: nat)
    requires Coincide(sys, i, j) && !NearlyEqual(sys.positions[j], Displaced(sys, i, t))
    ensures Fits(Leaf(b, j), sys) && Fits(Leaf(Next(b, sys.positions[j]), j), sys)
    ensures Insert(Leaf(b, j), i, Displaced(sys, i, t), sys, fuel).Some? <==>
      fuel > 1 && (OctantIndex(sys.positions[j], Center(b)) != OctantIndex(Displaced(sys, i, t), Center(b)) ||
                   Insert(Leaf(Next(b, sys.positions[j]), j), i, sys.positions[i], sys, fuel - 1).Some?)
  {
    var q, pos := sys.positions[j], Displaced(sys, i, t);
    var k, l := OctantIndex(q, Center(b)), OctantIndex(pos, Center(b));
    LeafFits(b, j, sys);
    LeafFits(Next(b, q), j, sys);
    if fuel > 1 {
      var d := Cell(b, ZERO, 0.0, 1, j, NoChildren()[k := Leaf(ChildBox(b, k), j)]);
      OldGoesDown(b, j, sys, fuel, k, d);
      NewGoesDown(d.(particleIndex := NO_PARTICLE), b, i, j, sys, fuel, k, l);
    }
  }

  lemma NextHolds(b: Box, q: Vec)
    requires Cube(b) && InBox(q, b)
    ensures Cube(Next(b, q)) && InBox(q, Next(b, q)) && Edge(Next(b, q)) == Edge(b) / 2.0
  {
    ChildBoxHalves(b, OctantIndex(q, Center(b)));
    ChildBoxContains(b, q);
  }

  /** Where the faces of a cell and of the child that a point lies in are on an axis. */
  lemma Faces(b: Box, q: Vec, axis: nat)
    requires Cube(b) && InBox(q, b) && axis < 3
    ensures Along(Next(b, q).max, axis) ==
      if Along(q, axis) > Along(Center(b), axis) then Along(b.max, axis) else Along(Center(b), axis)
    ensures Along(Center(b), axis) == Along(b.max, axis) - Edge(b) / 2.0
    ensures Along(b.max, axis) - Edge(b) <= Along(q, axis) <= Along(b.max, axis)
  {
  }

  // ---- when it does not end ----

  /** On some other axis than this, the points differ. */
  ghost predicate DifferBeside(q: Vec, p: Vec, axis: nat) {
    exists k :: 0 <= k < 3 && k != axis && Along(q, k) != Along(p, k)
  }

  lemma SameOctant(q: Vec, p: Vec, axis: nat, t: real, center: Vec)
    requires axis < 3 && !DifferBeside(q, p, axis)
    requires Along(q, axis) > Along(center, axis) && Along(p, axis) + t > Along(center, axis)
    ensures OctantIndex(q, center) == OctantIndex(Shifted(p, axis, t), center)
  {
    assert forall k :: 0 <= k < 3 && k != axis ==> Along(q, k) == Along(p, k);
    assert axis != 0 ==> Along(q, 0) == Along(p, 0);
    assert axis != 1 ==> Along(q, 1) == Along(p, 1);
    assert axis != 2 ==> Along(q, 2) == Along(p, 2);
  }

  /** With the particle in the leaf on its upper face, and the new one beside it on no other axis, both are moved down
      together, and it is on the upper face again. */
  lemma {:induction false} NeverEnds(b: Box, i: nat, j: nat, sys: Bodies, t: real, fuel: nat)
    requires Coincide(sys, i, j) && Cube(b) && InBox(sys.positions[j], b) && Edge(b) > 0.0 && t >= 0.0
    requires Along(sys.positions[j], i % 3) == Along(b.max, i % 3)
    requires !DifferBeside(sys.positions[j], sys.positions[i], i % 3)
    ensures Fits(Leaf(b, j), sys) && Insert(Leaf(b, j), i, Displaced(sys, i, t), sys, fuel).None?
    decreases fuel
  {
    var q, p, axis := sys.positions[j], sys.positions[i], i % 3;
    LeafFits(b, j, sys);
    ShiftsAdd(q, p, axis, t, 0.0);
    if fuel > 0 {
      if NearlyEqual(q, Displaced(sys, i, t)) {
        ShiftsOn(b, i, j, sys, t, fuel - 1);
        NeverEnds(b, i, j, sys, t + Perturbation(b), fuel - 1);
      } else {
        NextHolds(b, q);
        Faces(b, q, axis);
        SameOctant(q, p, axis, t, Center(b));
        PartsOrGoesOn(b, i, j, sys, t, fuel);
        NeverEnds(Next(b, q), i, j, sys, 0.0, fuel - 1);
      }
    }
  }

  // ---- when it ends ----

  lemma HalfOfPower(n: nat, m: real, e: real)
    requires n > 0 && e <= Power2(n) * m
    ensures e / 2.0 <= Power2(n - 1) * m
  {
    assert Power2(n) * m == 2.0 * (Power2(n - 1) * m);
  }

  /** `n` halvings bring the edge `e` down to `m`, and `x` is that far below the upper face `max`. */
  ghost predicate Below(x: real, max: real, e: real, m: real, n: nat) {
    0.0 < m <= EPSILON && x + m <= max && e <= Power2(n) * m
  }

  /** `n` halvings bring the edge `e` down to `m`, and `x` and `y` in the cell are that far apart. */
  ghost predicate Across(x: real, y: real, max: real, e: real, m: real, n: nat) {
    && 0.0 < m && e <= Power2(n) * m && (x + m <= y || y + m <= x)
    && max - e <= x <= max && max - e <= y <= max
  }

  /** With centre `c`: in the child that both may go to, one halving less is left. */
  lemma StaysBelow(x: real, c: real, max: real, e: real, m: real, n: nat)
    requires Below(x, max, e, m, n) && c == max - e / 2.0 && max - e <= x && (x > c || x + EPSILON <= c)
    ensures n > 0 && Below(x, if x > c then max else c, e / 2.0, m, n - 1)
  {
    assert e > m;
    assert n > 0;
    HalfOfPower(n, m, e);
  }

  lemma StaysAcross(x: real, y: real, c: real, max: real, e: real, m: real, n: nat)
    requires Across(x, y, max, e, m, n) && c == max - e / 2.0 && (x > c <==> y > c)
    ensures n > 0 && Across(x, y, if x > c then max else c, e / 2.0, m, n - 1)
  {
    assert e > m;
    assert n > 0;
    HalfOfPower(n, m, e);
  }

  /** What halving uses up on axis `k`. */
  ghost predicate Parting(b: Box, q: Vec, p: Vec, axis: nat, k: nat, m: real, n: nat) {
    if k == axis then Below(Along(q, k), Along(b.max, k), Edge(b), m, n)
    else Across(Along(q, k), Along(p, k), Along(b.max, k), Edge(b), m, n)
  }

  /** Once they differ, both particles might go to the same octant, as far as axis `k` decides. */
  ghost predicate MayStay(b: Box, q: Vec, p: Vec, axis: nat, k: nat) {
    var c := Along(Center(b), k);
    if k == axis then Along(q, k) > c || Along(q, k) + EPSILON <= c else Along(q, k) > c <==> Along(p, k) > c
  }

  lemma SameOctantStays(b: Box, q: Vec, p: Vec, axis: nat, k: nat, t: real)
    requires axis < 3 && k < 3 && OctantIndex(q, Center(b)) == OctantIndex(Shifted(p, axis, t), Center(b))
    requires Along(p, axis) + t >= Along(q, axis) + EPSILON
    ensures MayStay(b, q, p, axis, k)
  {
  }

  lemma Enough(d: real, x: real) returns (n: nat)
    requires d > 0.0
    ensures n as real * d >= x
  {
    if x <= 0.0 {
      n := 0;
    } else {
      var r := x / d;
      assert r * d == x;
      if r < 0.0 {
        ProductNonNegative(-r, d);
      }
      n := r.Floor + 1;
      ProductMonotone(r, n as real, d);
    }
  }

  /** The particles differ; `rest` is the fuel that the child needs. */
  lemma PartsWith(b: Box, i: nat, j: nat, sys: Bodies, k: nat, t: real, rest: nat)
    requires Coincide(sys, i, j) && k < 3 && t >= 0.0 && rest >= 1
    requires !NearlyEqual(sys.positions[j], Displaced(sys, i, t))
    requires MayStay(b, sys.positions[j], sys.positions[i], i % 3, k) ==>
      Reaches(Next(b, sys.positions[j]), i, j, sys, 0.0, rest)
    ensures Reaches(b, i, j, sys, t, rest + 1)
  {
    var q, p, axis := sys.positions[j], sys.positions[i], i % 3;
    ShiftsAdd(q, p, axis, t, 0.0);
    ShiftsAdd(q, p, axis, 0.0, 0.0);
    if OctantIndex(q, Center(b)) == OctantIndex(Displaced(sys, i, t), Center(b)) {
      SameOctantStays(b, q, p, axis, k, t);
    }
    PartsOrGoesOn(b, i, j, sys, t, rest + 1);
  }

  lemma PerturbationPositive(b: Box)
    ensures Perturbation(b) > 0.0
  {
  }

  /** From `t`, so many steps of `d` go as far as particles that compare equal can be apart. */
  ghost predicate FarEnough(steps: nat, d: real, t: real) { steps as real * d >= EPSILON + EPSILON - t }

  lemma OneStepLess(steps: nat, d: real, t: real)
    requires FarEnough(steps, d, t) && t < EPSILON + EPSILON
    ensures steps > 0 && FarEnough(steps - 1, d, t + d)
  {
    assert steps > 0;
    assert steps as real * d == (steps - 1) as real * d + d;
  }

  lemma ReachesOn(b: Box, i: nat, j: nat, sys: Bodies, t: real, fuel: nat)
    requires Coincide(sys, i, j) && NearlyEqual(sys.positions[j], Displaced(sys, i, t))
    requires Reaches(b, i, j, sys, t + Perturbation(b), fuel)
    ensures Reaches(b, i, j, sys, t, fuel + 1)
  {
    ShiftsOn(b, i, j, sys, t, fuel);
  }

  /** Shifted often enough, the particles differ. */
  lemma {:induction false} ShiftsUntil(b: Box, i: nat, j: nat, sys: Bodies, k: nat, t: real, steps: nat, rest: nat)
    returns (fuel: nat)
    requires Coincide(sys, i, j) && k < 3 && t >= 0.0 && rest >= 1
    requires FarEnough(steps, Perturbation(b), t)
    requires MayStay(b, sys.positions[j], sys.positions[i], i % 3, k) ==>
      Reaches(Next(b, sys.positions[j]), i, j, sys, 0.0, rest)
    ensures Reaches(b, i, j, sys, t, fuel)
    decreases steps
  {
    if NearlyEqual(sys.positions[j], Displaced(sys, i, t)) {
      StillClose(sys.positions[j], sys.positions[i], i % 3, t);
      OneStepLess(steps, Perturbation(b), t);
      PerturbationPositive(b);
      var more := ShiftsUntil(b, i, j, sys, k, t + Perturbation(b), steps - 1, rest);
      ReachesOn(b, i, j, sys, t, more);
      fuel := more + 1;
    } else {
      fuel := rest + 1;
      PartsWith(b, i, j, sys, k, t, rest);
    }
  }

  lemma StillClose(q: Vec, p: Vec, axis: nat, t: real)
    requires NearlyEqual(q, p) && NearlyEqual(q, Shifted(p, axis, t)) && axis < 3
    ensures t < EPSILON + EPSILON
  {
  }

  lemma StaysParting(b: Box, q: Vec, p: Vec, axis: nat, k: nat, m: real, n: nat)
    requires Cube(b) && InBox(q, b) && k < 3 && Parting(b, q, p, axis, k, m, n) && MayStay(b, q, p, axis, k)
    ensures n > 0 && Parting(Next(b, q), q, p, axis, k, m, n - 1)
  {
    NextHolds(b, q);
    Faces(b, q, k);
    if k == axis {
      StaysBelow(Along(q, k), Along(Center(b), k), Along(b.max, k), Edge(b), m, n);
    } else {
      StaysAcross(Along(q, k), Along(p, k), Along(Center(b), k), Along(b.max, k), Edge(b), m, n);
    }
  }

  /** So the particles part. */
  lemma {:induction false} PartWithin(b: Box, i: nat, j: nat, sys: Bodies, k: nat, m: real, n: nat) returns (fuel: nat)
    requires Coincide(sys, i, j) && Cube(b) && InBox(sys.positions[j], b)
    requires k < 3 && Parting(b, sys.positions[j], sys.positions[i], i % 3, k, m, n)
    ensures Reaches(b, i, j, sys, 0.0, fuel)
    decreases n, 1
  {
    var rest := RestOf(b, i, j, sys, k, m, n);
    var steps := Enough(Perturbation(b), EPSILON + EPSILON);
    fuel := ShiftsUntil(b, i, j, sys, k, 0.0, steps, rest);
  }

  /** The fuel for the child that both may go to. */
  lemma {:induction false} RestOf(b: Box, i: nat, j: nat, sys: Bodies, k: nat, m: real, n: nat) returns (rest: nat)
    requires Coincide(sys, i, j) && Cube(b) && InBox(sys.positions[j], b)
    requires k < 3 && Parting(b, sys.positions[j], sys.positions[i], i % 3, k, m, n)
    ensures rest >= 1
    ensures MayStay(b, sys.positions[j], sys.positions[i], i % 3, k) ==>
      Reaches(Next(b, sys.positions[j]), i, j, sys, 0.0, rest)
    decreases n, 0
  {
    var q, p, axis := sys.positions[j], sys.positions[i], i % 3;
    rest := 1;
    if MayStay(b, q, p, axis, k) {
      NextHolds(b, q);
      StaysParting(b, q, p, axis, k, m, n);
      rest := PartWithin(Next(b, q), i, j, sys, k, m, n - 1);
    }
  }

  lemma {:induction false} PowerAtLeast(n: nat)
    ensures Power2(n) >= n as real
  {
    if n > 0 {
      PowerAtLeast(n - 1);
    }
  }

  // ---- exactly when ----

  /** There is room in a leaf on `b` for particle `i` beside `j`: they do not compare equal, or the leaf has no extent,
      or `j` is below its upper face on the axis of the perturbation of `i`, or they differ on another axis. */
  ghost predicate RoomBeside(b: Box, i: nat, j: nat, sys: Bodies)
    requires i < sys.Count() && j < sys.Count()
  {
    || !NearlyEqual(sys.positions[j], sys.positions[i])
    || Edge(b) == 0.0
    || Along(sys.positions[j], i % 3) < Along(b.max, i % 3)
    || DifferBeside(sys.positions[j], sys.positions[i], i % 3)
  }

  /** A particle that compares equal to the one in a leaf: perturbing, subdividing and descending end exactly when
      there is room. */
  lemma LeafEnds(b: Box, i: nat, j: nat, sys: Bodies)
    requires Coincide(sys, i, j) && Cube(b) && InBox(sys.positions[j], b) && InBox(sys.positions[i], b)
    ensures Fits(Leaf(b, j), sys)
    ensures Ends(Leaf(b, j), i, sys) <==> RoomBeside(b, i, j, sys)
  {
    var q, p, axis := sys.positions[j], sys.positions[i], i % 3;
    LeafFits(b, j, sys);
    Faces(b, q, axis);
    if Edge(b) == 0.0 {
      PointLeafEnds(b, i, j, sys);
    } else if Along(q, axis) < Along(b.max, axis) {
      var m, n := HowFar(Min(EPSILON, Along(b.max, axis) - Along(q, axis)), Edge(b));
      var fuel := PartWithin(b, i, j, sys, axis, m, n);
      ReachesEnd(b, i, j, sys, fuel);
    } else if DifferBeside(q, p, axis) {
      var k :| 0 <= k < 3 && k != axis && Along(q, k) != Along(p, k);
      var m, n := HowFar(Abs(Along(q, k) - Along(p, k)), Edge(b));
      Faces(b, p, k);
      var fuel := PartWithin(b, i, j, sys, k, m, n);
      ReachesEnd(b, i, j, sys, fuel);
    } else {
      FaceLeafDoesNot(b, i, j, sys);
    }
  }

  lemma ReachesEnd(b: Box, i: nat, j: nat, sys: Bodies, fuel: nat)
    requires Coincide(sys, i, j) && Reaches(b, i, j, sys, 0.0, fuel)
    ensures Fits(Leaf(b, j), sys) && Ends(Leaf(b, j), i, sys)
  {
    LeafFits(b, j, sys);
    ShiftsAdd(sys.positions[j], sys.positions[i], i % 3, 0.0, 0.0);
    assert Insert(Leaf(b, j), i, sys.positions[i], sys, fuel).Some?;
  }

  lemma HowFar(d: real, e: real) returns (m: real, n: nat)
    requires d > 0.0
    ensures m == d && e <= Power2(n) * m
  {
    m := d;
    n := Enough(m, e);
    PowerAtLeast(n);
    ProductMonotone(n as real, Power2(n), m);
  }

  lemma PointLeafEnds(b: Box, i: nat, j: nat, sys: Bodies)
    requires Coincide(sys, i, j) && Cube(b) && InBox(sys.positions[j], b) && InBox(sys.positions[i], b) && Edge(b) == 0.0
    ensures Fits(Leaf(b, j), sys) && Ends(Leaf(b, j), i, sys)
  {
    var q, p, axis := sys.positions[j], sys.positions[i], i % 3;
    Faces(b, q, axis);
    Faces(b, p, axis);
    ShiftsAdd(q, p, axis, 0.0, 0.0);
    ShiftsAdd(q, p, axis, EPSILON, 0.0);
    ShiftsOn(b, i, j, sys, 0.0, 2);
    PartsOrGoesOn(b, i, j, sys, EPSILON, 2);
    assert Insert(Leaf(b, j), i, p, sys, 3).Some?;
  }

  lemma FaceLeafDoesNot(b: Box, i: nat, j: nat, sys: Bodies)
    requires Coincide(sys, i, j) && Cube(b) && InBox(sys.positions[j], b) && Edge(b) > 0.0
    requires Along(sys.positions[j], i % 3) == Along(b.max, i % 3)
    requires !DifferBeside(sys.positions[j], sys.positions[i], i % 3)
    ensures Fits(Leaf(b, j), sys) && !Ends(Leaf(b, j), i, sys)
  {
    LeafFits(b, j, sys);
    ShiftsAdd(sys.positions[j], sys.positions[i], i % 3, 0.0, 0.0);
    forall fuel: nat ensures Insert(Leaf(b, j), i, sys.positions[i], sys, fuel).None? {
      NeverEnds(b, i, j, sys, 0.0, fuel);
    }
  }

  // ---- anywhere in a tree ----

  /** The leaf below `b` in which a point lies: its cube and its particle, if there is one. */
  ghost function LeafAt(b: Box, s: set<nat>, sys: Bodies, p: Vec): (r: (Box, set<nat>))
    requires Placed(b, s, sys)
    ensures r.1 <= s && |r.1| <= 1 && Placed(r.0, r.1, sys)
    decreases Levels(Edge(b))
  {
    if |s| <= 1 then (b, s)
    else
      var k := OctantIndex(p, Center(b));
      TwoParticlesNeedRoom(b, s, sys);
      PlacedInOctant(b, s, sys, k);
      ChildUsesLevel(b, k);
      LeafAt(ChildBox(b, k), InOctant(b, s, sys, k), sys, p)
  }

  /** There is room for particle `i` in a leaf. */
  ghost predicate RoomIn(leaf: (Box, set<nat>), i: nat, sys: Bodies)
    requires i < sys.Count() && forall j :: j in leaf.1 ==> j < sys.Count()
  {
    forall j :: j in leaf.1 ==> RoomBeside(leaf.0, i, j, sys)
  }

  lemma OneCallDown(c: Cell, i: nat, sys: Bodies, k: nat, fuel: nat)
    requires i < sys.Count() && Fits(c, sys) && c.numParticles > 1 && fuel > 0
    requires k == OctantIndex(sys.positions[i], Center(c.box)) && |c.children| == 8 && c.children[k].Cell?
    ensures Fits(c.children[k], sys)
    ensures Insert(c, i, sys.positions[i], sys, fuel).Some? <==>
      Insert(c.children[k], i, sys.positions[i], sys, fuel - 1).Some?
  {
    assert FitsBelow(c, sys);
    assert Insert(c, i, sys.positions[i], sys, fuel) == InsertBelow(c, i, sys.positions[i], sys, fuel);
    assert InsertBelow(c, i, sys.positions[i], sys, fuel).Some? <==> Descend(c, k, i, sys, fuel).Some?;
  }

  /** Insertion into a cell ends exactly when insertion into the child ends. */
  lemma EndsBelow(c: Cell, i: nat, sys: Bodies, k: nat)
    requires i < sys.Count() && Fits(c, sys) && c.numParticles > 1
    requires k == OctantIndex(sys.positions[i], Center(c.box)) && |c.children| == 8 && c.children[k].Cell?
    ensures Fits(c.children[k], sys) && (Ends(c, i, sys) <==> Ends(c.children[k], i, sys))
  {
    OneCallDown(c, i, sys, k, 1);
    if Ends(c.children[k], i, sys) {
      var fuel: nat :| Insert(c.children[k], i, sys.positions[i], sys, fuel).Some?;
      OneCallDown(c, i, sys, k, fuel + 1);
    }
    if Ends(c, i, sys) {
      var fuel: nat :| Insert(c, i, sys.positions[i], sys, fuel).Some?;
      OneCallDown(c, i, sys, k, fuel);
    }
  }

  lemma EmptyEnds(b: Box, i: nat, sys: Bodies)
    requires i < sys.Count()
    ensures Fits(EmptyCell(b), sys) && Ends(EmptyCell(b), i, sys)
  {
    assert FitsBelow(EmptyCell(b), sys);
    assert Insert(EmptyCell(b), i, sys.positions[i], sys, 1).Some?;
  }

  lemma UnequalEnds(b: Box, i: nat, j: nat, sys: Bodies)
    requires i < sys.Count() && j < sys.Count() && !NearlyEqual(sys.positions[j], sys.positions[i])
    requires Placed(b, {j}, sys) && InBox(sys.positions[i], b)
    ensures Fits(Leaf(b, j), sys) && Ends(Leaf(b, j), i, sys)
  {
    UnequalPointsNeedRoom(b, sys.positions[i], sys.positions[j]);
    InsertsAtLeaf(b, j, sys, i, Levels(Edge(b)) + 2);
  }

  /** The tree of one particle or none. */
  lemma SmallTreeEnds(b: Box, s: set<nat>, sys: Bodies, i: nat)
    requires Placed(b, s, sys) && |s| <= 1 && i < sys.Count() && InBox(sys.positions[i], b)
    ensures Fits(TreeOf(b, s, sys, false), sys)
    ensures Ends(TreeOf(b, s, sys, false), i, sys) <==> RoomIn((b, s), i, sys)
  {
    if s == {} {
      EmptyEnds(b, i, sys);
    } else {
      var j :| j in s;
      SingletonIsElement(s, j);
      TreeOfOne(b, s, sys, j);
      if NearlyEqual(sys.positions[j], sys.positions[i]) {
        LeafEnds(b, i, j, sys);
      } else {
        UnequalEnds(b, i, j, sys);
      }
    }
  }

  lemma MissingChildEnds(c: Cell, i: nat, sys: Bodies, k: nat)
    requires i < sys.Count() && Fits(c, sys) && c.numParticles > 1
    requires k == OctantIndex(sys.positions[i], Center(c.box)) && |c.children| == 8 && c.children[k].Null?
    ensures Ends(c, i, sys)
  {
    assert FitsBelow(c, sys);
    EmptyEnds(ChildBox(c.box, k), i, sys);
    assert Insert(EmptyCell(ChildBox(c.box, k)), i, sys.positions[i], sys, 1).Some?;
    assert Descend(c, k, i, sys, 2).Some?;
    assert InsertBelow(c, i, sys.positions[i], sys, 2).Some?;
    assert Insert(c, i, sys.positions[i], sys, 2).Some?;
  }

  /** Any particle in the root cube, into any reference tree: insertion ends if and only if there is room for it in the
      leaf that it reaches. */
  lemma {:induction false} InsertionEnds(b: Box, s: set<nat>, sys: Bodies, i: nat)
    requires Placed(b, s, sys) && i < sys.Count() && InBox(sys.positions[i], b)
    ensures Fits(TreeOf(b, s, sys, false), sys)
    ensures Ends(TreeOf(b, s, sys, false), i, sys) <==> RoomIn(LeafAt(b, s, sys, sys.positions[i]), i, sys)
    decreases Levels(Edge(b))
  {
    if |s| <= 1 {
      SmallTreeEnds(b, s, sys, i);
    } else {
      var c, k := TreeOf(b, s, sys, false), OctantIndex(sys.positions[i], Center(b));
      TreeFits(b, s, sys);
      CountMeaning(b, s, sys, false);
      TwoParticlesNeedRoom(b, s, sys);
      ChildBoxContains(b, sys.positions[i]);
      ChildUsesLevel(b, k);
      PlacedInOctant(b, s, sys, k);
      if InOctant(b, s, sys, k) == {} {
        MissingChildEnds(c, i, sys, k);
      } else {
        EndsBelow(c, i, sys, k);
        InsertionEnds(ChildBox(b, k), InOctant(b, s, sys, k), sys, i);
      }
    }
  }

  lemma OneMore(b: Box, sys: Bodies, n: nat, fuel: nat, c: Cell)
    requires n < sys.Count() && BuildUpTo(b, sys, n, fuel) == Some(c)
    ensures Fits(c, sys) && BuildUpTo(b, sys, n + 1, fuel) == Insert(c, n, sys.positions[n], sys, fuel)
  {
  }

  lemma NextEndsIf(b: Box, sys: Bodies, n: nat, enough: nat, c: Cell, fuel: nat)
    requires n < sys.Count() && BuildUpTo(b, sys, n, enough) == Some(c) && Fits(c, sys)
    requires Insert(c, n, sys.positions[n], sys, fuel).Some?
    ensures BuildUpTo(b, sys, n + 1, fuel + enough).Some?
  {
    BuildMoreFuel(b, sys, n, enough, fuel + enough);
    MoreFuel(c, n, sys.positions[n], sys, fuel, fuel + enough);
    OneMore(b, sys, n, fuel + enough, c);
  }

  lemma NextEndsOnlyIf(b: Box, sys: Bodies, n: nat, enough: nat, c: Cell, fuel: nat)
    requires n < sys.Count() && BuildUpTo(b, sys, n, enough) == Some(c) && BuildUpTo(b, sys, n + 1, fuel).Some?
    ensures Fits(c, sys) && Insert(c, n, sys.positions[n], sys, fuel).Some?
  {
    BuildEndsBefore(b, sys, n, n + 1, fuel);
    BuildMoreFuel(b, sys, n, enough, fuel + enough);
    BuildMoreFuel(b, sys, n, fuel, fuel + enough);
    OneMore(b, sys, n, fuel, c);
  }

  /** After the first `n` particles, the next one. */
  lemma NextEnds(b: Box, sys: Bodies, n: nat, enough: nat, c: Cell)
    requires n < sys.Count() && BuildUpTo(b, sys, n, enough) == Some(c)
    ensures Fits(c, sys) && (BuildGets(b, sys, n + 1) <==> Ends(c, n, sys))
  {
    if Ends(c, n, sys) {
      var fuel: nat :| Insert(c, n, sys.positions[n], sys, fuel).Some?;
      NextEndsIf(b, sys, n, enough, c, fuel);
    }
    if BuildGets(b, sys, n + 1) {
      var fuel: nat :| BuildUpTo(b, sys, n + 1, fuel).Some?;
      NextEndsOnlyIf(b, sys, n, enough, c, fuel);
    }
  }

  /** While building, at the first particle that may coincide with one before it: building goes on if and only if there
      is room for it in the leaf that it reaches. */
  lemma {:induction false} BuildGoesOn(b: Box, sys: Bodies, n: nat)
    requires Placed(b, All(n), sys) && n < sys.Count() && InBox(sys.positions[n], b)
    ensures BuildGets(b, sys, n + 1) <==> RoomIn(LeafAt(b, All(n), sys, sys.positions[n]), n, sys)
  {
    var c, enough := TreeOf(b, All(n), sys, false), Levels(Edge(b)) + 2;
    InsertionEnds(b, All(n), sys, n);
    BuildsUnequal(b, sys, n, enough);
    NextEnds(b, sys, n, enough, c);
  }

  /** A system in which only the last particle may coincide with another one: its tree can be built if and only if there is
      room for that particle. */
  lemma {:induction false} LastIsBuildable(sys: Bodies, n: nat)
    requires sys.Valid() && sys.Count() == n + 1
    requires forall i, j :: 0 <= i < n && 0 <= j < n && i != j ==> !NearlyEqual(sys.positions[i], sys.positions[j])
    ensures Placed(RootBox(sys), All(n), sys)
    ensures Buildable(sys) <==> RoomIn(LeafAt(RootBox(sys), All(n), sys, sys.positions[n]), n, sys)
  {
    RootEncloses(sys);
    BuildGoesOn(RootBox(sys), sys, n);
  }

  // Particles at -e, e and 0 on the first axis, and another one at 0.

  ghost predicate OnAxis(p: Vec, x: real) { p.x == x && p.y == 0.0 && p.z == 0.0 }

  ghost predicate InLine(sys: Bodies, e: real) {
    && sys.Valid() && sys.Count() == 4 && e >= EPSILON
    && OnAxis(sys.positions[0], -e) && OnAxis(sys.positions[1], e)
    && OnAxis(sys.positions[2], 0.0) && OnAxis(sys.positions[3], 0.0)
  }

  ghost function CubeAt(low: real, high: real): Box { Box(Vec(high, high, high), Vec(low, low, low)) }

  lemma CornersOfLine(sys: Bodies, e: real)
    requires InLine(sys, e)
    ensures OnAxis(Highest(sys.positions, 4), e) && OnAxis(Lowest(sys.positions, 4), -e)
  {
    assert OnAxis(Highest(sys.positions, 2), e) && OnAxis(Lowest(sys.positions, 2), -e);
    assert OnAxis(Highest(sys.positions, 3), e) && OnAxis(Lowest(sys.positions, 3), -e);
  }

  lemma EdgeOfLine(max: Vec, min: Vec, e: real)
    requires e >= 0.0 && OnAxis(max, e) && OnAxis(min, -e)
    ensures Edge(Box(max, min)) == e + e
  {
  }

  lemma CenterOfLine(max: Vec, min: Vec, e: real)
    requires OnAxis(max, e) && OnAxis(min, -e)
    ensures OnAxis(Scale(Add(max, min), 0.5), 0.0)
  {
  }

  lemma CubeOfLine(max: Vec, min: Vec, e: real, h: real)
    requires e >= 0.0 && OnAxis(max, e) && OnAxis(min, -e) && h == e * 1.1
    ensures PaddedCube(max, min) == CubeAt(-h, h)
  {
    EdgeOfLine(max, min, e);
    CenterOfLine(max, min, e);
  }

  /** The lower and the upper corner octant of a cube. */
  lemma CornersOfCube(b: Box, low: real, high: real, mid: real)
    requires b == CubeAt(low, high) && low <= high && mid + mid == low + high
    ensures Cube(b) && Edge(b) == high - low && Center(b) == Vec(mid, mid, mid)
    ensures ChildBox(b, 0) == CubeAt(low, mid) && ChildBox(b, 7) == CubeAt(mid, high)
  {
  }

  lemma PlacesOfLine(sys: Bodies, e: real, b: Box, h: real, s: set<nat>)
    requires InLine(sys, e) && e <= h && b == CubeAt(-h, h) && s == {0, 1, 2}
    ensures Placed(b, s, sys) && |s| == 3
  {
    assert InBox(sys.positions[0], b) && InBox(sys.positions[1], b) && InBox(sys.positions[2], b);
  }

  lemma OctantOnAxis(p: Vec, x: real, center: Vec, c: real)
    requires OnAxis(p, x) && center == Vec(c, c, c)
    ensures OctantIndex(p, center) == (if x > c then 4 else 0) + if 0.0 > c then 3 else 0
  {
  }

  /** The first and the third lie in the lower octant, the second does not. */
  lemma LowerOfLine(sys: Bodies, e: real, b: Box, s: set<nat>, c: real)
    requires InLine(sys, e) && s == {0, 1, 2} && Placed(b, s, sys) && Center(b) == Vec(c, c, c) && 0.0 <= c < e
    ensures OctantIndex(sys.positions[2], Center(b)) == 0 && InOctant(b, s, sys, 0) == {0, 2}
  {
    OctantOnAxis(sys.positions[0], -e, Center(b), c);
    OctantOnAxis(sys.positions[1], e, Center(b), c);
    OctantOnAxis(sys.positions[2], 0.0, Center(b), c);
  }

  /** Of those two, only the third lies in the upper octant. */
  lemma UpperOfLine(sys: Bodies, e: real, b: Box, s: set<nat>, c: real)
    requires InLine(sys, e) && s == {0, 2} && Placed(b, s, sys) && Center(b) == Vec(c, c, c) && -e <= c < 0.0
    ensures OctantIndex(sys.positions[2], Center(b)) == 7 && InOctant(b, s, sys, 7) == {2}
  {
    OctantOnAxis(sys.positions[0], -e, Center(b), c);
    OctantOnAxis(sys.positions[2], 0.0, Center(b), c);
  }

  lemma {:induction false} LeafOneDown(b: Box, s: set<nat>, sys: Bodies, p: Vec, k: nat, child: Box, members: set<nat>)
    requires Placed(b, s, sys) && |s| > 1 && k == OctantIndex(p, Center(b))
    requires child == ChildBox(b, k) && members == InOctant(b, s, sys, k)
    ensures Placed(child, members, sys) && LeafAt(b, s, sys, p) == LeafAt(child, members, sys, p)
  {
    PlacedInOctant(b, s, sys, k);
  }

  /** The leaf of the particle in the middle: two octants down, with the particle in its upper corner. */
  lemma LeafOfLine(sys: Bodies, e: real, h: real, z: real, b: Box, s: set<nat>, leaf: Box)
    requires InLine(sys, e) && h == e * 1.1 && z == 0.0
    requires b == CubeAt(-h, h) && s == {0, 1, 2} && leaf == CubeAt(-h / 2.0, z)
    ensures Placed(b, s, sys) && LeafAt(b, s, sys, sys.positions[2]) == (leaf, {2})
  {
    var half, pair, q := CubeAt(-h, z), {0, 2}, sys.positions[2];
    PlacesOfLine(sys, e, b, h, s);
    CornersOfCube(b, -h, h, z);
    LowerOfLine(sys, e, b, s, z);
    LeafOneDown(b, s, sys, q, 0, half, pair);
    CornersOfCube(half, -h, z, -h / 2.0);
    UpperOfLine(sys, e, half, pair, -h / 2.0);
    LeafOneDown(half, pair, sys, q, 7, leaf, {2});
  }

  lemma RootOfLine(sys: Bodies, e: real, h: real)
    requires InLine(sys, e) && h == e * 1.1
    ensures RootBox(sys) == CubeAt(-h, h) && sys.positions[3] == sys.positions[2]
  {
    CornersOfLine(sys, e);
    CubeOfLine(Highest(sys.positions, 4), Lowest(sys.positions, 4), e, h);
  }

  lemma FaceOfCube(q: Vec, b: Box, low: real, z: real)
    requires OnAxis(q, z) && b == CubeAt(low, z) && low < z
    ensures Edge(b) > 0.0 && Along(q, 0) == Along(b.max, 0)
  {
  }

  /** The leaf of the particle in the middle has an extent, and the particle is on its upper face. */
  lemma NoRoomInLine(sys: Bodies, e: real, h: real, z: real, leaf: Box)
    requires InLine(sys, e) && h == e * 1.1 && z == 0.0 && leaf == CubeAt(-h / 2.0, z)
    ensures sys.positions[3] == sys.positions[2] && !RoomBeside(leaf, 3, 2, sys)
  {
    FaceOfCube(sys.positions[2], leaf, -h / 2.0, z);
  }

  lemma {:induction false} BuildStops(b: Box, sys: Bodies, n: nat, s: set<nat>, leaf: Box)
    requires s == All(n) && Placed(b, s, sys) && n + 1 == sys.Count() && InBox(sys.positions[n], b) && 0 < n
    requires LeafAt(b, s, sys, sys.positions[n]) == (leaf, {n - 1}) && !RoomBeside(leaf, n, n - 1, sys)
    ensures !BuildEnds(b, sys)
  {
    BuildGoesOn(b, sys, n);
    assert !RoomIn((leaf, {n - 1}), n, sys);
  }

  lemma FirstThree()
    ensures All(3) == {0, 1, 2}
  {
  }

  lemma FourStop(sys: Bodies, e: real, h: real, z: real, root: Box, n: nat, s: set<nat>, leaf: Box)
    requires InLine(sys, e) && h == e * 1.1 && z == 0.0 && root == CubeAt(-h, h) && n == 3 && s == {0, 1, 2} == All(n)
    requires leaf == CubeAt(-h / 2.0, z) && sys.positions[n] == sys.positions[2]
    ensures !BuildEnds(root, sys)
  {
    PlacesOfLine(sys, e, root, h, s);
    LeafOfLine(sys, e, h, z, root, s, leaf);
    NoRoomInLine(sys, e, h, z, leaf);
    BuildStops(root, sys, n, s, leaf);
  }

  /** Building their tree never ends: the fourth has no room beside the third. */
  lemma FourInLineNeverEnd(sys: Bodies, e: real)
    requires InLine(sys, e)
    ensures sys.Valid() && !Buildable(sys)
  {
    var h, z := e * 1.1, e - e;
    RootOfLine(sys, e, h);
    FirstThree();
    FourStop(sys, e, h, z, CubeAt(-h, h), 3, {0, 1, 2}, CubeAt(-h / 2.0, z));
  }
}
