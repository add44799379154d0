/** What the time steps of the individual time-step simulator are: the laws that determine them. */
module StepLaws {
  import opened Vectors
  import opened Gravity
  import opened Hermite
  import opened Hits

  // ---- the first step ----

  /** The first step takes as long as the jerk needs for `eta` times the acceleration. */
  lemma FirstStepLaw(acc: Vec, jrk: Vec, law: Law, eta: real)
    requires law.Valid()
    ensures var a, j := Norm(acc, law), Norm(jrk, law);
      if a != 0.0 && j != 0.0 then FirstStep(acc, jrk, law, eta) * j == eta * a else FirstStep(acc, jrk, law, eta) == eta
  {
    var a, j := Norm(acc, law), Norm(jrk, law);
    if a != 0.0 && j != 0.0 {
      assert eta * a / j * j == eta * a;
    }
  }

  // ---- later steps ----

  function SumOf(a: real, b: real, c: real): real { a * b + c }

  /** The two sums whose quotient is the square of a step, in units of `eta`. */
  function Numerator(o: Orbit, law: Law): real {
    SumOf(Norm(o.Acceleration(), law), Norm(o.Snap(), law), Norm2(o.Jerk()))
  }

  function Denominator(o: Orbit, law: Law): real {
    SumOf(Norm(o.Jerk(), law), Norm(o.Crackle(), law), Norm2(o.Snap()))
  }

  /** Neither sum vanishes. Otherwise the step is `eta`. */
  predicate Moves(o: Orbit, law: Law) { Numerator(o, law) != 0.0 && Denominator(o, law) != 0.0 }

  lemma SumsNonNegative(o: Orbit, law: Law)
    requires law.Valid()
    ensures Numerator(o, law) >= 0.0 && Denominator(o, law) >= 0.0
  {
    NormNonNegative(o.Acceleration(), law);
    NormNonNegative(o.Jerk(), law);
    NormNonNegative(o.Snap(), law);
    NormNonNegative(o.Crackle(), law);
    Norm2Positive(o.Jerk());
    Norm2Positive(o.Snap());
    ProductNonNegative(Norm(o.Acceleration(), law), Norm(o.Snap(), law));
    ProductNonNegative(Norm(o.Jerk(), law), Norm(o.Crackle(), law));
  }

  /** `step` is the positive number whose square is `eta` times the quotient of `p` and `q`. */
  predicate Balances(step: real, p: real, q: real, eta: real) { step > 0.0 && step * step * q == eta * p }

  lemma RootBalances(p: real, q: real, eta: real, inv: real -> real)
    requires InverseRoot(inv) && p > 0.0 && q > 0.0 && eta > 0.0
    ensures Balances(Root(inv, p * eta / q), p, q, eta)
  {
    var pe := ProductPositive(p, eta);
    QuotientPositive(pe, q);
    var d := p * eta / q;
    RootSquares(inv, d);
    assert d * q == p * eta;
  }

  lemma StepLengthLaw(a: real, j: real, s: real, c: real, j2: real, s2: real, eta: real, inv: real -> real, p: real, q: real)
    requires InverseRoot(inv) && eta > 0.0 && p == SumOf(a, s, j2) >= 0.0 && q == SumOf(j, c, s2) >= 0.0
    ensures if p != 0.0 && q != 0.0 then Balances(StepLength(a, j, s, c, j2, s2, eta, inv), p, q, eta)
            else StepLength(a, j, s, c, j2, s2, eta, inv) == eta
  {
    if p != 0.0 && q != 0.0 {
      RootBalances(p, q, eta, inv);
    }
  }

  /** The step that the derivatives suggest. */
  lemma SuggestedStepLaw(o: Orbit, law: Law, eta: real)
    requires law.Valid() && eta > 0.0
    ensures if Moves(o, law) then Balances(SuggestedStep(o, law, eta), Numerator(o, law), Denominator(o, law), eta)
            else SuggestedStep(o, law, eta) == eta
  {
    SumsNonNegative(o, law);
    StepLengthLaw(Norm(o.Acceleration(), law), Norm(o.Jerk(), law), Norm(o.Snap(), law), Norm(o.Crackle(), law),
                  Norm2(o.Jerk()), Norm2(o.Snap()), eta, law.inv, Numerator(o, law), Denominator(o, law));
  }

  lemma SquaresInOrder(a: real, b: real)
    requires a > 0.0 && b > 0.0
    ensures a <= b <==> a * a <= b * b
  {
    if a < b {
      SquareIncreases(a, b);
    } else if b < a {
      SquareIncreases(b, a);
    }
  }

  /** A step of length `a` would be no longer than one that balances. */
  predicate Within(a: real, p: real, q: real, eta: real) { a * a * q <= eta * p }

  lemma LongerBalances(a: real, b: real, p: real, q: real, eta: real)
    requires a > 0.0 && q > 0.0 && Balances(b, p, q, eta)
    ensures a <= b <==> Within(a, p, q, eta)
  {
    SquaresInOrder(a, b);
    if a * a <= b * b {
      ProductMonotone(a * a, b * b, q);
    } else if a * a * q <= b * b * q {
      ProductCancels(a * a, b * b, q);
    }
  }

  /** The next step is 1.3 times the last if and only if the suggested one is no shorter. */
  lemma NextStepIsCapped(o: Orbit, last: real, law: Law, eta: real)
    requires law.Valid() && eta > 0.0 && last > 0.0
    ensures NextStep(o, last, law, eta) == last * 1.3 <==>
      if Moves(o, law) then Within(last * 1.3, Numerator(o, law), Denominator(o, law), eta) else last * 1.3 <= eta
  {
    SuggestedStepLaw(o, law, eta);
    SumsNonNegative(o, law);
    if Moves(o, law) {
      LongerBalances(last * 1.3, SuggestedStep(o, law, eta), Numerator(o, law), Denominator(o, law), eta);
    }
  }

  /** Otherwise it is shorter, and the one that balances. */
  lemma NextStepBalances(o: Orbit, last: real, law: Law, eta: real)
    requires law.Valid() && eta > 0.0 && last > 0.0 && NextStep(o, last, law, eta) != last * 1.3
    ensures NextStep(o, last, law, eta) < last * 1.3
    ensures if Moves(o, law) then Balances(NextStep(o, last, law, eta), Numerator(o, law), Denominator(o, law), eta)
            else NextStep(o, last, law, eta) == eta
  {
    SuggestedStepLaw(o, law, eta);
  }

  // ---- the unit of time does not matter ----

  /** The powers of a factor, from the first to the fifth, the sixth and the eighth. */
  datatype Powers = Powers(p1: real, p2: real, p3: real, p4: real, p5: real, p6: real, p8: real) {
    predicate Valid() {
      && p1 > 0.0 && p2 > 0.0 && p3 > 0.0 && p4 > 0.0 && p5 > 0.0 && p6 > 0.0 && p8 > 0.0
      && p2 * p4 == p6 && p3 * p3 == p6 && p3 * p5 == p8 && p4 * p4 == p8 && p1 * p1 * p6 == p8
    }
  }

  function PowersOf(f: real): Powers {
    Powers(f, f * f, f * f * f, f * f * f * f, f * f * f * f * f, f * f * f * (f * f * f), f * f * f * f * (f * f * f * f))
  }

  lemma PowersAreValid(f: real)
    requires f > 0.0
    ensures PowersOf(f).Valid()
  {
    var p := ProductPositive(f, f);
    var q := ProductPositive(p, f);
    var r := ProductPositive(q, f);
    var s := ProductPositive(r, f);
    var t := ProductPositive(q, q);
    var u := ProductPositive(r, r);
  }

  /** The motion with every derivative multiplied by its power. */
  function Rescaled(t: Taylor, f: Powers): Taylor {
    Taylor(t.x, t.v * f.p1, t.a * f.p2, t.j * f.p3, t.s * f.p4, t.c * f.p5)
  }

  function OrbitRescaled(o: Orbit, f: Powers): Orbit { Orbit(Rescaled(o.x, f), Rescaled(o.y, f), Rescaled(o.z, f)) }

  /** The motion in a unit of time that is longer by the factor `f`. */
  function OrbitInUnit(o: Orbit, f: real): Orbit { OrbitRescaled(o, PowersOf(f)) }

  lemma VectorsRescaled(o: Orbit, f: Powers)
    ensures var r := OrbitRescaled(o, f);
      && r.Acceleration() == Scale(o.Acceleration(), f.p2) && r.Jerk() == Scale(o.Jerk(), f.p3)
      && r.Snap() == Scale(o.Snap(), f.p4) && r.Crackle() == Scale(o.Crackle(), f.p5)
  {
  }

  predicate IsTimes(after: real, k: real, before: real) { after == k * before }

  lemma NormTimes(v: Vec, k: real, law: Law, w: Vec)
    requires law.Valid() && k > 0.0 && w == Scale(v, k)
    ensures IsTimes(Norm(w, law), k, Norm(v, law))
  {
    NormScales(v, k, law);
  }

  lemma Norm2Times(v: Vec, k: real, l: real, w: Vec)
    requires l == k * k && w == Scale(v, k)
    ensures IsTimes(Norm2(w), l, Norm2(v))
  {
    ScaledNorm2(v, k);
  }

  lemma SumTimes(a: real, b: real, c: real, k: real, l: real, m: real, a': real, b': real, c': real)
    requires k * l == m && IsTimes(a', k, a) && IsTimes(b', l, b) && IsTimes(c', m, c)
    ensures IsTimes(SumOf(a', b', c'), m, SumOf(a, b, c))
  {
    assert a' * b' == k * l * (a * b);
  }

  lemma NumeratorRescaled(o: Orbit, r: Orbit, f: Powers, law: Law)
    requires law.Valid() && f.Valid() && r == OrbitRescaled(o, f)
    ensures IsTimes(Numerator(r, law), f.p6, Numerator(o, law))
  {
    VectorsRescaled(o, f);
    NormTimes(o.Acceleration(), f.p2, law, r.Acceleration());
    NormTimes(o.Snap(), f.p4, law, r.Snap());
    Norm2Times(o.Jerk(), f.p3, f.p6, r.Jerk());
    SumTimes(Norm(o.Acceleration(), law), Norm(o.Snap(), law), Norm2(o.Jerk()), f.p2, f.p4, f.p6,
             Norm(r.Acceleration(), law), Norm(r.Snap(), law), Norm2(r.Jerk()));
  }

  lemma DenominatorRescaled(o: Orbit, r: Orbit, f: Powers, law: Law)
    requires law.Valid() && f.Valid() && r == OrbitRescaled(o, f)
    ensures IsTimes(Denominator(r, law), f.p8, Denominator(o, law))
  {
    VectorsRescaled(o, f);
    NormTimes(o.Jerk(), f.p3, law, r.Jerk());
    NormTimes(o.Crackle(), f.p5, law, r.Crackle());
    Norm2Times(o.Snap(), f.p4, f.p8, r.Snap());
    SumTimes(Norm(o.Jerk(), law), Norm(o.Crackle(), law), Norm2(o.Snap()), f.p3, f.p5, f.p8,
             Norm(r.Jerk(), law), Norm(r.Crackle(), law), Norm2(r.Snap()));
  }

  lemma CancelFactor(a: real, b: real, k: real)
    requires k > 0.0 && k * a == k * b
    ensures a == b
  {
    ProductCancels(a, b, k);
    ProductCancels(b, a, k);
  }

  lemma BalancedOnce(a: real, b: real, p: real, q: real, eta: real)
    requires Balances(a, p, q, eta) && Balances(b, p, q, eta) && q > 0.0
    ensures a == b
  {
    CancelFactor(a * a, b * b, q);
    RootUnique(a, b);
  }

  lemma BalancesRescaled(step: real, p: real, q: real, eta: real, f: real, k: real, l: real, p': real, q': real)
    requires f > 0.0 && k > 0.0 && l == f * f * k && Balances(step, p', q', eta) && IsTimes(p', k, p) && IsTimes(q', l, q)
    ensures Balances(step * f, p, q, eta)
  {
    assert step * step * (l * q) == k * (step * f * (step * f) * q);
    assert eta * (k * p) == k * (eta * p);
    CancelFactor(step * f * (step * f) * q, eta * p, k);
    var longer := ProductPositive(step, f);
  }

  lemma NotZeroTimes(k: real, a: real, b: real)
    requires k > 0.0 && IsTimes(b, k, a)
    ensures b != 0.0 <==> a != 0.0
  {
    if b == 0.0 {
      CancelFactor(a, 0.0, k);
    }
  }

  lemma SuggestedStepRescaled(o: Orbit, r: Orbit, f: Powers, law: Law, eta: real)
    requires law.Valid() && eta > 0.0 && f.Valid() && r == OrbitRescaled(o, f)
    ensures Moves(r, law) <==> Moves(o, law)
    ensures Moves(o, law) ==> SuggestedStep(r, law, eta) * f.p1 == SuggestedStep(o, law, eta)
  {
    NumeratorRescaled(o, r, f, law);
    DenominatorRescaled(o, r, f, law);
    SuggestedStepLaw(o, law, eta);
    SuggestedStepLaw(r, law, eta);
    SumsNonNegative(o, law);
    StepsRescaled(SuggestedStep(o, law, eta), SuggestedStep(r, law, eta), Numerator(o, law), Denominator(o, law),
                  Numerator(r, law), Denominator(r, law), eta, f);
  }

  lemma StepsRescaled(a: real, b: real, p: real, q: real, p': real, q': real, eta: real, f: Powers)
    requires f.Valid() && q >= 0.0 && IsTimes(p', f.p6, p) && IsTimes(q', f.p8, q)
    requires p != 0.0 && q != 0.0 ==> Balances(a, p, q, eta)
    requires p' != 0.0 && q' != 0.0 ==> Balances(b, p', q', eta)
    ensures p' != 0.0 && q' != 0.0 <==> p != 0.0 && q != 0.0
    ensures p != 0.0 && q != 0.0 ==> b * f.p1 == a
  {
    NotZeroTimes(f.p6, p, p');
    NotZeroTimes(f.p8, q, q');
    if p != 0.0 && q != 0.0 {
      BalancesRescaled(b, p, q, eta, f.p1, f.p6, f.p8, p', q');
      BalancedOnce(b * f.p1, a, p, q, eta);
    }
  }

  /** The suggested step is the same time in every unit of time, unless it is `eta` for want of one of the sums,
      which then is so in every unit. */
  lemma SuggestedStepHasUnit(o: Orbit, f: real, law: Law, eta: real)
    requires law.Valid() && eta > 0.0 && f > 0.0
    ensures Moves(OrbitInUnit(o, f), law) <==> Moves(o, law)
    ensures Moves(o, law) ==> SuggestedStep(OrbitInUnit(o, f), law, eta) * f == SuggestedStep(o, law, eta)
  {
    PowersAreValid(f);
    SuggestedStepRescaled(o, OrbitInUnit(o, f), PowersOf(f), law, eta);
  }
}
