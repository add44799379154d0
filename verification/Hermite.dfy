/** Fifth-order motion of one coordinate of a particle, and the Hermite corrector that updates it. */
module Hermite {
  import opened Vectors

  // ---- Taylor sums ----

  function Square(h: real): real { h * h }

  function Cube(h: real): real { h * h * h }

  /** Value after a time `h`, up to the jerk. */
  function XLow(x: real, v: real, a: real, j: real, h: real): real {
    x + v * h + a * (h * h) / 2.0 + j * (h * h * h) / 6.0
  }

  function VLow(v: real, a: real, j: real, h: real): real { v + a * h + j * (h * h) / 2.0 }

  /** The terms of snap and crackle on top. */
  function XHigh(low: real, s: real, c: real, h: real): real {
    low + (s * (h * h * h * h) / 24.0 + c * (h * h * h * h * h) / 120.0)
  }

  function VHigh(low: real, s: real, c: real, h: real): real {
    low + (s * (h * h * h) / 6.0 + c * (h * h * h * h) / 24.0)
  }

  /** The full sums. */
  function XSum(x: real, v: real, a: real, j: real, s: real, c: real, h: real): real {
    x + v * h + a * (h * h) / 2.0 + j * (h * h * h) / 6.0 + (s * (h * h * h * h) / 24.0 + c * (h * h * h * h * h) / 120.0)
  }

  function VSum(v: real, a: real, j: real, s: real, c: real, h: real): real {
    v + a * h + j * (h * h) / 2.0 + (s * (h * h * h) / 6.0 + c * (h * h * h * h) / 24.0)
  }

  function ASum(a: real, j: real, s: real, c: real, h: real): real {
    a + j * h + s * (h * h) / 2.0 + c * (h * h * h) / 6.0
  }

  function JSum(j: real, s: real, c: real, h: real): real { j + s * h + c * (h * h) / 2.0 }

  function SSum(s: real, c: real, h: real): real { s + c * h }

  lemma SumsSplit(x: real, v: real, a: real, j: real, s: real, c: real, h: real)
    ensures XSum(x, v, a, j, s, c, h) == XHigh(XLow(x, v, a, j, h), s, c, h)
    ensures VSum(v, a, j, s, c, h) == VHigh(VLow(v, a, j, h), s, c, h)
  {
  }

  /** Taylor sums compose: going `h` and then `k` further is going `h + k`. */
  lemma XComposes(x: real, v: real, a: real, j: real, s: real, c: real, h: real, k: real)
    ensures XSum(XSum(x, v, a, j, s, c, h), VSum(v, a, j, s, c, h), ASum(a, j, s, c, h), JSum(j, s, c, h),
                 SSum(s, c, h), c, k)
         == XSum(x, v, a, j, s, c, h + k)
  {
  }

  lemma VComposes(v: real, a: real, j: real, s: real, c: real, h: real, k: real)
    ensures VSum(VSum(v, a, j, s, c, h), ASum(a, j, s, c, h), JSum(j, s, c, h), SSum(s, c, h), c, k)
         == VSum(v, a, j, s, c, h + k)
  {
  }

  // ---- motions ----

  /** Value and first five derivatives at a reference time. */
  datatype Taylor = Taylor(x: real, v: real, a: real, j: real, s: real, c: real) {
    /** Predictions up to the jerk. */
    function PredictX(h: real): real { XLow(x, v, a, j, h) }

    function PredictV(h: real): real { VLow(v, a, j, h) }

    /** The full quintic and its derivatives. */
    function XAt(h: real): real { XSum(x, v, a, j, s, c, h) }

    function VAt(h: real): real { VSum(v, a, j, s, c, h) }

    function AAt(h: real): real { ASum(a, j, s, c, h) }

    function JAt(h: real): real { JSum(j, s, c, h) }

    function SAt(h: real): real { SSum(s, c, h) }

    /** The same motion, referred to a time `h` later. */
    function Shift(h: real): Taylor { Taylor(XAt(h), VAt(h), AAt(h), JAt(h), SAt(h), c) }
  }

  lemma ShiftComposes(t: Taylor, h: real, k: real)
    ensures t.Shift(h).XAt(k) == t.XAt(h + k)
    ensures t.Shift(h).VAt(k) == t.VAt(h + k)
  {
    XComposes(t.x, t.v, t.a, t.j, t.s, t.c, h, k);
    VComposes(t.v, t.a, t.j, t.s, t.c, h, k);
  }

  // ---- the corrector ----

  /** Snap times dt^3 and crackle times dt^3, from acceleration and jerk at both ends. */
  function Snap3(a: real, j: real, a': real, j': real, dt: real): real {
    (a - a') * dt * (-6.0) - (j * 4.0 + j' * 2.0) * (dt * dt)
  }

  function Crackle3(a: real, j: real, a': real, j': real, dt: real): real {
    (a - a') * 12.0 + (j + j') * 6.0 * dt
  }

  /** The correction of predicted value and velocity. */
  function XFrom(low: real, s3: real, c3: real, dt: real): real { low + s3 * dt / 24.0 + c3 * (dt * dt) / 120.0 }

  function VFrom(low: real, s3: real, c3: real, dt: real): real { low + s3 / 6.0 + c3 * dt / 24.0 }

  /** The old motion, and acceleration and jerk found at the prediction, `dt` later. */
  datatype Ends = Ends(start: Taylor, a': real, j': real) {
    function Snap(dt: real): real { Snap3(start.a, start.j, a', j', dt) }

    function Crackle(dt: real): real { Crackle3(start.a, start.j, a', j', dt) }

    /** The motion after the correction of a prediction. */
    function CorrectedFrom(x: real, v: real, dt: real): Taylor
      requires dt != 0.0
    {
      PowersNotZero(dt);
      Taylor(XFrom(x, Snap(dt), Crackle(dt), dt), VFrom(v, Snap(dt), Crackle(dt), dt),
             a', j', Snap(dt) / Cube(dt) + Crackle(dt) / Square(dt), Crackle(dt) / Cube(dt))
    }

    /** The motion after the correction, as the simulator stores it. */
    function Corrected(dt: real): Taylor
      requires dt != 0.0
    {
      CorrectedFrom(start.PredictX(dt), start.PredictV(dt), dt)
    }

    /** The quintic through both ends: the old motion, with the snap and crackle that the corrector finds. */
    function Interpolant(dt: real): Taylor
      requires dt != 0.0
    {
      PowersNotZero(dt);
      start.(s := Snap(dt) / Cube(dt), c := Crackle(dt) / Cube(dt))
    }
  }

  lemma PowersNotZero(d: real)
    requires d != 0.0
    ensures Square(d) != 0.0 && Cube(d) != 0.0
  {
    var p := SquareOf(d);
    if d > 0.0 {
      var q := ProductPositive(p, d);
    } else {
      var q := ProductPositive(p, -d);
      assert Cube(d) == -q;
    }
  }

  lemma CancelFactor(u: real, w: real, d: real)
    requires d != 0.0 && u * d == w * d
    ensures u == w
  {
    assert u == u * d / d;
  }

  lemma Quotient(a: real, b: real) returns (q: real)
    requires b != 0.0
    ensures q == a / b && q * b == a
  {
    q := a / b;
  }

  lemma DividedBy(a: real, b: real, q: real)
    requires b != 0.0 && q * b == a
    ensures a / b == q
  {
  }

  /** A cubic with the corrector's coefficients meets acceleration and jerk at the far end. */
  lemma CubicMeetsEnd(a: real, j: real, a': real, j': real, h: real, s: real, c: real)
    requires h != 0.0
    requires s * (h * h * h) == (a - a') * h * (-6.0) - (j * 4.0 + j' * 2.0) * (h * h)
    requires c * (h * h * h) == (a - a') * 12.0 + (j + j') * 6.0 * h
    ensures a + j * h + s * (h * h) / 2.0 + c * (h * h * h) / 6.0 == a'
    ensures j + s * h + c * (h * h) / 2.0 == j'
  {
    var sq := s * (h * h);
    assert sq * h == ((a - a') * (-6.0) - (j * 4.0 + j' * 2.0) * h) * h;
    CancelFactor(sq, (a - a') * (-6.0) - (j * 4.0 + j' * 2.0) * h, h);
    var u := s * h + c * (h * h) / 2.0;
    assert u * h == sq + c * (h * h * h) / 2.0;
    CancelFactor(u, j' - j, h);
  }

  lemma SnapForm(a: real, j: real, a': real, j': real, h: real, s: real)
    requires s * Cube(h) == Snap3(a, j, a', j', h)
    ensures s * (h * h * h) == (a - a') * h * (-6.0) - (j * 4.0 + j' * 2.0) * (h * h)
  {
  }

  lemma CrackleForm(a: real, j: real, a': real, j': real, h: real, c: real)
    requires c * Cube(h) == Crackle3(a, j, a', j', h)
    ensures c * (h * h * h) == (a - a') * 12.0 + (j + j') * 6.0 * h
  {
  }

  lemma SumForms(a: real, j: real, s: real, c: real, h: real, a': real, j': real)
    requires a + j * h + s * (h * h) / 2.0 + c * (h * h * h) / 6.0 == a'
    requires j + s * h + c * (h * h) / 2.0 == j'
    ensures ASum(a, j, s, c, h) == a' && JSum(j, s, c, h) == j'
  {
  }

  lemma SumsMeetEnd(a: real, j: real, a': real, j': real, h: real, s: real, c: real)
    requires h != 0.0 && s * Cube(h) == Snap3(a, j, a', j', h) && c * Cube(h) == Crackle3(a, j, a', j', h)
    ensures ASum(a, j, s, c, h) == a' && JSum(j, s, c, h) == j'
  {
    SnapForm(a, j, a', j', h, s);
    CrackleForm(a, j, a', j', h, c);
    CubicMeetsEnd(a, j, a', j', h, s, c);
    SumForms(a, j, s, c, h, a', j');
  }

  lemma QuotientsBy(snap: real, crackle: real, dt: real) returns (s: real, c: real)
    requires dt != 0.0
    ensures Cube(dt) != 0.0 && s == snap / Cube(dt) && c == crackle / Cube(dt)
    ensures s * Cube(dt) == snap && c * Cube(dt) == crackle
  {
    PowersNotZero(dt);
    s := Quotient(snap, Cube(dt));
    c := Quotient(crackle, Cube(dt));
  }

  /** Snap and crackle of the interpolant, multiplied out. */
  lemma InterpolantCoefficients(e: Ends, dt: real) returns (s: real, c: real)
    requires dt != 0.0
    ensures e.Interpolant(dt) == e.start.(s := s, c := c)
    ensures s * Cube(dt) == e.Snap(dt) && c * Cube(dt) == e.Crackle(dt)
  {
    s, c := QuotientsBy(e.Snap(dt), e.Crackle(dt), dt);
  }

  /** The interpolant has the old value, velocity, acceleration and jerk at the old time,
      and the new acceleration and jerk at the new time. */
  lemma InterpolantMeetsEnds(e: Ends, dt: real)
    requires dt != 0.0
    ensures e.Interpolant(dt) == e.start.(s := e.Interpolant(dt).s, c := e.Interpolant(dt).c)
    ensures e.Interpolant(dt).AAt(dt) == e.a' && e.Interpolant(dt).JAt(dt) == e.j'
  {
    var s, c := InterpolantCoefficients(e, dt);
    SumsMeetEnd(e.start.a, e.start.j, e.a', e.j', dt, s, c);
  }

  /** The corrector's terms are the terms of snap and crackle. */
  lemma CorrectionIsHigh(x: real, v: real, h: real, s: real, c: real, s3: real, c3: real)
    requires s * Cube(h) == s3 && c * Cube(h) == c3
    ensures XFrom(x, s3, c3, h) == XHigh(x, s, c, h)
    ensures VFrom(v, s3, c3, h) == VHigh(v, s, c, h)
    ensures c * h * Square(h) == c3
  {
    assert s3 * h == s * (h * h * h * h);
    assert c3 * h == c * (h * h * h * h);
    assert c3 * Square(h) == c * (h * h * h * h * h);
  }

  /** The corrector re-centres one quintic: what it stores is the interpolant, referred to the new time. */
  lemma CorrectedIsShift(e: Ends, dt: real)
    requires dt != 0.0
    ensures e.Corrected(dt) == e.Interpolant(dt).Shift(dt)
  {
    PowersNotZero(dt);
    var s, c := InterpolantCoefficients(e, dt);
    InterpolantMeetsEnds(e, dt);
    SumsSplit(e.start.x, e.start.v, e.start.a, e.start.j, s, c, dt);
    CorrectionIsHigh(e.start.PredictX(dt), e.start.PredictV(dt), dt, s, c, e.Snap(dt), e.Crackle(dt));
    DividedBy(e.Snap(dt), Cube(dt), s);
    DividedBy(e.Crackle(dt), Cube(dt), c);
    DividedBy(e.Crackle(dt), Square(dt), c * dt);
  }

  lemma SumsAtZero(x: real, v: real, a: real, j: real, s: real, c: real)
    ensures XSum(x, v, a, j, s, c, 0.0) == x && VSum(v, a, j, s, c, 0.0) == v
  {
  }

  /** From the corrected motion the interpolant is recovered at every time;
      in particular the old value and velocity, exactly. */
  lemma CorrectionLosesNothing(e: Ends, dt: real, h: real)
    requires dt != 0.0
    ensures e.Corrected(dt).XAt(h) == e.Interpolant(dt).XAt(dt + h)
    ensures e.Corrected(dt).VAt(h) == e.Interpolant(dt).VAt(dt + h)
    ensures dt + h == 0.0 ==> e.Corrected(dt).XAt(h) == e.start.x && e.Corrected(dt).VAt(h) == e.start.v
  {
    CorrectedIsShift(e, dt);
    var t := e.Interpolant(dt);
    ShiftComposes(t, dt, h);
    SumsAtZero(t.x, t.v, t.a, t.j, t.s, t.c);
  }

  /** The corrected velocity in closed form, as the shared-step Hermite simulator computes it. */
  lemma CorrectedVelocityClosedForm(e: Ends, dt: real)
    requires dt != 0.0
    ensures e.Corrected(dt).v
         == e.start.v + (e.start.a + e.a') * dt * 0.5 + (e.start.j - e.j') * (dt * dt) / 12.0
  {
    VelocityClosedForm(e.start.v, e.start.a, e.start.j, e.a', e.j', dt);
  }

  lemma VelocityClosedForm(v: real, a: real, j: real, a': real, j': real, h: real)
    ensures VFrom(VLow(v, a, j, h), Snap3(a, j, a', j', h), Crackle3(a, j, a', j', h), h)
         == v + (a + a') * h * 0.5 + (j - j') * (h * h) / 12.0
  {
  }
}
