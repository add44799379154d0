/** Downsampling a chart: from each bucket of points, the one that spans the largest triangle. */
module Downsampling {

  datatype Point = Point(x: real, y: real)

  // ---- the buckets ----

  /** How many points fall into a bucket, as a fraction. */
  function BucketSize(n: nat, threshold: nat): real
    requires 2 < threshold < n
  {
    (n - 2) as real / (threshold - 2) as real
  }

  /** Where stretch `i` begins, before rounding. */
  function Position(n: nat, threshold: nat, i: nat): real
    requires 2 < threshold < n
  {
    i as real * BucketSize(n, threshold)
  }

  /** The first point of the stretch `i`. */
  function Start(n: nat, threshold: nat, i: nat): int
    requires 2 < threshold < n
  {
    Position(n, threshold, i).Floor + 1
  }

  /** Where stretch `i` ends, and the points do. */
  function End(n: nat, threshold: nat, i: nat): int
    requires 2 < threshold < n
  {
    if Start(n, threshold, i + 1) < n then Start(n, threshold, i + 1) else n
  }

  lemma BucketSizeAboveOne(n: nat, threshold: nat)
    requires 2 < threshold < n
    ensures BucketSize(n, threshold) > 1.0
    ensures BucketSize(n, threshold) * (threshold - 2) as real == (n - 2) as real
  {
    var b, t := BucketSize(n, threshold), (threshold - 2) as real;
    assert b * t == (n - 2) as real;
    if b <= 1.0 {
      AtMostOne(b, t);
    }
  }

  lemma AtMostOne(b: real, t: real)
    requires b <= 1.0 && t > 0.0
    ensures b * t <= t
  {
  }

  lemma FloorGrows(a: real, b: real)
    requires b > a + 1.0
    ensures b.Floor > a.Floor
  {
  }

  lemma Monotone(a: real, b: real, c: real)
    requires a <= b && c > 0.0
    ensures a * c <= b * c
  {
  }

  lemma OneMore(a: real, c: real, b: real)
    requires c == a + 1.0
    ensures c * b == a * b + b
  {
  }

  lemma Positions(n: nat, threshold: nat, i: nat)
    requires 2 < threshold < n
    ensures Position(n, threshold, 0) == 0.0 && Position(n, threshold, threshold - 2) == (n - 2) as real
    ensures Position(n, threshold, i) >= 0.0
    ensures i <= threshold - 2 ==> Position(n, threshold, i) <= (n - 2) as real
    ensures Position(n, threshold, i + 1) > Position(n, threshold, i) + 1.0
  {
    var b, t := BucketSize(n, threshold), (threshold - 2) as real;
    BucketSizeAboveOne(n, threshold);
    Monotone(0.0, i as real, b);
    if i <= threshold - 2 {
      Monotone(i as real, t, b);
    }
    OneMore(i as real, (i + 1) as real, b);
  }

  /** Stretch 0 begins after the first point; no stretch is empty; the one after the last bucket
      holds only the last point. */
  lemma Stretches(n: nat, threshold: nat, i: nat)
    requires 2 < threshold < n && i <= threshold - 2
    ensures Start(n, threshold, 0) == 1 && Start(n, threshold, threshold - 2) == n - 1
    ensures 1 <= Start(n, threshold, i) <= n - 1
    ensures Start(n, threshold, i) < Start(n, threshold, i + 1)
    ensures i < threshold - 2 ==> End(n, threshold, i) == Start(n, threshold, i + 1)
    ensures i == threshold - 2 ==> End(n, threshold, i) == n
  {
    Positions(n, threshold, i);
    FloorGrows(Position(n, threshold, i), Position(n, threshold, i + 1));
    if i < threshold - 2 {
      Positions(n, threshold, i + 1);
    }
  }

  /** The points between the first and the last are split evenly: point `k` comes before stretch `i` just in case, of
      `n - 2` points for `threshold - 2` buckets, it is no more than the share of `i` buckets. */
  lemma StretchesAreEven(n: nat, threshold: nat, i: nat, k: nat)
    requires 2 < threshold < n
    ensures k < Start(n, threshold, i) <==> k * (threshold - 2) <= i * (n - 2)
  {
    var p, t := Position(n, threshold, i), (threshold - 2) as real;
    BucketSizeAboveOne(n, threshold);
    ShareTimes(i as real, BucketSize(n, threshold), t, (n - 2) as real);
    WholeProduct(i, n - 2);
    WholeProduct(k, threshold - 2);
    TimesOrder(k as real, p, t);
  }

  lemma ShareTimes(i: real, b: real, t: real, m: real)
    requires b * t == m
    ensures i * b * t == i * m
  {
  }

  lemma WholeProduct(a: int, b: int)
    ensures (a * b) as real == a as real * b as real
  {
  }

  lemma TimesOrder(a: real, b: real, t: real)
    requires t > 0.0
    ensures a <= b <==> a * t <= b * t
  {
    if a <= b {
      Monotone(a, b, t);
    } else {
      assert (a - b) * t > 0.0;
    }
  }

  // ---- the picks ----

  function Abs(a: real): real { if a < 0.0 then -a else a }

  /** Twice the area of a triangle. */
  function Area(a: Point, b: Point, c: Point): real { Abs((a.x - b.x) * (c.y - a.y) - (a.x - c.x) * (b.y - a.y)) }

  /** The point `t` of the way from `a` to `b`. */
  function Along(a: Point, b: Point, t: real): Point { Point(a.x + t * (b.x - a.x), a.y + t * (b.y - a.y)) }

  function Moved(a: Point, d: Point): Point { Point(a.x + d.x, a.y + d.y) }

  /** `c` is on the line through `a` and `b`, if they are two points. */
  ghost predicate Collinear(a: Point, b: Point, c: Point) { a == b || exists t :: c == Along(a, b, t) }

  lemma AreaMoves(a: Point, b: Point, c: Point, d: Point)
    ensures Area(Moved(a, d), Moved(b, d), Moved(c, d)) == Area(a, b, c)
  {
  }

  lemma AreaSwaps(a: Point, b: Point, c: Point)
    ensures Area(a, c, b) == Area(a, b, c) == Area(b, a, c)
  {
    SwapProduct(a.x - b.x, c.y - a.y, a.x - c.x, b.y - a.y);
    assert (b.x - a.x) * (c.y - b.y) - (b.x - c.x) * (a.y - b.y)
        == -((a.x - b.x) * (c.y - a.y) - (a.x - c.x) * (b.y - a.y));
  }

  lemma SwapProduct(p: real, q: real, r: real, s: real)
    ensures Abs(p * q - r * s) == Abs(r * s - p * q)
  {
  }

  /** Moving a corner along the opposite side's direction. */
  lemma AreaShears(a: Point, b: Point, c: Point, t: real)
    ensures Area(a, b, Point(c.x + t * (b.x - a.x), c.y + t * (b.y - a.y))) == Area(a, b, c)
  {
    var u, v := b.x - a.x, b.y - a.y;
    assert -u * (t * v) == -(t * u) * v;
    assert (a.x - b.x) * (c.y + t * v - a.y) == -u * (c.y - a.y) - u * (t * v);
    assert (a.x - (c.x + t * u)) * v == (a.x - c.x) * v - t * u * v;
  }

  lemma AbsTimes(t: real, k: real)
    ensures Abs(t * k) == Abs(t) * Abs(k)
  {
    if t >= 0.0 {
      if k >= 0.0 {
        Monotone2(t, k);
      } else {
        Monotone2(t, -k);
      }
    } else {
      if k >= 0.0 {
        Monotone2(-t, k);
      } else {
        Monotone2(-t, -k);
      }
    }
  }

  lemma Monotone2(a: real, b: real)
    requires a >= 0.0 && b >= 0.0
    ensures a * b >= 0.0 && (-a) * b == -(a * b) && a * (-b) == -(a * b) && (-a) * (-b) == a * b
  {
  }

  /** Moving a corner along a side stretches the area by the same factor. */
  lemma AreaStretches(a: Point, b: Point, c: Point, t: real)
    ensures Area(a, b, Along(a, c, t)) == Abs(t) * Area(a, b, c)
  {
    var k := (a.x - b.x) * (c.y - a.y) - (a.x - c.x) * (b.y - a.y);
    assert (a.x - b.x) * (t * (c.y - a.y)) - -(t * (c.x - a.x)) * (b.y - a.y) == t * k;
    AbsTimes(t, k);
  }

  lemma UnitTriangle()
    ensures Area(Point(0.0, 0.0), Point(1.0, 0.0), Point(0.0, 1.0)) == 1.0
  {
  }

  lemma OnLineHasNoArea(a: Point, b: Point, t: real)
    ensures Area(a, b, Along(a, b, t)) == 0.0
  {
    AreaStretches(a, b, b, t);
    assert Area(a, b, b) == 0.0;
  }

  lemma NoAreaIsOnLine(a: Point, b: Point, c: Point) returns (t: real)
    requires Area(a, b, c) == 0.0 && a.x != b.x
    ensures c == Along(a, b, t)
  {
    var u, v, p, q := b.x - a.x, b.y - a.y, c.x - a.x, c.y - a.y;
    t := p / u;
    assert t * u == p;
    assert u * q == p * v;
    assert u * (t * v) == (t * u) * v;
    CancelLeft(u, q, t * v);
  }

  lemma CancelLeft(u: real, a: real, b: real)
    requires u != 0.0 && u * a == u * b
    ensures a == b
  {
    assert u * (a - b) == 0.0;
  }

  function Flipped(a: Point): Point { Point(a.y, a.x) }

  lemma AreaFlips(a: Point, b: Point, c: Point)
    ensures Area(Flipped(a), Flipped(b), Flipped(c)) == Area(a, b, c)
  {
  }

  /** It is zero exactly for points on one line. */
  lemma NoAreaIsCollinear(a: Point, b: Point, c: Point)
    ensures Area(a, b, c) == 0.0 <==> Collinear(a, b, c)
  {
    if Collinear(a, b, c) {
      if a != b {
        var t :| c == Along(a, b, t);
        OnLineHasNoArea(a, b, t);
      }
    }
    if Area(a, b, c) == 0.0 {
      if a.x != b.x {
        var t := NoAreaIsOnLine(a, b, c);
      } else if a.y != b.y {
        AreaFlips(a, b, c);
        var t := NoAreaIsOnLine(Flipped(a), Flipped(b), Flipped(c));
        assert c == Along(a, b, t);
      }
    }
  }

  ghost function Sum(data: seq<Point>, lo: int, hi: int): Point
    requires 0 <= lo <= hi <= |data|
  {
    if lo == hi then Point(0.0, 0.0)
    else Point(Sum(data, lo, hi - 1).x + data[hi - 1].x, Sum(data, lo, hi - 1).y + data[hi - 1].y)
  }

  ghost function Average(data: seq<Point>, lo: int, hi: int): Point
    requires 0 <= lo < hi <= |data|
  {
    Point(Sum(data, lo, hi).x / (hi - lo) as real, Sum(data, lo, hi).y / (hi - lo) as real)
  }

  function Less(s: real, k: real, c: real): real { s - k * c }

  lemma OneLess(s: real, k: real, c: real, x: real, l: real)
    requires l == k + 1.0
    ensures Less(s, k, c) + (x - c) == Less(s + x, l, c)
  {
    OneMore(k, l, c);
  }

  lemma {:induction false} DeviationSum(data: seq<Point>, lo: int, m: int, c: Point)
    requires 0 <= lo <= m <= |data|
    ensures Sum(Deviations(data, c), lo, m)
      == Point(Less(Sum(data, lo, m).x, (m - lo) as real, c.x), Less(Sum(data, lo, m).y, (m - lo) as real, c.y))
    decreases m - lo
  {
    if m > lo {
      DeviationSum(data, lo, m - 1, c);
      var before, x := Sum(data, lo, m - 1), data[m - 1];
      OneLess(before.x, (m - 1 - lo) as real, c.x, x.x, (m - lo) as real);
      OneLess(before.y, (m - 1 - lo) as real, c.y, x.y, (m - lo) as real);
    }
  }

  /** Points deviate from their average by nothing on the whole. */
  lemma AverageIsBalanced(data: seq<Point>, lo: int, hi: int)
    requires 0 <= lo < hi <= |data|
    ensures Sum(Deviations(data, Average(data, lo, hi)), lo, hi) == Point(0.0, 0.0)
  {
    DeviationSum(data, lo, hi, Average(data, lo, hi));
    TimesCount(Sum(data, lo, hi).x, (hi - lo) as real);
    TimesCount(Sum(data, lo, hi).y, (hi - lo) as real);
  }

  lemma TimesCount(a: real, n: real)
    requires n > 0.0
    ensures n * (a / n) == a
  {
  }

  ghost function Deviations(data: seq<Point>, c: Point): (r: seq<Point>)
    ensures |r| == |data| && forall k :: 0 <= k < |r| ==> r[k] == Point(data[k].x - c.x, data[k].y - c.y)
  {
    seq(|data|, k requires 0 <= k < |data| => Point(data[k].x - c.x, data[k].y - c.y))
  }

  /** `k` is the first point between `lo` and `hi` that spans the largest triangle with `a` and `b`. */
  ghost predicate IsLargest(data: seq<Point>, a: Point, b: Point, lo: int, hi: int, k: int) {
    && 0 <= lo <= k < hi <= |data|
    && (forall j :: lo <= j < hi ==> Area(a, b, data[j]) <= Area(a, b, data[k]))
    && (forall j :: lo <= j < k ==> Area(a, b, data[j]) < Area(a, b, data[k]))
  }

  /** Pick `i + 1`, from bucket `i + 1`: the largest triangle with the last pick and the average of the stretch before. */
  ghost predicate IsNextPick(data: seq<Point>, threshold: nat, i: nat, last: nat, next: nat)
    requires 2 < threshold < |data| && i < threshold - 2
  {
    var n := |data|;
    && last < n
    && 0 <= Start(n, threshold, i) < Start(n, threshold, i + 1) <= n
    && IsLargest(data, data[last], Average(data, Start(n, threshold, i), Start(n, threshold, i + 1)),
                 Start(n, threshold, i + 1), End(n, threshold, i + 1), next)
  }

  /** The picks from the first point up to the end of bucket `m`. */
  ghost predicate PicksUpTo(data: seq<Point>, threshold: nat, picks: seq<nat>, m: nat)
    requires 2 < threshold < |data| && m <= threshold - 2
  {
    && |picks| == m + 1 && picks[0] == 0
    && forall i: nat :: i < m ==> IsNextPick(data, threshold, i, picks[i], picks[i + 1])
  }

  /** Which points are sampled. */
  ghost predicate AreSampled(data: seq<Point>, threshold: nat, picks: seq<nat>)
    requires 2 < threshold < |data|
  {
    && |picks| == threshold
    && PicksUpTo(data, threshold, picks[..threshold - 1], threshold - 2)
    && picks[threshold - 1] == |data| - 1
  }

  lemma {:induction false} PicksIncrease(data: seq<Point>, threshold: nat, picks: seq<nat>, m: nat, i: nat)
    requires 2 < threshold < |data| && i <= m <= threshold - 2 && PicksUpTo(data, threshold, picks, m)
    ensures (if i == 0 then 0 else Start(|data|, threshold, i)) <= picks[i] < Start(|data|, threshold, i + 1)
         || (i == threshold - 2 && picks[i] == |data| - 1)
    ensures i > 0 ==> picks[i - 1] < picks[i]
  {
    var n := |data|;
    Stretches(n, threshold, 0);
    if i > 0 {
      PicksIncrease(data, threshold, picks, m, i - 1);
      Stretches(n, threshold, i - 1);
      Stretches(n, threshold, i);
      assert IsNextPick(data, threshold, i - 1, picks[i - 1], picks[i]);
    }
  }

  /** The picks begin with the first point and increase strictly, except that the last bucket holds nothing
      but the last point, which then is added once more. */
  lemma SampledInOrder(data: seq<Point>, threshold: nat, picks: seq<nat>)
    requires 2 < threshold < |data| && AreSampled(data, threshold, picks)
    ensures picks[0] == 0 && picks[threshold - 2] == picks[threshold - 1] == |data| - 1
    ensures forall i :: 0 < i < threshold - 1 ==> picks[i - 1] < picks[i]
  {
    var m := threshold - 2;
    Stretches(|data|, threshold, m);
    forall i | 0 < i < threshold - 1 ensures picks[i - 1] < picks[i] {
      PicksIncrease(data, threshold, picks[..threshold - 1], m, i);
    }
    assert IsNextPick(data, threshold, m - 1, picks[m - 1], picks[m]);
  }

  lemma LargestIsUnique(data: seq<Point>, a: Point, b: Point, lo: int, hi: int, k: int, l: int)
    requires IsLargest(data, a, b, lo, hi, k) && IsLargest(data, a, b, lo, hi, l)
    ensures k == l
  {
    assert Area(a, b, data[k]) == Area(a, b, data[l]);
  }

  /** Nothing about the sample is left open. */
  lemma {:induction false} PicksAreUnique(data: seq<Point>, threshold: nat, p: seq<nat>, q: seq<nat>, m: nat)
    requires 2 < threshold < |data| && m <= threshold - 2
    requires PicksUpTo(data, threshold, p, m) && PicksUpTo(data, threshold, q, m)
    ensures p == q
  {
    if m > 0 {
      PicksAreUnique(data, threshold, p[..m], q[..m], m - 1);
      assert p == p[..m] + [p[m]] && q == q[..m] + [q[m]];
      assert p[m - 1] == p[..m][m - 1] == q[..m][m - 1] == q[m - 1];
      assert IsNextPick(data, threshold, m - 1, p[m - 1], p[m]);
      assert IsNextPick(data, threshold, m - 1, q[m - 1], q[m]);
      var n := |data|;
      LargestIsUnique(data, data[p[m - 1]], Average(data, Start(n, threshold, m - 1), Start(n, threshold, m)),
                      Start(n, threshold, m), End(n, threshold, m), p[m], q[m]);
    }
  }

  // ---- the algorithm ----

  method AveragePoint(data: seq<Point>, lo: nat, hi: nat) returns (r: Point)
    requires lo < hi <= |data|
    ensures r == Average(data, lo, hi)
  {
    var x, y := 0.0, 0.0;
    for j := lo to hi
      invariant Point(x, y) == Sum(data, lo, j)
    {
      x := x + data[j].x;
      y := y + data[j].y;
    }
    r := Point(x / (hi - lo) as real, y / (hi - lo) as real);
  }

  method FindLargest(data: seq<Point>, a: Point, b: Point, lo: nat, hi: nat) returns (k: nat)
    requires lo < hi <= |data|
    ensures IsLargest(data, a, b, lo, hi, k)
  {
    var largest := -1.0;
    k := 0;
    for j := lo to hi
      invariant j == lo ==> largest == -1.0
      invariant j > lo ==> IsLargest(data, a, b, lo, j, k) && largest == Area(a, b, data[k])
    {
      var area := Area(a, b, data[j]);
      if area > largest {
        largest := area;
        k := j;
      }
    }
  }

  /** Returns the points at `picks`, or all of them when there are few enough or too few are wanted.
      The guard against an empty bucket is not needed: no bucket is empty. */
  method LargestTriangleThreeBuckets(data: seq<Point>, threshold: nat) returns (sampled: seq<Point>, ghost picks: seq<nat>)
    ensures threshold >= |data| || threshold <= 2 ==> sampled == data
    ensures 2 < threshold < |data| ==>
      && AreSampled(data, threshold, picks)
      && |sampled| == threshold
      && forall k :: 0 <= k < threshold ==> picks[k] < |data| && sampled[k] == data[picks[k]]
  {
    picks := [];
    if threshold >= |data| || threshold <= 2 {
      return data, picks;
    }
    var n := |data|;
    sampled := [data[0]];
    picks := [0];
    var a := 0;
    for i := 0 to threshold - 2
      invariant a < n && |sampled| == |picks| == i + 1 && picks[i] == a
      invariant PicksUpTo(data, threshold, picks, i)
      invariant forall k :: 0 <= k <= i ==> picks[k] < n && sampled[k] == data[picks[k]]
    {
      Stretches(n, threshold, i);
      Stretches(n, threshold, i + 1);
      var average := AveragePoint(data, Start(n, threshold, i), Start(n, threshold, i + 1));
      var next := FindLargest(data, data[a], average, Start(n, threshold, i + 1), End(n, threshold, i + 1));
      PickOneMore(data, threshold, picks, i, next);
      picks := picks + [next];
      sampled := sampled + [data[next]];
      a := next;
    }
    assert (picks + [n - 1])[..threshold - 1] == picks;
    picks := picks + [n - 1];
    sampled := sampled + [data[n - 1]];
  }

  lemma PickOneMore(data: seq<Point>, threshold: nat, picks: seq<nat>, m: nat, next: nat)
    requires 2 < threshold < |data| && m < threshold - 2 && PicksUpTo(data, threshold, picks, m)
    requires IsNextPick(data, threshold, m, picks[m], next)
    ensures PicksUpTo(data, threshold, picks + [next], m + 1)
  {
    var p := picks + [next];
    forall i: nat | i < m + 1 ensures IsNextPick(data, threshold, i, p[i], p[i + 1]) {
      if i < m {
        assert IsNextPick(data, threshold, i, picks[i], picks[i + 1]);
      }
    }
  }
}
