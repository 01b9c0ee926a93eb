/** Projection of a point onto a polyline, distance along it, and slices of it. */
module Polyline {
  import opened Geo
  import opened Extended

  datatype Projection = Projection(segment: nat, t: real, cumKm: real)

  function Clamp(x: real): real {
    if x < 0.0 then 0.0 else if x > 1.0 then 1.0 else x
  }

  function Inner(x: real, y: real, u: real, v: real): real {
    Times(x, u) + Times(y, v)
  }

  /** Inner product of the degree-space vectors `a`-`b` and `c`-`d`. */
  function Dot(a: Point, b: Point, c: Point, d: Point): real {
    Inner(b.lat - a.lat, b.lng - a.lng, d.lat - c.lat, d.lng - c.lng)
  }

  /** Fraction of the way along `a`-`b` at which `p` projects, clamped to the segment. */
  function Fraction(p: Point, a: Point, b: Point): real {
    var len2 := Dot(a, b, a, b);
    if len2 == 0.0 then 0.0 else Clamp(Dot(a, p, a, b) / len2)
  }

  function PointAt(path: seq<Point>, i: nat, t: real): Point
    requires i + 1 < |path|
  {
    Along(path[i], path[i + 1], t)
  }

  function Foot(p: Point, path: seq<Point>, i: nat): Point
    requires i + 1 < |path|
  {
    PointAt(path, i, Fraction(p, path[i], path[i + 1]))
  }

  /** First of the least-distance segments among the first `n`. */
  function Nearest(d: Distance, p: Point, path: seq<Point>, n: nat): (best: nat)
    requires 0 < n < |path|
    ensures best < n
  {
    if n == 1 then 0
    else
      var best := Nearest(d, p, path, n - 1);
      if d(p, Foot(p, path, n - 1)) < d(p, Foot(p, path, best)) then n - 1 else best
  }

  /** Kilometres covered by the first `n` segments. */
  function PrefixKm(d: Distance, path: seq<Point>, n: nat): (km: real)
    requires n == 0 || n < |path|
    ensures km >= 0.0
  {
    if n == 0 then 0.0 else PrefixKm(d, path, n - 1) + d(path[n - 1], path[n])
  }

  function Projected(d: Distance, p: Point, path: seq<Point>): Projection {
    if |path| < 2 then Projection(0, 0.0, 0.0)
    else
      var i := Nearest(d, p, path, |path| - 1);
      var t := Fraction(p, path[i], path[i + 1]);
      Projection(i, t, PrefixKm(d, path, i) + Times(t, d(path[i], path[i + 1])))
  }

  /** The nearest position on the polyline, by one pass over the segments. */
  method Project(d: Distance, p: Point, path: seq<Point>) returns (r: Projection)
    ensures r == Projected(d, p, path)
    ensures |path| < 2 ==> r == Projection(0, 0.0, 0.0)
  {
    hide Fraction, Foot;
    if |path| < 2 {
      return Projection(0, 0.0, 0.0);
    }
    var bestSeg, bestT, bestDist := 0, 0.0, Infinity;
    for i := 0 to |path| - 1
      invariant i == 0 ==> bestDist == Infinity
      invariant i > 0 ==> bestSeg == Nearest(d, p, path, i)
      invariant i > 0 ==> bestT == Fraction(p, path[bestSeg], path[bestSeg + 1])
      invariant i > 0 ==> bestDist == Finite(d(p, Foot(p, path, bestSeg)))
    {
      var t := Fraction(p, path[i], path[i + 1]);
      var km := Finite(d(p, Foot(p, path, i)));
      if Less(km, bestDist) {
        bestDist, bestSeg, bestT := km, i, t;
      }
    }
    var cum := 0.0;
    for i := 0 to bestSeg
      invariant cum == PrefixKm(d, path, i)
    {
      cum := cum + d(path[i], path[i + 1]);
    }
    cum := cum + Times(bestT, d(path[bestSeg], path[bestSeg + 1]));
    r := Projection(bestSeg, bestT, cum);
  }

  // ---- What a projection is -------------------------------------------------

  function Square(p: Point, q: Point): real { Dot(p, q, p, q) }

  /** The clamped fraction is the closest point of the whole segment, measured in degree space. */
  lemma FootIsClosest(p: Point, a: Point, b: Point, s: real)
    requires 0.0 <= s <= 1.0
    ensures 0.0 <= Fraction(p, a, b) <= 1.0
    ensures Square(p, Along(a, b, Fraction(p, a, b))) <= Square(p, Along(a, b, s))
  {
    hide Dot, Square, Along;
    var l, u, t := Dot(a, b, a, b), Dot(a, p, a, b), Fraction(p, a, b);
    SquareAlong(p, a, b, s);
    SquareAlong(p, a, b, t);
    LengthSquared(p, a, b);
    if l != 0.0 {
      Parabola(l, u, t, s);
    }
  }

  lemma LengthSquared(p: Point, a: Point, b: Point)
    ensures Dot(a, b, a, b) > 0.0 || Dot(a, b, a, b) == Dot(a, p, a, b) == 0.0
  {
    hide Times;
    var x, y := b.lat - a.lat, b.lng - a.lng;
    if x == 0.0 && y == 0.0 {
      TimesZero(x);
      TimesZero(p.lat - a.lat);
      TimesZero(p.lng - a.lng);
    } else {
      TimesZero(0.0);
      if x != 0.0 { SquareIsPositive(x); }
      if y != 0.0 { SquareIsPositive(y); }
    }
  }

  lemma TimesOne(x: real)
    ensures Times(1.0, x) == x
  {
  }

  lemma TimesZero(x: real)
    ensures Times(x, 0.0) == 0.0
  {
  }

  lemma SquareIsPositive(x: real)
    requires x != 0.0
    ensures Times(x, x) > 0.0
  {
    hide Times;
    if x > 0.0 {
      TimesPositive(x, x);
    } else {
      TimesNegated(x);
      TimesPositive(-x, -x);
    }
  }

  lemma TimesPositive(x: real, y: real)
    requires x > 0.0 && y > 0.0
    ensures Times(x, y) > 0.0
  {
  }

  lemma TimesNegated(x: real)
    ensures Times(-x, -x) == Times(x, x)
  {
  }

  lemma SquareAlong(p: Point, a: Point, b: Point, s: real)
    ensures Square(p, Along(a, b, s)) == Square(a, p) - 2.0 * (s * Dot(a, p, a, b)) + s * s * Dot(a, b, a, b)
  {
    hide Times;
    var x, y, u, v := p.lat - a.lat, p.lng - a.lng, b.lat - a.lat, b.lng - a.lng;
    var q := Along(a, b, s);
    SquareOfStep(x, u, s);
    SquareOfStep(y, v, s);
    assert q.lat - p.lat == Times(s, u) - x && q.lng - p.lng == Times(s, v) - y;
    Distribute(s, Times(x, u), Times(y, v));
    Distribute(s * s, Times(u, u), Times(v, v));
  }

  lemma SquareOfStep(x: real, v: real, s: real)
    ensures Times(Times(s, v) - x, Times(s, v) - x) == Times(x, x) - 2.0 * (s * Times(x, v)) + s * s * Times(v, v)
  {
  }

  lemma Distribute(s: real, x: real, y: real)
    ensures s * (x + y) == s * x + s * y
  {
  }

  /** A parabola with its apex clamped to [0, 1] is least there, among all of [0, 1]. */
  lemma Parabola(l: real, u: real, t: real, s: real)
    requires l > 0.0 && 0.0 <= s <= 1.0 && t == Clamp(u / l)
    ensures t * t * l - 2.0 * (t * u) <= s * s * l - 2.0 * (s * u)
  {
    var x := u / l;
    assert u == x * l;
    assert (s * s * l - 2.0 * (s * u)) - (t * t * l - 2.0 * (t * u)) == ((s - t) * (s + t - 2.0 * x)) * l;
    assert (s - t) * (s + t - 2.0 * x) >= 0.0;
  }

  lemma {:induction false} NearestIsLeast(d: Distance, p: Point, path: seq<Point>, n: nat, i: nat)
    requires i < n < |path|
    ensures var best := Nearest(d, p, path, n);
      && d(p, Foot(p, path, best)) <= d(p, Foot(p, path, i))
      && (i < best ==> d(p, Foot(p, path, best)) < d(p, Foot(p, path, i)))
  {
    if n > 1 {
      if i < n - 1 {
        NearestIsLeast(d, p, path, n - 1, i);
      } else {
        NearestIsLeast(d, p, path, n - 1, 0);
      }
    }
  }

  /** A position lies on `path` when its segment exists, its fraction is in range and its distance agrees. */
  ghost predicate LiesOn(d: Distance, r: Projection, path: seq<Point>) {
    && r.segment + 1 < |path|
    && 0.0 <= r.t <= 1.0
    && r.cumKm == PrefixKm(d, path, r.segment) + Times(r.t, d(path[r.segment], path[r.segment + 1]))
  }

  function PointOf(r: Projection, path: seq<Point>): Point
    requires r.segment + 1 < |path|
  {
    PointAt(path, r.segment, r.t)
  }

  /**
   * The projection is on the path, lies between its segment's two prefix lengths, is at least as near as the
   * closest point of every other segment, and strictly nearer than those of the segments before it.
   */
  lemma ProjectedIsNearest(d: Distance, p: Point, path: seq<Point>)
    requires |path| >= 2
    ensures var r := Projected(d, p, path);
      && LiesOn(d, r, path)
      && PrefixKm(d, path, r.segment) <= r.cumKm <= PrefixKm(d, path, r.segment + 1)
      && (forall i: nat :: i + 1 < |path| ==> d(p, PointOf(r, path)) <= d(p, Foot(p, path, i)))
      && (forall i: nat :: i < r.segment ==> d(p, PointOf(r, path)) < d(p, Foot(p, path, i)))
  {
    hide Times, Fraction, Along;
    var r := Projected(d, p, path);
    FootIsClosest(p, path[r.segment], path[r.segment + 1], 0.0);
    ScaledBy(r.t, d(path[r.segment], path[r.segment + 1]));
    forall i: nat | i + 1 < |path|
      ensures d(p, PointOf(r, path)) <= d(p, Foot(p, path, i))
      ensures i < r.segment ==> d(p, PointOf(r, path)) < d(p, Foot(p, path, i))
    {
      NearestIsLeast(d, p, path, |path| - 1, i);
    }
  }

  lemma ScaledBy(t: real, km: real)
    requires 0.0 <= t <= 1.0 && km >= 0.0
    ensures 0.0 <= Times(t, km) <= km
    ensures 0.0 < t && 0.0 < km ==> 0.0 < Times(t, km)
    ensures t < 1.0 && 0.0 < km ==> Times(t, km) < km
  {
    if t < 1.0 && 0.0 < km {
      TimesPositive(1.0 - t, km);
    }
  }

  // ---- Slices of the polyline -------------------------------------------------

  /** The points drawn between two positions: the first, the vertices in between, the last. */
  function Slice(path: seq<Point>, from: Projection, to: Projection): seq<Point>
    requires from.segment + 1 < |path| && to.segment + 1 < |path|
  {
    [PointOf(from, path)] + Between(path, from.segment, to.segment) + [PointOf(to, path)]
  }

  function Between(path: seq<Point>, i: nat, j: nat): seq<Point>
    requires j < |path|
  {
    if i <= j then path[i + 1..j + 1] else []
  }

  method SubPath(path: seq<Point>, from: Projection, to: Projection) returns (points: seq<Point>)
    requires |path| >= 2 ==> from.segment + 1 < |path| && to.segment + 1 < |path|
    ensures points == if |path| < 2 || from.cumKm > to.cumKm then [] else Slice(path, from, to)
  {
    if |path| < 2 || from.cumKm > to.cumKm {
      return [];
    }
    var a, b := path[from.segment], path[from.segment + 1];
    points := [Along(a, b, from.t)];
    var i := from.segment + 1;
    while i <= to.segment
      invariant from.segment < i
      invariant i <= to.segment + 1 || (to.segment < from.segment && i == from.segment + 1)
      invariant points == [PointOf(from, path)] + Between(path, from.segment, i - 1)
    {
      points := points + [path[i]];
      i := i + 1;
    }
    var last := if to.segment + 1 < |path| - 1 then to.segment + 1 else |path| - 1;
    points := points + [Along(path[to.segment], path[last], to.t)];
  }

  function Length(d: Distance, pts: seq<Point>): real {
    if |pts| < 2 then 0.0 else Length(d, pts[..|pts| - 1]) + d(pts[|pts| - 2], pts[|pts| - 1])
  }

  /** Distance is proportional to the fraction along each segment of the path. */
  ghost predicate LinearAlong(d: Distance, path: seq<Point>) {
    forall i: nat, s, t :: i + 1 < |path| && 0.0 <= s <= t <= 1.0 ==>
      d(PointAt(path, i, s), PointAt(path, i, t)) == Times(t - s, d(path[i], path[i + 1]))
  }

  ghost predicate NoRepeatedNeighbours(d: Distance, path: seq<Point>) {
    forall i: nat :: i + 1 < |path| ==> d(path[i], path[i + 1]) > 0.0
  }

  lemma LengthAppend(d: Distance, pts: seq<Point>, p: Point)
    requires pts != []
    ensures Length(d, pts + [p]) == Length(d, pts) + d(pts[|pts| - 1], p)
  {
    assert (pts + [p])[..|pts|] == pts;
  }

  /** Between two positions in order, the slice is exactly as long as the difference of their distances. */
  lemma SliceLength(d: Distance, path: seq<Point>, from: Projection, to: Projection)
    requires LiesOn(d, from, path) && LiesOn(d, to, path) && from.cumKm <= to.cumKm
    requires LinearAlong(d, path) && NoRepeatedNeighbours(d, path)
    ensures var pts := Slice(path, from, to);
      && |pts| >= 2 && pts[0] == PointOf(from, path) && pts[|pts| - 1] == PointOf(to, path)
      && Length(d, pts) == to.cumKm - from.cumKm
  {
    hide Times, Along;
    var pts := Slice(path, from, to);
    var a, b := PointOf(from, path), PointOf(to, path);
    var i, j := from.segment, to.segment;
    var head := [a] + Between(path, i, j);
    LengthAppend(d, head, b);
    Ends(path, j);
    if i < j {
      LengthToVertex(d, path, from, j);
      assert to.t - 0.0 == to.t;
      assert head[|head| - 1] == path[j];
    } else if i == j {
      assert head == [a];
      OrderedFractions(from.t, to.t, d(path[i], path[i + 1]));
      Subtract(to.t, from.t, d(path[i], path[i + 1]));
    } else {
      assert head == [a];
      BackToBack(d, path, from, to);
    }
  }

  lemma Ends(path: seq<Point>, i: nat)
    requires i + 1 < |path|
    ensures PointAt(path, i, 0.0) == path[i] && PointAt(path, i, 1.0) == path[i + 1]
  {
  }

  lemma OrderedFractions(s: real, t: real, km: real)
    requires km > 0.0 && Times(s, km) <= Times(t, km)
    ensures s <= t
  {
    if s > t {
      TimesPositive(s - t, km);
      Subtract(s, t, km);
      assert false;
    }
  }

  lemma Subtract(t: real, s: real, km: real)
    ensures Times(t - s, km) == Times(t, km) - Times(s, km)
  {
  }

  lemma {:induction false} LengthToVertex(d: Distance, path: seq<Point>, from: Projection, j: nat)
    requires LiesOn(d, from, path) && from.segment < j < |path| && LinearAlong(d, path)
    ensures Length(d, [PointOf(from, path)] + path[from.segment + 1..j + 1]) == PrefixKm(d, path, j) - from.cumKm
  {
    hide Times, Along;
    var i := from.segment;
    var head := [PointOf(from, path)] + path[i + 1..j];
    assert [PointOf(from, path)] + path[i + 1..j + 1] == head + [path[j]];
    LengthAppend(d, head, path[j]);
    if j == i + 1 {
      Ends(path, i);
      Subtract(1.0, from.t, d(path[i], path[j]));
      TimesOne(d(path[i], path[j]));
    } else {
      LengthToVertex(d, path, from, j - 1);
    }
  }

  /** Positions on different segments, the earlier one not behind the later: both are the vertex they share. */
  lemma BackToBack(d: Distance, path: seq<Point>, from: Projection, to: Projection)
    requires LiesOn(d, from, path) && LiesOn(d, to, path) && from.cumKm <= to.cumKm
    requires to.segment < from.segment && NoRepeatedNeighbours(d, path)
    ensures from.cumKm == to.cumKm && PointOf(from, path) == PointOf(to, path)
  {
    hide Times, Along;
    var i, j := from.segment, to.segment;
    ScaledBy(from.t, d(path[i], path[i + 1]));
    ScaledBy(to.t, d(path[j], path[j + 1]));
    PrefixGrows(d, path, j + 1, i);
    Ends(path, i);
    Ends(path, j);
  }

  lemma {:induction false} PrefixGrows(d: Distance, path: seq<Point>, i: nat, j: nat)
    requires i <= j < |path| && NoRepeatedNeighbours(d, path)
    ensures PrefixKm(d, path, i) <= PrefixKm(d, path, j)
    ensures i < j ==> PrefixKm(d, path, i) < PrefixKm(d, path, j)
  {
    if i < j {
      PrefixGrows(d, path, i, j - 1);
    }
  }

  // ---- Slices read backwards ----------------------------------------------------

  function Reverse<T>(s: seq<T>): (r: seq<T>)
    ensures |r| == |s| && forall i :: 0 <= i < |s| ==> r[i] == s[|s| - 1 - i]
  {
    if s == [] then [] else Reverse(s[1..]) + [s[0]]
  }

  lemma {:induction false} ReverseAppend<T>(s: seq<T>, x: T)
    ensures Reverse(s + [x]) == [x] + Reverse(s)
  {
    if s != [] {
      ReverseAppend(s[1..], x);
      assert (s + [x])[1..] == s[1..] + [x];
    }
  }

  lemma {:induction false} LengthPrepend(d: Distance, p: Point, pts: seq<Point>)
    requires pts != []
    ensures Length(d, [p] + pts) == d(p, pts[0]) + Length(d, pts)
  {
    var n := |pts| - 1;
    if n == 0 {
      assert ([p] + pts)[..1] == [p];
    } else {
      LengthPrepend(d, p, pts[..n]);
      assert ([p] + pts)[..n + 1] == [p] + pts[..n];
    }
  }

  lemma {:induction false} ReverseLength(d: Distance, pts: seq<Point>)
    ensures Length(d, Reverse(pts)) == Length(d, pts)
  {
    if |pts| >= 2 {
      ReverseLength(d, pts[1..]);
      LengthPrepend(d, pts[0], pts[1..]);
      assert [pts[0]] + pts[1..] == pts;
      LengthAppend(d, Reverse(pts[1..]), pts[0]);
    }
  }
}
