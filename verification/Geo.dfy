/** Coordinates, distances and the two roundings shared by the planner and the tracker. */
module Geo {

  datatype Point = Point(lat: real, lng: real)

  /** What the program relies on about a distance in kilometres; the trigonometry itself is not modelled. */
  ghost predicate IsDistance(d: (Point, Point) -> real) {
    && (forall p, q :: d(p, q) >= 0.0)
    && (forall p, q :: d(p, q) == d(q, p))
    && (forall p :: d(p, p) == 0.0)
  }

  type Distance = d: (Point, Point) -> real | IsDistance(d) witness (p: Point, q: Point) => 0.0

  /** No detour is shorter than the direct line. */
  ghost predicate IsMetric(d: Distance) {
    forall p, q, r :: d(p, r) <= d(p, q) + d(q, r)
  }

  predicate IsValid(p: Point) {
    -90.0 <= p.lat <= 90.0 && -180.0 <= p.lng <= 180.0
  }

  /** A product with a name of its own, so that a proof can keep the arithmetic of products out of its way. */
  function Times(x: real, y: real): real {
    x * y
  }

  /** The point a fraction `t` of the way from `a` to `b`, in degree space. */
  function Along(a: Point, b: Point, t: real): Point {
    Point(a.lat + Times(t, b.lat - a.lat), a.lng + Times(t, b.lng - a.lng))
  }

  function RoundTo(v: real, scale: real): real
    requires scale > 0.0
  {
    (v * scale + 0.5).Floor as real / scale
  }

  function Round1(v: real): (r: real)
    ensures v - 0.05 < r <= v + 0.05
  {
    RoundTo(v, 10.0)
  }

  function Round2(v: real): (r: real)
    ensures v - 0.005 < r <= v + 0.005
  {
    RoundTo(v, 100.0)
  }

  /** Rounding gives the one whole number of tenths, or of hundredths, that is near enough. */
  lemma RoundedFigures(v: real, k: int)
    ensures Round1(v) == k as real / 10.0 <==> v - 0.05 < k as real / 10.0 <= v + 0.05
    ensures Round2(v) == k as real / 100.0 <==> v - 0.005 < k as real / 100.0 <= v + 0.005
  {
    assert v * 10.0 - 0.5 < k as real <= v * 10.0 + 0.5 <==> (v * 10.0 + 0.5).Floor == k;
    assert v * 100.0 - 0.5 < k as real <= v * 100.0 + 0.5 <==> (v * 100.0 + 0.5).Floor == k;
  }

  /** Half an integral headway needs one decimal only, so rounding it loses nothing. */
  lemma HalfHeadwayIsExact(minutes: int)
    ensures Round1(minutes as real / 2.0) == minutes as real / 2.0
  {
    assert minutes as real / 2.0 * 10.0 == (minutes * 5) as real;
    assert ((minutes * 5) as real + 0.5).Floor == minutes * 5;
  }
}
