/** The browser's copy of the position engine, and why it places a bus where the server does. */
module EtaGeometry {
  import opened Extended
  import opened Geo
  import Polyline

  datatype RoutePos = RoutePos(dist: Extended.Quantity, seg: nat, t: real, pt: Point)

  datatype SegPos = SegPos(pt: Point, t: real)

  /** A zero-length segment answers its own start, any other the clamped foot of `p`. */
  function ProjectSeg(p: Point, a: Point, b: Point): SegPos {
    var len2 := Polyline.Dot(a, b, a, b);
    if len2 == 0.0 then SegPos(a, 0.0)
    else
      var t := Polyline.Clamp(Polyline.Dot(a, p, a, b) / len2);
      SegPos(Along(a, b, t), t)
  }

  lemma ProjectSegIsFoot(p: Point, a: Point, b: Point)
    ensures ProjectSeg(p, a, b) == SegPos(Along(a, b, Polyline.Fraction(p, a, b)), Polyline.Fraction(p, a, b))
  {
    hide Polyline.Dot;
  }

  method FindRoutePos(d: Distance, coords: Point, path: seq<Point>) returns (best: RoutePos)
    requires path != []
    ensures var r := Polyline.Projected(d, coords, path);
      && best.seg == r.segment && best.t == r.t
      && (|path| >= 2 ==> best.pt == Polyline.PointOf(r, path) && best.dist == Finite(d(coords, best.pt)))
      && (|path| == 1 ==> best.pt == path[0] && best.dist == Infinity)
  {
    hide ProjectSeg, Polyline.Fraction, Along;
    best := RoutePos(Infinity, 0, 0.0, path[0]);
    for i := 0 to |path| - 1
      invariant i == 0 ==> best == RoutePos(Infinity, 0, 0.0, path[0])
      invariant i > 0 ==> best.seg == Polyline.Nearest(d, coords, path, i)
      invariant i > 0 ==> best.t == Polyline.Fraction(coords, path[best.seg], path[best.seg + 1])
      invariant i > 0 ==> best.pt == Polyline.Foot(coords, path, best.seg)
      invariant i > 0 ==> best.dist == Finite(d(coords, best.pt))
    {
      ProjectSegIsFoot(coords, path[i], path[i + 1]);
      var foot := ProjectSeg(coords, path[i], path[i + 1]);
      var km := Finite(d(foot.pt, coords));
      if Less(km, best.dist) {
        best := RoutePos(km, i, foot.t, foot.pt);
      }
    }
  }

  /** The browser's distance along the route is the server's `cumKm` for the same coordinates. */
  method CumKm(d: Distance, pos: RoutePos, path: seq<Point>) returns (km: real)
    requires pos.seg < |path|
    ensures km == Polyline.PrefixKm(d, path, pos.seg) +
                  if pos.seg + 1 < |path| then Times(pos.t, d(path[pos.seg], path[pos.seg + 1])) else 0.0
    ensures forall coords :: pos.seg == Polyline.Projected(d, coords, path).segment
                             && pos.t == Polyline.Projected(d, coords, path).t
                             ==> km == Polyline.Projected(d, coords, path).cumKm
  {
    hide Polyline.Fraction, Times;
    km := 0.0;
    for i := 0 to pos.seg
      invariant km == Polyline.PrefixKm(d, path, i)
    {
      km := km + d(path[i], path[i + 1]);
    }
    if pos.seg < |path| - 1 {
      km := km + Times(pos.t, d(path[pos.seg], path[pos.seg + 1]));
    }
  }

  /** Called on the positions of two projections, the browser's slice is the server's. */
  method SubPath(path: seq<Point>, busPos: RoutePos, userPos: RoutePos) returns (pts: seq<Point>)
    requires busPos.seg < |path| && userPos.seg < |path|
    ensures |pts| >= 2 && pts[0] == busPos.pt
    ensures pts[1..|pts| - 1] == Polyline.Between(path, busPos.seg, userPos.seg)
    ensures forall from: Polyline.Projection, to: Polyline.Projection ::
              from.segment == busPos.seg && to.segment == userPos.seg && to.t == userPos.t
              && from.segment + 1 < |path| && to.segment + 1 < |path| && busPos.pt == Polyline.PointOf(from, path)
              ==> pts == Polyline.Slice(path, from, to)
  {
    pts := [busPos.pt];
    var i := busPos.seg + 1;
    while i <= userPos.seg
      invariant busPos.seg < i
      invariant i <= userPos.seg + 1 || (userPos.seg < busPos.seg && i == busPos.seg + 1)
      invariant pts == [busPos.pt] + Polyline.Between(path, busPos.seg, i - 1)
    {
      pts := pts + [path[i]];
      i := i + 1;
    }
    if userPos.seg < |path| - 1 {
      pts := pts + [Along(path[userPos.seg], path[userPos.seg + 1], userPos.t)];
    } else {
      pts := pts + [path[|path| - 1]];
    }
  }
}
