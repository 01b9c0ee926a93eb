/** Turning the least-cost trip into the legs shown to the rider. */
module Journey {
  import opened Geo
  import opened Options
  import opened Polyline
  import opened Network
  import opened Itinerary

  datatype Leg =
    | WalkLeg(fromName: string, toName: string, distanceKm: real, durationMinutes: real, geometry: seq<Point>)
    | RideLeg(fromName: string, toName: string, routeNumber: int, routeName: string, routeColor: string,
              stopCount: int, waitMinutes: real, distanceKm: real, durationMinutes: real, geometry: seq<Point>)

  datatype Response = Response(totalMinutes: real, totalKm: real, transfers: nat, summary: seq<int>, legs: seq<Leg>)

  /** What a query may rely on about the compiled graph. */
  ghost predicate Compiled(d: Distance, g: Graph) {
    && LaidOut(g.nodes)
    && |g.adjacency| == |g.nodes|
    && (forall u :: 0 <= u < |g.nodes| ==> g.adjacency[u] == EdgesOf(d, g.nodes, u))
    && (forall u :: 0 <= u < |g.nodes| ==> g.nodes[u].onPath == Projected(d, g.nodes[u].stop.at, g.nodes[u].route.path))
    && (forall j, first :: 0 <= j < |g.nodes| && IsFirstOf(g.nodes, first, g.nodes[j].route.id) ==>
          Changes(g.nodes, first + 1) < |g.paths| && g.paths[Changes(g.nodes, first + 1)] == g.nodes[j].route.path)
  }

  lemma GraphIsCompiled(d: Distance, routes: seq<Route>)
    requires IsNetwork(routes)
    ensures Compiled(d, GraphOf(d, routes))
  {
    hide Projected, EdgesOf, NodesOf, LaidOut, PathsOf, Changes;
    var g, rs := GraphOf(d, routes), Served(routes);
    ServedIsNetwork(routes);
    NodesAreLaidOut(d, rs);
    forall u | 0 <= u < |g.nodes|
      ensures g.nodes[u].onPath == Projected(d, g.nodes[u].stop.at, g.nodes[u].route.path)
    {
      var k, i := Locate(d, rs, u);
    }
    forall j, first | 0 <= j < |g.nodes| && IsFirstOf(g.nodes, first, g.nodes[j].route.id)
      ensures Changes(g.nodes, first + 1) < |g.paths| && g.paths[Changes(g.nodes, first + 1)] == g.nodes[j].route.path
    {
      OwnPath(d, routes, j, first);
    }
  }

  // ---- Legs -------------------------------------------------------------------

  function WalkOf(fromName: string, toName: string, km: real, geometry: seq<Point>): Leg {
    WalkLeg(fromName, toName, Round2(km), Round1(WalkMinutes(km)), geometry)
  }

  predicate OnPath(node: Node) {
    |node.route.path| >= 2 ==> node.onPath.segment + 1 < |node.route.path|
  }

  /** The stretch of the route's path between two of its stops, in travel order. */
  function RideGeometry(a: Node, b: Node): seq<Point>
    requires a.route == b.route && OnPath(a) && OnPath(b)
  {
    if |a.route.path| < 2 then [a.stop.at, b.stop.at]
    else if a.onPath.cumKm > b.onPath.cumKm then Reverse(Slice(a.route.path, b.onPath, a.onPath))
    else Slice(a.route.path, a.onPath, b.onPath)
  }

  /** The journey's stations and hops, with every number in range. */
  ghost predicate Travels(d: Distance, nodes: seq<Node>, chain: seq<nat>, es: seq<Edge>) {
    LaidOut(nodes) && IsChain(d, nodes, chain, es) && forall i :: 0 <= i < |nodes| ==> OnPath(nodes[i])
  }

  /** A section of the journey's own division; a ride stays on one route. */
  ghost predicate Fits(s: Section, nodes: seq<Node>, chain: seq<nat>, es: seq<Edge>) {
    && |chain| == |es| + 1 && 0 <= From(s) < To(s) <= |es|
    && chain[From(s)] < |nodes| && chain[To(s)] < |nodes|
    && OnPath(nodes[chain[From(s)]]) && OnPath(nodes[chain[To(s)]])
    && (s.Riding? ==> nodes[chain[From(s)]].route == nodes[chain[To(s)]].route)
  }

  function LegOf(s: Section, nodes: seq<Node>, chain: seq<nat>, es: seq<Edge>): Leg
    requires Fits(s, nodes, chain, es)
  {
    var a, b := nodes[chain[From(s)]], nodes[chain[To(s)]];
    if s.Riding? then
      RideLeg(a.stop.name, b.stop.name, a.route.routeNumber, a.route.name, a.route.color, s.last - s.first,
              Round1(HalfHeadway(a.route)), Round2(Kilometres(es, s.first, s.last)),
              Round1(Minutes(es, s.first, s.last)), RideGeometry(a, b))
    else
      WalkOf(a.stop.name, b.stop.name, es[s.hop - 1].km, [a.stop.at, b.stop.at])
  }

  function LegsOf(ss: seq<Section>, nodes: seq<Node>, chain: seq<nat>, es: seq<Edge>): (legs: seq<Leg>)
    requires forall s :: s in ss ==> Fits(s, nodes, chain, es)
    ensures |legs| == |ss|
    ensures forall i :: 0 <= i < |ss| ==> ss[i] in ss && legs[i] == LegOf(ss[i], nodes, chain, es)
  {
    if ss == [] then []
    else
      assert ss[|ss| - 1] in ss;
      LegsOf(ss[..|ss| - 1], nodes, chain, es) + [LegOf(ss[|ss| - 1], nodes, chain, es)]
  }

  /** Ride legs count with their rounded length, walks with their exact one. */
  function SectionKm(s: Section, es: seq<Edge>): real
    requires 0 <= From(s) < To(s) <= |es|
  {
    if s.Riding? then Round2(Kilometres(es, s.first, s.last)) else es[s.hop - 1].km
  }

  function SectionsKm(ss: seq<Section>, es: seq<Edge>): real
    requires InRange(ss, es)
  {
    if ss == [] then 0.0
    else
      assert ss[|ss| - 1] in ss;
      SectionsKm(ss[..|ss| - 1], es) + SectionKm(ss[|ss| - 1], es)
  }

  lemma FitsOne(d: Distance, nodes: seq<Node>, chain: seq<nat>, es: seq<Edge>, s: Section)
    requires Travels(d, nodes, chain, es) && Pure(s, es) && From(s) < To(s)
    ensures Fits(s, nodes, chain, es)
  {
    hide LaidOut, IsEdge;
    if s.Riding? {
      var step := RideIsStraight(d, nodes, chain, es, s.first, s.last);
      assert InLine(nodes, chain, s.first, s.last, step);
    }
  }

  /** The legs the rider sees: a walk to the first stop, the sections, and a walk from the last stop. */
  function Folded(d: Distance, nodes: seq<Node>, chain: seq<nat>, es: seq<Edge>, from: Point, to: Point,
                  accessKm: real, egressKm: real): seq<Leg>
    requires |chain| == |es| + 1 && chain[0] < |nodes| && chain[|es|] < |nodes|
    requires forall s :: s in Sections(es) ==> Fits(s, nodes, chain, es)
  {
    var board, alight := nodes[chain[0]].stop, nodes[chain[|es|]].stop;
    [WalkOf("Your location", board.name, accessKm, [from, board.at])]
    + LegsOf(Sections(es), nodes, chain, es)
    + [WalkOf(alight.name, "Destination", egressKm, [alight.at, to])]
  }

  function Summary(legs: seq<Leg>): seq<int> {
    if legs == [] then []
    else Summary(legs[..|legs| - 1]) + if legs[|legs| - 1].RideLeg? then [legs[|legs| - 1].routeNumber] else []
  }

  // ---- The steps of the fold ----------------------------------------------------------

  /** First edge to `to` that is a ride. */
  method FindRide(edges: seq<Edge>, to: nat) returns (found: Option<Edge>)
    ensures found.None? ==> forall e :: e in edges ==> !(e.to == to && e.kind.RIDE?)
    ensures found.Some? ==> found.value in edges && found.value.to == to && found.value.kind.RIDE?
  {
    for i := 0 to |edges|
      invariant forall j :: 0 <= j < i ==> !(edges[j].to == to && edges[j].kind.RIDE?)
    {
      if edges[i].to == to && edges[i].kind == RIDE {
        return Some(edges[i]);
      }
    }
    return None;
  }

  lemma OnlyEdge(d: Distance, g: Graph, u: nat, e: Edge, f: Edge)
    requires Compiled(d, g) && u < |g.nodes| && e in g.adjacency[u] && f in g.adjacency[u] && e.to == f.to
    ensures e == f
  {
    hide LaidOut, EdgesOf, Projected;
    assert g.adjacency[u] == EdgesOf(d, g.nodes, u);
    var i :| 0 <= i < |g.adjacency[u]| && g.adjacency[u][i] == e;
    var j :| 0 <= j < |g.adjacency[u]| && g.adjacency[u][j] == f;
    if i < j {
      AtMostOneEdge(d, g.nodes, u, i, j);
    } else if j < i {
      AtMostOneEdge(d, g.nodes, u, j, i);
    }
  }

  /** The stations of the journey and the hops between them, as the arrivals recorded them. */
  ghost predicate Recovered(d: Distance, g: Graph, chain: seq<nat>, es: seq<Edge>) {
    && Compiled(d, g) && Travels(d, g.nodes, chain, es)
    && forall i :: 0 <= i < |es| ==> es[i] in g.adjacency[chain[i]]
  }

  method MakeRideLeg(d: Distance, g: Graph, chain: seq<nat>, startIdx: nat, endIdx: nat, ghost es: seq<Edge>)
    returns (leg: Leg)
    requires Recovered(d, g, chain, es) && startIdx < endIdx <= |es|
    requires Fits(Riding(startIdx, endIdx), g.nodes, chain, es) && Pure(Riding(startIdx, endIdx), es)
    ensures leg == LegOf(Riding(startIdx, endIdx), g.nodes, chain, es)
  {
    hide LaidOut, IsEdge, Projected, Changes, EdgesOf, Slice, Reverse, Round1, Round2;
    var from, to := g.nodes[chain[startIdx]], g.nodes[chain[endIdx]];
    var route := from.route;
    var routeIdx := RouteIndexOf(g, route);
    assert g.paths != [] && routeIdx < |g.paths| && g.paths[routeIdx] == route.path by {
      ghost var first := FirstOf(g.nodes, chain[startIdx]);
      assert IsFirstOf(g.nodes, first, g.nodes[chain[startIdx]].route.id);
    }
    var km, minutes := 0.0, 0.0;
    for i := startIdx + 1 to endIdx + 1
      invariant km == Kilometres(es, startIdx, i - 1)
      invariant minutes == Minutes(es, startIdx, i - 1)
    {
      var edge := FindRide(g.adjacency[chain[i - 1]], chain[i]);
      assert es[i - 1] in g.adjacency[chain[i - 1]] && es[i - 1].to == chain[i] && es[i - 1].kind.RIDE?;
      if edge.Some? {
        OnlyEdge(d, g, chain[i - 1], edge.value, es[i - 1]);
        km := km + edge.value.km;
        minutes := minutes + edge.value.minutes;
      }
    }
    var reversed := from.onPath.cumKm > to.onPath.cumKm;
    var geometry;
    if reversed {
      var slice := SubPath(g.paths[routeIdx], to.onPath, from.onPath);
      geometry := Reverse(slice);
    } else {
      geometry := SubPath(g.paths[routeIdx], from.onPath, to.onPath);
    }
    SliceSize(from, to, geometry);
    if |geometry| < 2 {
      geometry := [from.stop.at, to.stop.at];
    }
    leg := RideLeg(from.stop.name, to.stop.name, route.routeNumber, route.name, route.color, endIdx - startIdx,
                   Round1(route.frequencyMinutes as real / 2.0), Round2(km), Round1(minutes), geometry);
  }

  lemma SliceSize(a: Node, b: Node, geometry: seq<Point>)
    requires a.route == b.route && OnPath(a) && OnPath(b)
    requires var path := a.route.path;
      geometry == if |path| < 2 then [] else
                  if a.onPath.cumKm > b.onPath.cumKm then Reverse(Slice(path, b.onPath, a.onPath))
                  else Slice(path, a.onPath, b.onPath)
    ensures RideGeometry(a, b) == if |geometry| < 2 then [a.stop.at, b.stop.at] else geometry
  {
  }

  lemma {:induction false} FirstOf(nodes: seq<Node>, j: nat) returns (first: nat)
    requires j < |nodes|
    ensures IsFirstOf(nodes, first, nodes[j].route.id)
  {
    if i :| 0 <= i < j && nodes[i].route.id == nodes[j].route.id {
      first := FirstOf(nodes, i);
    } else {
      first := j;
    }
  }

  lemma LegsAppend(ss: seq<Section>, s: Section, nodes: seq<Node>, chain: seq<nat>, es: seq<Edge>)
    requires (forall t :: t in ss ==> Fits(t, nodes, chain, es)) && Fits(s, nodes, chain, es)
    ensures forall t :: t in ss + [s] ==> Fits(t, nodes, chain, es)
    ensures LegsOf(ss + [s], nodes, chain, es) == LegsOf(ss, nodes, chain, es) + [LegOf(s, nodes, chain, es)]
  {
    hide Fits, LegOf;
    assert (ss + [s])[..|ss|] == ss;
  }

  lemma KmAppend(ss: seq<Section>, s: Section, es: seq<Edge>)
    requires InRange(ss, es) && 0 <= From(s) < To(s) <= |es|
    ensures InRange(ss + [s], es) && SectionsKm(ss + [s], es) == SectionsKm(ss, es) + SectionKm(s, es)
  {
    assert (ss + [s])[..|ss|] == ss;
  }

  /** Legs, kilometres and transfers after some sections, starting from the access walk. */
  ghost predicate SoFar(legs: seq<Leg>, totalKm: real, transfers: nat, ss: seq<Section>, access: Leg, accessKm: real,
                        nodes: seq<Node>, chain: seq<nat>, es: seq<Edge>)
  {
    && InRange(ss, es) && (forall s :: s in ss ==> Fits(s, nodes, chain, es))
    && legs == [access] + LegsOf(ss, nodes, chain, es)
    && totalKm == accessKm + SectionsKm(ss, es)
    && transfers == Transfers(ss)
  }

  lemma OneMore(legs: seq<Leg>, totalKm: real, transfers: nat, ss: seq<Section>, access: Leg, accessKm: real,
                nodes: seq<Node>, chain: seq<nat>, es: seq<Edge>, s: Section)
    requires SoFar(legs, totalKm, transfers, ss, access, accessKm, nodes, chain, es) && Fits(s, nodes, chain, es)
    ensures SoFar(legs + [LegOf(s, nodes, chain, es)], totalKm + SectionKm(s, es),
                  transfers + if s.Transferring? then 1 else 0, ss + [s], access, accessKm, nodes, chain, es)
  {
    hide LegOf, SectionKm;
    LegsAppend(ss, s, nodes, chain, es);
    KmAppend(ss, s, es);
    TransfersAppend(ss, s);
  }

  /** Walks the hops in order, closing a ride at each transfer and at the last hop. */
  method FoldHops(d: Distance, g: Graph, chain: seq<nat>, es: seq<Edge>, access: Leg, accessKm: real)
    returns (legs: seq<Leg>, totalKm: real, transfers: nat)
    requires Recovered(d, g, chain, es)
    ensures SoFar(legs, totalKm, transfers, Sections(es), access, accessKm, g.nodes, chain, es)
  {
    hide Closed, SectionsUpTo, RideStart, SoFar, LegOf, Fits, Compiled, IsEdge, LaidOut, Divides, Kilometres, Minutes;
    legs, totalKm, transfers := [access], accessKm, 0;
    var rideStart := 0;
    AtFirst(es);
    StartFold(access, accessKm, g.nodes, chain, es);
    for i := 1 to |chain|
      invariant rideStart == RideStart(es, i - 1)
      invariant i < |chain| || es == [] ==>
        SoFar(legs, totalKm, transfers, Closed(es, i - 1), access, accessKm, g.nodes, chain, es)
      invariant i == |chain| ==>
        SoFar(legs, totalKm, transfers, Sections(es), access, accessKm, g.nodes, chain, es)
    {
      var edge := es[i - 1];
      var lastHop := i == |chain| - 1;
      FoldStep(d, g.nodes, chain, es, i);
      if edge.kind == TRANSFER || lastHop {
        var rideEnd := if edge.kind == TRANSFER then i - 1 else i;
        if rideEnd > rideStart {
          var ride := MakeRideLeg(d, g, chain, rideStart, rideEnd, es);
          OneMore(legs, totalKm, transfers, Closed(es, i - 1), access, accessKm, g.nodes, chain, es,
                  Riding(rideStart, rideEnd));
          assert ride.distanceKm == SectionKm(Riding(rideStart, rideEnd), es) by {
            RideKmOf(Riding(rideStart, rideEnd), g.nodes, chain, es);
          }
          legs := legs + [ride];
          totalKm := totalKm + ride.distanceKm;
        }
        if edge.kind == TRANSFER {
          var a, b := g.nodes[chain[i - 1]], g.nodes[chain[i]];
          OneMore(legs, totalKm, transfers, SectionsUpTo(es, i - 1), access, accessKm, g.nodes, chain, es,
                  Transferring(i));
          assert WalkOf(a.stop.name, b.stop.name, edge.km, [a.stop.at, b.stop.at])
              == LegOf(Transferring(i), g.nodes, chain, es) by {
            TransferLeg(i, g.nodes, chain, es);
          }
          legs := legs + [WalkOf(a.stop.name, b.stop.name, edge.km, [a.stop.at, b.stop.at])];
          totalKm := totalKm + edge.km;
          transfers := transfers + 1;
          rideStart := i;
        }
      }
    }
  }

  lemma StartFold(access: Leg, accessKm: real, nodes: seq<Node>, chain: seq<nat>, es: seq<Edge>)
    ensures SoFar([access], accessKm, 0, [], access, accessKm, nodes, chain, es)
  {
  }

  lemma RideKmOf(s: Section, nodes: seq<Node>, chain: seq<nat>, es: seq<Edge>)
    requires Fits(s, nodes, chain, es) && s.Riding?
    ensures LegOf(s, nodes, chain, es).distanceKm == SectionKm(s, es)
  {
  }

  lemma TransferLeg(i: nat, nodes: seq<Node>, chain: seq<nat>, es: seq<Edge>)
    requires Fits(Transferring(i), nodes, chain, es)
    ensures var a, b := nodes[chain[i - 1]].stop, nodes[chain[i]].stop;
      LegOf(Transferring(i), nodes, chain, es) == WalkOf(a.name, b.name, es[i - 1].km, [a.at, b.at])
  {
  }

  /** What hop `i` closes. */
  lemma FoldStep(d: Distance, nodes: seq<Node>, chain: seq<nat>, es: seq<Edge>, i: nat)
    requires Travels(d, nodes, chain, es) && 0 < i <= |es|
    ensures var start, before := RideStart(es, i - 1), Closed(es, i - 1);
      if es[i - 1].kind.TRANSFER? then
        && SectionsUpTo(es, i - 1) == (if i - 1 > start then before + [Riding(start, i - 1)] else before)
        && Closed(es, i) == SectionsUpTo(es, i) == SectionsUpTo(es, i - 1) + [Transferring(i)]
        && RideStart(es, i) == i
        && Fits(Transferring(i), nodes, chain, es)
        && (i - 1 > start ==> Fits(Riding(start, i - 1), nodes, chain, es) && Pure(Riding(start, i - 1), es))
      else
        && Closed(es, i) == before && RideStart(es, i) == start
        && SectionsUpTo(es, i) == before + [Riding(start, i)]
        && Fits(Riding(start, i), nodes, chain, es) && Pure(Riding(start, i), es)
  {
    hide Closed, IsEdge, LaidOut;
    var start := RideStart(es, i - 1);
    if es[i - 1].kind.TRANSFER? {
      AfterTransfer(es, i);
      assert Closed(es, i - 1) + [] == Closed(es, i - 1);
      FitsOne(d, nodes, chain, es, Transferring(i));
      if i - 1 > start {
        FitsOne(d, nodes, chain, es, Riding(start, i - 1));
      }
    } else {
      AfterRide(es, i);
      FitsOne(d, nodes, chain, es, Riding(start, i));
    }
  }
}
