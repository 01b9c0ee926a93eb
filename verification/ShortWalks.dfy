/** When the direct walk is as good as anything that does not ride, so that short journeys are answered well. */
module ShortWalks {
  import opened Geo
  import Polyline
  import opened Network
  import opened ShortestPath
  import opened Access
  import opened Journey
  import opened Planner

  /** Buses of every route served come at least three minutes apart. */
  ghost predicate SparseService(routes: seq<Route>) {
    forall r :: r in Served(routes) ==> r.frequencyMinutes >= 3
  }

  ghost predicate SparseNodes(nodes: seq<Node>) {
    forall u :: 0 <= u < |nodes| ==> nodes[u].route.frequencyMinutes >= 3
  }

  /** No way from door to door, ridden or walked, is more than 0.05 minutes faster. */
  ghost predicate NearBest(d: Distance, g: Graph, from: Point, to: Point, minutes: real) {
    && minutes <= WalkMinutes(StreetKm(d, from, to)) + 0.05
    && forall t :: DoorToDoor(d, g, from, to, t) ==> minutes <= DoorMinutes(d, g, to, t) + 0.05
  }

  /** No way from door to door on foot through the network is more than 0.05 minutes faster than the direct walk. */
  ghost predicate NoShortcut(d: Distance, g: Graph, from: Point, to: Point) {
    forall t :: DoorToDoor(d, g, from, to, t) && !RidesBus(t) ==>
      WalkMinutes(StreetKm(d, from, to)) <= DoorMinutes(d, g, to, t) + 0.05
  }

  lemma SparseGraph(d: Distance, routes: seq<Route>)
    requires IsNetwork(routes) && SparseService(routes)
    ensures SparseNodes(GraphOf(d, routes).nodes)
  {
    hide Polyline.Projected, EdgesOf, LaidOut, Served, NodesOf, PathsOf;
    ServedIsNetwork(routes);
    NodesAreLaidOut(d, Served(routes));
  }

  lemma WalkOfSum(x: real, y: real)
    ensures WalkMinutes(x + y) == WalkMinutes(x) + WalkMinutes(y)
    ensures x <= y ==> WalkMinutes(x) <= WalkMinutes(y)
  {
  }

  /** Not counting the detours of streets, a transfer saves less than its wait costs. */
  lemma TransferSavesLittle(km: real, r: Route)
    requires km <= MAX_TRANSFER_WALK_KM && r.frequencyMinutes >= 3
    ensures WalkMinutes(km * INDIRECTNESS) <= WalkMinutes(km) + HalfHeadway(r)
  {
  }

  /** To each stop a way on foot takes at least a minute and a half longer than walking there directly. */
  lemma {:induction false} WayOnFoot(d: Distance, g: Graph, from: Point, t: Trip)
    requires IsMetric(d) && Compiled(d, g) && SparseNodes(g.nodes)
    requires IsTrip(g.adjacency, Boardings(d, g, from), t) && !RidesBus(t)
    ensures End(t) < |g.nodes| && Cost(t) >= WalkMinutes(StreetKm(d, from, g.nodes[End(t)].stop.at)) + 1.5
  {
    hide Compiled, IsEdge, WalkMinutes, AccessCandidates, RidesBus, IsMetric;
    if t.Board? {
      var cs, bs := AccessCandidates(d, from, g.nodes), Boardings(d, g, from);
      var i :| 0 <= i < |bs| && bs[i] == t.start;
      CandidateIsNode(d, g, from, cs[i]);
    } else {
      RidelessPrefix(t);
      WayOnFoot(d, g, from, t.prev);
      var u, e := End(t.prev), t.edge;
      WalkedEdge(d, g, u, e);
      var a, b := g.nodes[u].stop.at, g.nodes[e.to].stop.at;
      TransferSavesLittle(d(a, b), g.nodes[e.to].route);
      Onward(d, from, a, b);
    }
  }

  lemma Onward(d: Distance, from: Point, a: Point, b: Point)
    requires IsMetric(d)
    ensures WalkMinutes(StreetKm(d, from, b)) <= WalkMinutes(StreetKm(d, from, a)) + WalkMinutes(d(a, b) * INDIRECTNESS)
  {
    assert d(from, b) <= d(from, a) + d(a, b);
  }

  lemma RidelessPrefix(t: Trip)
    requires t.Hop? && !RidesBus(t)
    ensures !RidesBus(t.prev) && t.edge.kind.TRANSFER?
  {
    assert Hops(t) == Hops(t.prev) + [t.edge];
    assert t.edge in Hops(t);
    assert forall e :: e in Hops(t.prev) ==> e in Hops(t);
  }

  lemma WalkedEdge(d: Distance, g: Graph, u: nat, e: Edge)
    requires Compiled(d, g) && SparseNodes(g.nodes) && u < |g.nodes| && e in g.adjacency[u] && e.kind.TRANSFER?
    ensures e.to < |g.nodes| && g.nodes[e.to].route.frequencyMinutes >= 3
    ensures var km := d(g.nodes[u].stop.at, g.nodes[e.to].stop.at);
      km <= MAX_TRANSFER_WALK_KM && e.minutes == WalkMinutes(km) + HalfHeadway(g.nodes[e.to].route)
  {
    hide LaidOut, EdgesOf, Changes, Polyline.Projected;
    assert g.adjacency[u] == EdgesOf(d, g.nodes, u);
    EdgesAre(d, g.nodes, u, e);
  }

  /** So from door to door no way without a ride beats the direct walk. */
  lemma WalkBeatsRideless(d: Distance, g: Graph, from: Point, to: Point, t: Trip)
    requires IsMetric(d) && Compiled(d, g) && SparseNodes(g.nodes)
    requires DoorToDoor(d, g, from, to, t) && !RidesBus(t)
    ensures DoorMinutes(d, g, to, t) >= WalkMinutes(StreetKm(d, from, to)) + 1.5
  {
    hide Compiled, WalkMinutes, Boardings, AccessCandidates;
    WayOnFoot(d, g, from, t);
    var a := g.nodes[End(t)].stop.at;
    Onward(d, from, a, to);
    assert d(a, to) == d(to, a);
  }

  /** Where detours are no shorter and buses come at least three minutes apart, there are no shortcuts. */
  lemma SparseHasNoShortcut(d: Distance, routes: seq<Route>, from: Point, to: Point)
    requires IsNetwork(routes) && IsMetric(d) && SparseService(routes)
    ensures NoShortcut(d, GraphOf(d, routes), from, to)
  {
    hide GraphOf, Compiled, WalkMinutes, Boardings, AccessCandidates, RidesBus, IsMetric, SparseService, SparseNodes;
    var g := GraphOf(d, routes);
    GraphIsCompiled(d, routes);
    SparseGraph(d, routes);
    forall t | DoorToDoor(d, g, from, to, t) && !RidesBus(t)
      ensures WalkMinutes(StreetKm(d, from, to)) <= DoorMinutes(d, g, to, t) + 0.05
    {
      WalkBeatsRideless(d, g, from, to, t);
    }
  }

  /** Where the fastest trip does not ride, the walk is as good as any trip exactly if there are no shortcuts. */
  lemma WalkIsNearBest(d: Distance, g: Graph, from: Point, to: Point, best: Trip)
    requires Fastest(d, g, from, to, best) && !RidesBus(best)
    ensures NearBest(d, g, from, to, WalkMinutes(StreetKm(d, from, to))) <==> NoShortcut(d, g, from, to)
  {
    hide WalkMinutes, DoorToDoor, RidesBus, DoorMinutes;
  }
}
