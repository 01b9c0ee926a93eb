/** The compiled network spelled out over routes and stops, and what a journey through it costs. */
module NetworkLaws {
  import opened Geo
  import Polyline
  import opened Network
  import opened ShortestPath
  import opened Itinerary
  import opened Access
  import opened Journey
  import opened Planner
  import opened PlannerGuarantees

  /** Stop `i` of the `k`-th route served, as a node of the graph. */
  function NodeOf(routes: seq<Route>, k: nat, i: nat): nat
    requires k < |Served(routes)|
  {
    First(Served(routes), k) + i
  }

  ghost predicate IsStop(routes: seq<Route>, k: nat, i: nat) {
    k < |Served(routes)| && i < |Served(routes)[k].stops|
  }

  /** An edge of the given kind from one stop to another. */
  ghost predicate Linked(g: Graph, u: nat, v: nat, kind: EdgeKind) {
    u < |g.adjacency| && exists e :: e in g.adjacency[u] && e.to == v && e.kind == kind
  }

  lemma StopNode(d: Distance, routes: seq<Route>, k: nat, i: nat)
    requires IsNetwork(routes) && IsStop(routes, k, i)
    ensures var g, v := GraphOf(d, routes), NodeOf(routes, k, i);
      && |g.adjacency| == |g.nodes| && v < |g.nodes| && LaidOut(g.nodes)
      && g.adjacency[v] == EdgesOf(d, g.nodes, v)
      && g.nodes[v].route == Served(routes)[k] && g.nodes[v].stop == Served(routes)[k].stops[i]
      && g.nodes[v].stopIndex == i
      && g.nodes[v].onPath == Polyline.Projected(d, Served(routes)[k].stops[i].at, Served(routes)[k].path)
  {
    hide Served, First, LaidOut, EdgesOf, Polyline.Projected, NodesOf, PathsOf;
    var rs := Served(routes);
    ServedIsNetwork(routes);
    NodeAt(d, rs, k, i);
    NodesAreLaidOut(d, rs);
  }

  lemma RouteApart(routes: seq<Route>, k: nat, m: nat)
    requires IsNetwork(routes) && k < |Served(routes)| && m < |Served(routes)|
    ensures Served(routes)[k].id == Served(routes)[m].id <==> k == m
  {
    ServedIsNetwork(routes);
  }

  /**
   * Two stops are joined by a transfer exactly when they belong to different routes and lie within 0.4 km; it counts
   * their distance, and takes the walk at 4.5 km/h and half the headway of the route changed to. As distance is the
   * same both ways, so is being joined.
   */
  lemma TransfersSpelledOut(d: Distance, routes: seq<Route>, k: nat, i: nat, m: nat, j: nat)
    requires IsNetwork(routes) && IsStop(routes, k, i) && IsStop(routes, m, j)
    ensures var g, u, v := GraphOf(d, routes), NodeOf(routes, k, i), NodeOf(routes, m, j);
      var rs := Served(routes);
      var km := d(rs[k].stops[i].at, rs[m].stops[j].at);
      && u < |g.adjacency| && v < |g.adjacency|
      && (Linked(g, u, v, TRANSFER) <==> k != m && km <= 0.4)
      && (Linked(g, u, v, TRANSFER) <==> Linked(g, v, u, TRANSFER))
      && forall e :: e in g.adjacency[u] && e.to == v && e.kind == TRANSFER ==>
           e.km == km && e.minutes == 40.0 / 3.0 * km + rs[m].frequencyMinutes as real / 2.0
  {
    OneWayTransfer(d, routes, k, i, m, j);
    OneWayTransfer(d, routes, m, j, k, i);
  }

  lemma OneWayTransfer(d: Distance, routes: seq<Route>, k: nat, i: nat, m: nat, j: nat)
    requires IsNetwork(routes) && IsStop(routes, k, i) && IsStop(routes, m, j)
    ensures var g, u, v := GraphOf(d, routes), NodeOf(routes, k, i), NodeOf(routes, m, j);
      var rs := Served(routes);
      var km := d(rs[k].stops[i].at, rs[m].stops[j].at);
      && u < |g.adjacency| && v < |g.adjacency|
      && (Linked(g, u, v, TRANSFER) <==> k != m && km <= 0.4)
      && forall e :: e in g.adjacency[u] && e.to == v && e.kind == TRANSFER ==>
           e.km == km && e.minutes == 40.0 / 3.0 * km + rs[m].frequencyMinutes as real / 2.0
  {
    hide Served, First, GraphOf, NodeOf, LaidOut, EdgesOf, Polyline.Projected;
    var g, u, v := GraphOf(d, routes), NodeOf(routes, k, i), NodeOf(routes, m, j);
    StopNode(d, routes, k, i);
    StopNode(d, routes, m, j);
    RouteApart(routes, k, m);
    if k != m && d(Served(routes)[k].stops[i].at, Served(routes)[m].stops[j].at) <= 0.4 {
      var e := TransferEdge(d, g.nodes[u], g.nodes[v], v);
      EdgesAre(d, g.nodes, u, e);
      assert Linked(g, u, v, TRANSFER);
    }
    forall e | e in g.adjacency[u] && e.to == v && e.kind == TRANSFER
      ensures k != m && d(Served(routes)[k].stops[i].at, Served(routes)[m].stops[j].at) <= 0.4
      ensures e == TransferEdge(d, g.nodes[u], g.nodes[v], v)
    {
      EdgesAre(d, g.nodes, u, e);
    }
  }

  /** The kilometres between two adjacent stops: along the path, or 1.25 times the straight distance. */
  function HopKm(d: Distance, r: Route, i: nat): real
    requires i + 1 < |r.stops|
  {
    var a, b := r.stops[i].at, r.stops[i + 1].at;
    var along := Polyline.Projected(d, b, r.path).cumKm - Polyline.Projected(d, a, r.path).cumKm;
    if along > 0.001 then along else 1.25 * d(a, b)
  }

  /** Two stops are joined by a ride exactly when they are adjacent on one route, with the same figures both ways. */
  lemma RidesSpelledOut(d: Distance, routes: seq<Route>, k: nat, i: nat, m: nat, j: nat)
    requires IsNetwork(routes) && IsStop(routes, k, i) && IsStop(routes, m, j)
    ensures var g, u, v := GraphOf(d, routes), NodeOf(routes, k, i), NodeOf(routes, m, j);
      var r := Served(routes)[k];
      && u < |g.adjacency| && v < |g.adjacency|
      && (Linked(g, u, v, RIDE) <==> k == m && (j == i + 1 || i == j + 1))
      && forall e :: e in g.adjacency[u] && e.to == v && e.kind == RIDE ==>
           && (j == i + 1 || i == j + 1)
           && e.km == HopKm(d, r, if j == i + 1 then i else j) && e.minutes == 3.0 * e.km + 0.4
  {
    hide Served, First, GraphOf, LaidOut, EdgesOf, Polyline.Projected;
    var g, u, v := GraphOf(d, routes), NodeOf(routes, k, i), NodeOf(routes, m, j);
    StopNode(d, routes, k, i);
    StopNode(d, routes, m, j);
    RouteApart(routes, k, m);
    if k == m && (j == i + 1 || i == j + 1) {
      var lower, upper := if u < v then u else v, if u < v then v else u;
      var e := RideEdge(RideKm(d, g.nodes[lower], g.nodes[upper]), v);
      EdgesAre(d, g.nodes, u, e);
      assert Linked(g, u, v, RIDE);
    }
    forall e | e in g.adjacency[u] && e.to == v && e.kind == RIDE
      ensures k == m && (j == i + 1 || i == j + 1)
      ensures e.km == HopKm(d, Served(routes)[k], if j == i + 1 then i else j) && e.minutes == 3.0 * e.km + 0.4
    {
      EdgesAre(d, g.nodes, u, e);
    }
  }

  /** No edge leads anywhere but to a stop. */
  lemma EdgesLeadToStops(d: Distance, routes: seq<Route>, u: nat, e: Edge) returns (m: nat, j: nat)
    requires IsNetwork(routes) && u < |GraphOf(d, routes).adjacency| && e in GraphOf(d, routes).adjacency[u]
    ensures IsStop(routes, m, j) && e.to == NodeOf(routes, m, j)
  {
    hide Served, First, LaidOut, EdgesOf, NodesOf, PathsOf;
    var g := GraphOf(d, routes);
    ServedIsNetwork(routes);
    NodesAreLaidOut(d, Served(routes));
    EdgeCosts(d, g.nodes, u, e);
    m, j := Locate(d, Served(routes), e.to);
  }

  /** From door to door: both street walks at 4.5 km/h, half the first headway, and every hop. */
  lemma DoorMinutesSpelledOut(d: Distance, g: Graph, from: Point, to: Point, t: Trip)
    requires Compiled(d, g) && DoorToDoor(d, g, from, to, t)
    ensures Stations(t)[0] < |g.nodes| && End(t) < |g.nodes|
    ensures var first, last := g.nodes[Stations(t)[0]], g.nodes[End(t)];
      && d(from, first.stop.at) <= 1.5 && d(to, last.stop.at) <= 1.5
      && DoorMinutes(d, g, to, t) ==
         50.0 / 3.0 * d(from, first.stop.at) + first.route.frequencyMinutes as real / 2.0
         + Minutes(Hops(t), 0, |Hops(t)|) + 50.0 / 3.0 * d(to, last.stop.at)
  {
    hide Compiled, AccessCandidates, Minutes;
    TripStart(d, g, from, to, t);
    CostSplits(t);
  }

  lemma TripStart(d: Distance, g: Graph, from: Point, to: Point, t: Trip)
    requires Compiled(d, g) && DoorToDoor(d, g, from, to, t)
    ensures var v := Stations(t)[0];
      v < |g.nodes| && Start(t) == BoardingAt(d, from, g.nodes[v]) && d(from, g.nodes[v].stop.at) <= 1.5
    ensures End(t) < |g.nodes| && d(to, g.nodes[End(t)].stop.at) <= 1.5
  {
    hide Compiled, AccessCandidates, BoardingAt;
    TripBoards(d, g, from, to, t);
    StartCandidate(d, g, from, to, t);
    CompiledOrder(d, g);
    CandidatesAreNearest(d, from, g.nodes);
    CandidatesAreNearest(d, to, g.nodes);
  }

  lemma StartCandidate(d: Distance, g: Graph, from: Point, to: Point, t: Trip)
    requires Compiled(d, g) && DoorToDoor(d, g, from, to, t)
    ensures var v := Stations(t)[0]; v < |g.nodes| && g.nodes[v] in AccessCandidates(d, from, g.nodes)
  {
    hide Compiled, AccessCandidates, BoardingAt;
    var cs, bs := AccessCandidates(d, from, g.nodes), Boardings(d, g, from);
    StartIsBoarding(g.adjacency, bs, t);
    var i :| 0 <= i < |bs| && bs[i] == Start(t);
    CandidateIsNode(d, g, from, cs[i]);
    StartNode(d, from, cs[i]);
  }

  lemma CompiledOrder(d: Distance, g: Graph)
    requires Compiled(d, g)
    ensures IdsGrow(g.nodes)
  {
    NodeIdsGrow(g.nodes);
  }
}
