/** Compiles the routes into the planner's graph: one node per (route, stop), ride hops and transfer walks. */
module Network {
  import opened Geo
  import opened Polyline

  const BUS_SPEED_KMH := 20.0
  const WALK_SPEED_KMH := 4.5
  const MAX_TRANSFER_WALK_KM := 0.4
  const DWELL_MINUTES_PER_STOP := 0.4
  const INDIRECTNESS := 1.25

  datatype Stop = Stop(name: string, at: Point)

  datatype Route = Route(id: int, routeNumber: int, name: string, color: string, frequencyMinutes: int,
                         active: bool, path: seq<Point>, stops: seq<Stop>)

  datatype Node = Node(id: nat, route: Route, stopIndex: nat, stop: Stop, onPath: Projection)

  datatype EdgeKind = RIDE | TRANSFER

  datatype Edge = Edge(to: nat, minutes: real, km: real, kind: EdgeKind)

  datatype Graph = Graph(nodes: seq<Node>, adjacency: seq<seq<Edge>>, paths: seq<seq<Point>>)

  /** Row ids are unique and headways are at least a minute, as the store and the request validation keep them. */
  ghost predicate IsNetwork(routes: seq<Route>) {
    && (forall i, j :: 0 <= i < j < |routes| ==> routes[i].id != routes[j].id)
    && (forall i :: 0 <= i < |routes| ==> routes[i].frequencyMinutes >= 1)
  }

  function Served(routes: seq<Route>): seq<Route> {
    if routes == [] then []
    else
      var last := routes[|routes| - 1];
      Served(routes[..|routes| - 1]) + if last.active && |last.stops| >= 2 then [last] else []
  }

  lemma {:induction false} ServedContains(routes: seq<Route>, r: Route)
    ensures r in Served(routes) <==> r in routes && r.active && |r.stops| >= 2
  {
    if routes != [] {
      var n := |routes| - 1;
      ServedContains(routes[..n], r);
      assert routes == routes[..n] + [routes[n]];
    }
  }

  /** They are served in the order in which they are stored. */
  lemma {:induction false} ServedInOrder(routes: seq<Route>) returns (at: seq<nat>)
    ensures |at| == |Served(routes)|
    ensures forall k :: 0 <= k < |at| ==> at[k] < |routes| && routes[at[k]] == Served(routes)[k]
    ensures forall k, l :: 0 <= k < l < |at| ==> at[k] < at[l]
  {
    at := [];
    if routes != [] {
      var n := |routes| - 1;
      at := ServedInOrder(routes[..n]);
      if routes[n].active && |routes[n].stops| >= 2 {
        at := at + [n];
      }
    }
  }

  lemma {:induction false} ServedIsNetwork(routes: seq<Route>)
    requires IsNetwork(routes)
    ensures IsNetwork(Served(routes))
  {
    if routes != [] {
      var n := |routes| - 1;
      var before := Served(routes[..n]);
      ServedIsNetwork(routes[..n]);
      forall i | 0 <= i < |before|
        ensures before[i].id != routes[n].id
      {
        ServedContains(routes[..n], before[i]);
        var p :| 0 <= p < n && routes[p] == before[i];
      }
    }
  }

  // ---- Nodes ------------------------------------------------------------------

  function MakeNode(d: Distance, r: Route, base: nat, i: nat): Node
    requires i < |r.stops|
  {
    Node(base + i, r, i, r.stops[i], Projected(d, r.stops[i].at, r.path))
  }

  function Block(d: Distance, r: Route, base: nat, k: nat): (block: seq<Node>)
    requires k <= |r.stops|
    ensures |block| == k
    ensures forall i :: 0 <= i < k ==> block[i] == MakeNode(d, r, base, i)
  {
    if k == 0 then [] else Block(d, r, base, k - 1) + [MakeNode(d, r, base, k - 1)]
  }

  function NodesOf(d: Distance, rs: seq<Route>): seq<Node> {
    if rs == [] then []
    else
      var before := NodesOf(d, rs[..|rs| - 1]);
      var last := rs[|rs| - 1];
      before + Block(d, last, |before|, |last.stops|)
  }

  function PathsOf(rs: seq<Route>): (paths: seq<seq<Point>>)
    ensures |paths| == |rs|
    ensures forall k :: 0 <= k < |rs| ==> paths[k] == rs[k].path
  {
    if rs == [] then [] else PathsOf(rs[..|rs| - 1]) + [rs[|rs| - 1].path]
  }

  /** Where the block of nodes of route `k` starts. */
  function First(rs: seq<Route>, k: nat): nat
    requires k <= |rs|
  {
    if k == 0 then 0 else First(rs, k - 1) + |rs[k - 1].stops|
  }

  lemma {:induction false} FirstOfPrefix(rs: seq<Route>, m: nat, k: nat)
    requires k <= m <= |rs|
    ensures First(rs[..m], k) == First(rs, k)
  {
    if k > 0 {
      FirstOfPrefix(rs, m, k - 1);
    }
  }

  /** Each route occupies one contiguous block, in stop order. */
  lemma {:induction false} NodeAt(d: Distance, rs: seq<Route>, k: nat, i: nat)
    requires k < |rs| && i < |rs[k].stops|
    ensures First(rs, k) + i < |NodesOf(d, rs)|
    ensures NodesOf(d, rs)[First(rs, k) + i] == MakeNode(d, rs[k], First(rs, k), i)
  {
    hide Projected, NodesOf, MakeNode;
    var n := |rs| - 1;
    NodeCount(d, rs[..n]);
    FirstOfPrefix(rs, n, n);
    LastBlock(d, rs);
    if k < n {
      NodeAt(d, rs[..n], k, i);
      FirstOfPrefix(rs, n, k);
    }
  }

  lemma LastBlock(d: Distance, rs: seq<Route>)
    requires rs != []
    ensures var n, before := |rs| - 1, NodesOf(d, rs[..|rs| - 1]);
      NodesOf(d, rs) == before + Block(d, rs[n], |before|, |rs[n].stops|)
  {
    hide Projected, MakeNode, Block;
  }

  lemma {:induction false} NodeCount(d: Distance, rs: seq<Route>)
    ensures |NodesOf(d, rs)| == First(rs, |rs|)
  {
    hide Projected;
    if rs != [] {
      var n := |rs| - 1;
      NodeCount(d, rs[..n]);
      FirstOfPrefix(rs, n, n);
    }
  }

  /** And every node lies in some route's block. */
  lemma {:induction false} Locate(d: Distance, rs: seq<Route>, j: nat) returns (k: nat, i: nat)
    requires j < |NodesOf(d, rs)|
    ensures k < |rs| && i < |rs[k].stops| && j == First(rs, k) + i
    ensures NodesOf(d, rs)[j] == MakeNode(d, rs[k], First(rs, k), i)
  {
    hide Projected;
    var n := |rs| - 1;
    var before := |NodesOf(d, rs[..n])|;
    NodeCount(d, rs[..n]);
    FirstOfPrefix(rs, n, n);
    if j >= before {
      k, i := n, j - before;
    } else {
      k, i := Locate(d, rs[..n], j);
      FirstOfPrefix(rs, n, k);
    }
    NodeAt(d, rs, k, i);
  }

  predicate HasNext(node: Node) {
    node.stopIndex + 1 < |node.route.stops|
  }

  predicate SameRoute(a: Node, b: Node) {
    a.route.id == b.route.id
  }

  ghost predicate InPlace(nodes: seq<Node>, j: int)
    requires 0 <= j < |nodes|
  {
    && nodes[j].id == j
    && nodes[j].stopIndex < |nodes[j].route.stops|
    && nodes[j].stop == nodes[j].route.stops[nodes[j].stopIndex]
    && nodes[j].route.frequencyMinutes >= 1
    && (HasNext(nodes[j]) ==> j + 1 < |nodes| && SameRoute(nodes[j], nodes[j + 1]))
  }

  /** How the nodes of one route sit next to each other. */
  ghost predicate LaidOut(nodes: seq<Node>) {
    && (forall j :: 0 <= j < |nodes| ==> InPlace(nodes, j))
    && (forall i, j :: 0 <= i < |nodes| && 0 <= j < |nodes| && SameRoute(nodes[i], nodes[j]) ==>
          && nodes[i].route == nodes[j].route
          && i - j == nodes[i].stopIndex - nodes[j].stopIndex)
  }

  lemma PlaceOf(nodes: seq<Node>, j: nat)
    requires LaidOut(nodes) && j < |nodes|
    ensures InPlace(nodes, j)
  {
  }

  lemma NodeFacts(d: Distance, rs: seq<Route>, j: nat)
    requires IsNetwork(rs) && j < |NodesOf(d, rs)|
    ensures InPlace(NodesOf(d, rs), j) && NodesOf(d, rs)[j].route in rs
  {
    hide Projected, NodesOf;
    var k, i := Locate(d, rs, j);
    if HasNext(NodesOf(d, rs)[j]) {
      NodeAt(d, rs, k, i + 1);
    }
  }

  lemma NodesAreLaidOut(d: Distance, rs: seq<Route>)
    requires IsNetwork(rs)
    ensures LaidOut(NodesOf(d, rs))
    ensures forall j :: 0 <= j < |NodesOf(d, rs)| ==> NodesOf(d, rs)[j].route in rs
  {
    hide Projected, NodesOf, InPlace;
    var nodes := NodesOf(d, rs);
    forall j | 0 <= j < |nodes|
      ensures InPlace(nodes, j) && nodes[j].route in rs
    {
      NodeFacts(d, rs, j);
    }
    forall a, b | 0 <= a < |nodes| && 0 <= b < |nodes| && SameRoute(nodes[a], nodes[b])
      ensures nodes[a].route == nodes[b].route && a - b == nodes[a].stopIndex - nodes[b].stopIndex
    {
      var k, i := Locate(d, rs, a);
      var m, j := Locate(d, rs, b);
    }
  }

  // ---- Edges --------------------------------------------------------------------

  function RideKm(d: Distance, a: Node, next: Node): real {
    var km := next.onPath.cumKm - a.onPath.cumKm;
    if km <= 0.001 then d(a.stop.at, next.stop.at) * INDIRECTNESS else km
  }

  function RideMinutes(km: real): real {
    km / BUS_SPEED_KMH * 60.0 + DWELL_MINUTES_PER_STOP
  }

  function WalkMinutes(km: real): real {
    km / WALK_SPEED_KMH * 60.0
  }

  function HalfHeadway(r: Route): real {
    r.frequencyMinutes as real / 2.0
  }

  function RideEdge(km: real, to: nat): Edge {
    Edge(to, RideMinutes(km), km, RIDE)
  }

  function TransferEdge(d: Distance, a: Node, b: Node, to: nat): Edge {
    var walkKm := d(a.stop.at, b.stop.at);
    Edge(to, WalkMinutes(walkKm) + HalfHeadway(b.route), walkKm, TRANSFER)
  }

  predicate CanTransfer(d: Distance, a: Node, b: Node) {
    !SameRoute(a, b) && d(a.stop.at, b.stop.at) <= MAX_TRANSFER_WALK_KM
  }

  /** The hop back to the previous stop, present once nodes `0..n` have been visited. */
  function RideBack(d: Distance, nodes: seq<Node>, u: nat, n: nat): seq<Edge>
    requires u < |nodes|
  {
    if 0 < u <= n && HasNext(nodes[u - 1]) then [RideEdge(RideKm(d, nodes[u - 1], nodes[u]), u - 1)] else []
  }

  function RideOn(d: Distance, nodes: seq<Node>, u: nat, n: nat): seq<Edge>
    requires u < |nodes|
  {
    if u < n && u + 1 < |nodes| && HasNext(nodes[u]) then [RideEdge(RideKm(d, nodes[u], nodes[u + 1]), u + 1)] else []
  }

  function RidesOf(d: Distance, nodes: seq<Node>, u: nat, n: nat): seq<Edge>
    requires u < |nodes|
  {
    RideBack(d, nodes, u, n) + RideOn(d, nodes, u, n)
  }

  function TransfersOf(d: Distance, nodes: seq<Node>, u: nat, n: nat): seq<Edge>
    requires u < |nodes| && n <= |nodes|
  {
    if n == 0 then []
    else
      TransfersOf(d, nodes, u, n - 1) +
      if CanTransfer(d, nodes[u], nodes[n - 1]) then [TransferEdge(d, nodes[u], nodes[n - 1], n - 1)] else []
  }

  function EdgesOf(d: Distance, nodes: seq<Node>, u: nat): seq<Edge>
    requires u < |nodes|
  {
    RidesOf(d, nodes, u, |nodes|) + TransfersOf(d, nodes, u, |nodes|)
  }

  function GraphOf(d: Distance, routes: seq<Route>): Graph {
    var rs := Served(routes);
    var nodes := NodesOf(d, rs);
    Graph(nodes, seq(|nodes|, u requires 0 <= u < |nodes| => EdgesOf(d, nodes, u)), PathsOf(rs))
  }

  method Build(d: Distance, routes: seq<Route>) returns (g: Graph)
    requires IsNetwork(routes)
    ensures g == GraphOf(d, routes)
  {
    var rs := Served(routes);
    ServedIsNetwork(routes);
    var nodes, paths := BuildNodes(d, rs);
    NodesAreLaidOut(d, rs);
    var adjacency := AddRides(d, nodes);
    adjacency := AddTransfers(d, nodes, adjacency);
    g := Graph(nodes, adjacency, paths);
  }

  method BuildNodes(d: Distance, rs: seq<Route>) returns (nodes: seq<Node>, paths: seq<seq<Point>>)
    ensures nodes == NodesOf(d, rs) && paths == PathsOf(rs)
  {
    hide Projected;
    nodes, paths := [], [];
    for k := 0 to |rs|
      invariant nodes == NodesOf(d, rs[..k])
      invariant paths == PathsOf(rs[..k])
    {
      var route := rs[k];
      paths := paths + [route.path];
      var base := |nodes|;
      ghost var before := nodes;
      for i := 0 to |route.stops|
        invariant nodes == before + Block(d, route, base, i)
      {
        var stop := route.stops[i];
        var proj := Project(d, stop.at, route.path);
        nodes := nodes + [Node(|nodes|, route, i, stop, proj)];
      }
      assert rs[..k + 1][..k] == rs[..k];
    }
    assert rs[..|rs|] == rs;
  }

  /** Hops between consecutive stops, recorded in both directions. */
  method AddRides(d: Distance, nodes: seq<Node>) returns (adjacency: seq<seq<Edge>>)
    requires LaidOut(nodes)
    ensures |adjacency| == |nodes|
    ensures forall u :: 0 <= u < |nodes| ==> adjacency[u] == RidesOf(d, nodes, u, |nodes|)
  {
    hide RideMinutes, RidesOf, LaidOut;
    adjacency := seq(|nodes|, i => []);
    forall u | 0 <= u < |nodes| {
      NoRidesYet(d, nodes, u);
    }
    for n := 0 to |nodes|
      invariant |adjacency| == |nodes|
      invariant forall u :: 0 <= u < |nodes| ==> adjacency[u] == RidesOf(d, nodes, u, n)
    {
      var node := nodes[n];
      PlaceOf(nodes, n);
      forall u | 0 <= u < |nodes| {
        VisitForRides(d, nodes, u, n);
      }
      if node.stopIndex + 1 >= |node.route.stops| {
        continue;
      }
      var next := nodes[node.id + 1];
      PlaceOf(nodes, n + 1);
      var km := next.onPath.cumKm - node.onPath.cumKm;
      if km <= 0.001 {
        km := d(node.stop.at, next.stop.at) * INDIRECTNESS;
      }
      var minutes := RideMinutes(km);
      adjacency := adjacency[n := adjacency[n] + [Edge(next.id, minutes, km, RIDE)]];
      adjacency := adjacency[next.id := adjacency[next.id] + [Edge(node.id, minutes, km, RIDE)]];
    }
  }

  lemma NoRidesYet(d: Distance, nodes: seq<Node>, u: nat)
    requires u < |nodes|
    ensures RidesOf(d, nodes, u, 0) == []
  {
  }

  /** Visiting node `n` adds its own forward hop and its successor's backward hop, nothing else. */
  lemma VisitForRides(d: Distance, nodes: seq<Node>, u: nat, n: nat)
    requires LaidOut(nodes) && u < |nodes| && n < |nodes| && InPlace(nodes, n)
    ensures RidesOf(d, nodes, u, n + 1) == RidesOf(d, nodes, u, n) +
            if !HasNext(nodes[n]) then []
            else if u == n then [RideEdge(RideKm(d, nodes[n], nodes[n + 1]), n + 1)]
            else if u == n + 1 then [RideEdge(RideKm(d, nodes[n], nodes[n + 1]), n)]
            else []
  {
    hide RideEdge, RideKm;
    assert u > 0 ==> InPlace(nodes, u - 1);
  }

  method AddTransfers(d: Distance, nodes: seq<Node>, rides: seq<seq<Edge>>) returns (adjacency: seq<seq<Edge>>)
    requires LaidOut(nodes) && |rides| == |nodes|
    ensures |adjacency| == |nodes|
    ensures forall u :: 0 <= u < |nodes| ==> adjacency[u] == rides[u] + TransfersOf(d, nodes, u, |nodes|)
  {
    adjacency := rides;
    for a := 0 to |nodes|
      invariant |adjacency| == |nodes|
      invariant forall u :: 0 <= u < a ==> adjacency[u] == rides[u] + TransfersOf(d, nodes, u, |nodes|)
      invariant forall u :: a <= u < |nodes| ==> adjacency[u] == rides[u]
    {
      for b := 0 to |nodes|
        invariant |adjacency| == |nodes|
        invariant forall u :: 0 <= u < a ==> adjacency[u] == rides[u] + TransfersOf(d, nodes, u, |nodes|)
        invariant adjacency[a] == rides[a] + TransfersOf(d, nodes, a, b)
        invariant forall u :: a < u < |nodes| ==> adjacency[u] == rides[u]
      {
        assert InPlace(nodes, b);
        if nodes[a].route.id == nodes[b].route.id {
          continue;
        }
        var walkKm := d(nodes[a].stop.at, nodes[b].stop.at);
        if walkKm <= MAX_TRANSFER_WALK_KM {
          var minutes := WalkMinutes(walkKm) + nodes[b].route.frequencyMinutes as real / 2.0;
          adjacency := adjacency[a := adjacency[a] + [Edge(nodes[b].id, minutes, walkKm, TRANSFER)]];
        }
      }
    }
  }

  // ---- The shape of the graph --------------------------------------------------------

  /** Which edges the network should have between two nodes, and at what cost. */
  ghost predicate IsEdge(d: Distance, nodes: seq<Node>, u: nat, e: Edge)
    requires u < |nodes|
  {
    && e.to < |nodes|
    && match e.kind
       case RIDE =>
         && SameRoute(nodes[u], nodes[e.to])
         && (nodes[e.to].stopIndex == nodes[u].stopIndex + 1 || nodes[u].stopIndex == nodes[e.to].stopIndex + 1)
         && e == RideEdge(if u < e.to then RideKm(d, nodes[u], nodes[e.to]) else RideKm(d, nodes[e.to], nodes[u]), e.to)
       case TRANSFER =>
         && CanTransfer(d, nodes[u], nodes[e.to])
         && e == TransferEdge(d, nodes[u], nodes[e.to], e.to)
  }

  lemma {:induction false} TransfersAre(d: Distance, nodes: seq<Node>, u: nat, n: nat, e: Edge)
    requires u < |nodes| && n <= |nodes|
    ensures e in TransfersOf(d, nodes, u, n) <==>
            e.to < n && CanTransfer(d, nodes[u], nodes[e.to]) && e == TransferEdge(d, nodes[u], nodes[e.to], e.to)
  {
    hide WalkMinutes, HalfHeadway;
    if n > 0 {
      TransfersAre(d, nodes, u, n - 1, e);
    }
  }

  lemma RidesAre(d: Distance, nodes: seq<Node>, u: nat, e: Edge)
    requires LaidOut(nodes) && u < |nodes|
    ensures e in RidesOf(d, nodes, u, |nodes|) <==> e.kind == RIDE && IsEdge(d, nodes, u, e)
  {
    hide RideKm, RideMinutes;
    assert InPlace(nodes, u);
    assert u > 0 ==> InPlace(nodes, u - 1);
    assert u + 1 < |nodes| ==> InPlace(nodes, u + 1);
    assert e.to < |nodes| ==> InPlace(nodes, e.to);
  }

  /** The adjacency list of a node holds exactly the edges the network should have. */
  lemma EdgesAre(d: Distance, nodes: seq<Node>, u: nat, e: Edge)
    requires LaidOut(nodes) && u < |nodes|
    ensures e in EdgesOf(d, nodes, u) <==> IsEdge(d, nodes, u, e)
  {
    hide RideKm, RideMinutes, RidesOf, TransfersOf;
    RidesAre(d, nodes, u, e);
    TransfersAre(d, nodes, u, |nodes|, e);
  }

  lemma {:induction false} TransferTargetsGrow(d: Distance, nodes: seq<Node>, u: nat, n: nat)
    requires u < |nodes| && n <= |nodes|
    ensures forall i, j :: 0 <= i < j < |TransfersOf(d, nodes, u, n)| ==>
              TransfersOf(d, nodes, u, n)[i].to < TransfersOf(d, nodes, u, n)[j].to
  {
    hide WalkMinutes, HalfHeadway;
    if n > 0 {
      TransferTargetsGrow(d, nodes, u, n - 1);
      var ts := TransfersOf(d, nodes, u, n - 1);
      forall i | 0 <= i < |ts| ensures ts[i].to < n - 1 {
        assert ts[i] in ts;
        TransfersAre(d, nodes, u, n - 1, ts[i]);
      }
    }
  }

  /** No ordered pair of nodes has two edges, so finding an edge by its target finds the only one. */
  lemma AtMostOneEdge(d: Distance, nodes: seq<Node>, u: nat, i: nat, j: nat)
    requires LaidOut(nodes) && u < |nodes| && i < j < |EdgesOf(d, nodes, u)|
    ensures EdgesOf(d, nodes, u)[i].to != EdgesOf(d, nodes, u)[j].to
  {
    hide RideKm, RideMinutes, TransfersOf;
    var es, rides := EdgesOf(d, nodes, u), RidesOf(d, nodes, u, |nodes|);
    var ts := TransfersOf(d, nodes, u, |nodes|);
    TransferTargetsGrow(d, nodes, u, |nodes|);
    if i < |rides| <= j {
      assert es[i] in rides && es[j] in ts;
      RidesAre(d, nodes, u, es[i]);
      TransfersAre(d, nodes, u, |nodes|, es[j]);
    } else if |rides| <= i {
      assert es[i] == ts[i - |rides|] && es[j] == ts[j - |rides|];
    }
  }

  /** Every hop costs a positive time, and a ride costs the same both ways. */
  lemma EdgeCosts(d: Distance, nodes: seq<Node>, u: nat, e: Edge)
    requires LaidOut(nodes) && u < |nodes| && e in EdgesOf(d, nodes, u)
    ensures e.to < |nodes| && e.to != u && e.minutes > 0.0
    ensures e.kind == RIDE ==> Edge(u, e.minutes, e.km, RIDE) in EdgesOf(d, nodes, e.to)
  {
    hide EdgesOf;
    EdgesAre(d, nodes, u, e);
    assert InPlace(nodes, e.to) && InPlace(nodes, u);
    if e.kind == RIDE {
      EdgesAre(d, nodes, e.to, Edge(u, e.minutes, e.km, RIDE));
    }
  }

  // ---- Finding a route's own path again ---------------------------------------------

  /** How often the route id changes within the first `n` nodes. */
  function Changes(nodes: seq<Node>, n: nat): nat
    requires n <= |nodes|
  {
    if n < 2 then 0
    else Changes(nodes, n - 1) + if nodes[n - 1].route.id != nodes[n - 2].route.id then 1 else 0
  }

  ghost predicate IsFirstOf(nodes: seq<Node>, j: int, routeId: int) {
    && 0 <= j < |nodes| && nodes[j].route.id == routeId
    && forall i :: 0 <= i < j ==> nodes[i].route.id != routeId
  }

  method RouteIndexOf(g: Graph, route: Route) returns (idx: nat)
    ensures forall j :: IsFirstOf(g.nodes, j, route.id) ==> idx == Changes(g.nodes, j + 1)
    ensures (forall j :: 0 <= j < |g.nodes| ==> g.nodes[j].route.id != route.id) ==> idx == 0
  {
    idx := 0;
    var started, prev := false, 0;
    for j := 0 to |g.nodes|
      invariant started <==> j > 0
      invariant j > 0 ==> prev == g.nodes[j - 1].route.id
      invariant forall i :: 0 <= i < j ==> g.nodes[i].route.id != route.id
      invariant idx == Changes(g.nodes, j)
    {
      var id := g.nodes[j].route.id;
      if started && id != prev {
        idx := idx + 1;
      }
      if id == route.id {
        return;
      }
      started, prev := true, id;
    }
    return 0;
  }

  /** Within the block of route `k` the count is `k`, so it selects that route's own path. */
  lemma {:induction false} ChangesCountBlocks(d: Distance, rs: seq<Route>, k: nat, i: nat)
    requires IsNetwork(rs) && (forall r :: r in rs ==> r.stops != []) && k < |rs| && i < |rs[k].stops|
    ensures First(rs, k) + i < |NodesOf(d, rs)| && Changes(NodesOf(d, rs), First(rs, k) + i + 1) == k
    decreases k, i
  {
    hide Projected, NodesOf;
    NodeAt(d, rs, k, i);
    if i > 0 {
      ChangesCountBlocks(d, rs, k, i - 1);
      NodeAt(d, rs, k, i - 1);
    } else if k > 0 {
      var last := |rs[k - 1].stops| - 1;
      assert rs[k - 1] in rs;
      ChangesCountBlocks(d, rs, k - 1, last);
      NodeAt(d, rs, k - 1, last);
    }
  }

  /** The path found for the route of any node is that route's own path. */
  lemma OwnPath(d: Distance, routes: seq<Route>, j: nat, first: nat)
    requires IsNetwork(routes)
    requires var nodes := GraphOf(d, routes).nodes;
      && j < |nodes| && first < |nodes| && SameRoute(nodes[first], nodes[j])
    ensures var g := GraphOf(d, routes);
      && Changes(g.nodes, first + 1) < |g.paths|
      && g.paths[Changes(g.nodes, first + 1)] == g.nodes[j].route.path
  {
    hide Projected, NodesOf, EdgesOf;
    var rs := Served(routes);
    ServedIsNetwork(routes);
    forall r | r in rs ensures r.stops != [] {
      ServedContains(routes, r);
    }
    var k, i := Locate(d, rs, first);
    var m, x := Locate(d, rs, j);
    ChangesCountBlocks(d, rs, k, i);
  }
}
