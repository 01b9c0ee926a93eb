/** Small networks on which the planner or the browser does not do what one would expect. */
module Examples {
  import opened Geo
  import Polyline
  import opened Network
  import opened ShortestPath
  import opened Itinerary
  import opened Access
  import opened Journey
  import opened Planner
  import opened ClientWaypoints

  // ---- A journey the planner does not find ---------------------------------------------

  /** Distance along one axis: enough to place stops on a line. */
  function OnLine(p: Point, q: Point): real {
    if p.lat < q.lat then q.lat - p.lat else p.lat - q.lat
  }

  const MARKET := Stop("Market", Point(0.9, 0.0))
  const TERMINUS := Stop("Terminus", Point(3.2, 0.0))
  const LINE_ONE := Route(1, 1, "Line", "#1d4ed8", 10, true, [MARKET.at, TERMINUS.at], [MARKET, TERMINUS])
  const HOME := Point(0.0, 0.0)
  const OFFICE := Point(1.8, 0.0)

  lemma LineNodes() returns (nodes: seq<Node>)
    ensures IsDistance(OnLine) && IsNetwork([LINE_ONE])
    ensures nodes == GraphOf(OnLine, [LINE_ONE]).nodes && |nodes| == 2 && LaidOut(nodes)
    ensures nodes[0].stop == MARKET && nodes[1].stop == TERMINUS && nodes[0].id == 0 && nodes[1].id == 1
    ensures nodes[0].route == LINE_ONE == nodes[1].route && nodes[0].stopIndex == 0 && nodes[1].stopIndex == 1
  {
    hide Polyline.Projected;
    nodes := OneRoute(LINE_ONE);
  }

  /** From the origin only the first stop is near; from the destination both are. */
  lemma LineCandidates(nodes: seq<Node>)
    requires |nodes| == 2 && nodes[0].stop == MARKET && nodes[1].stop == TERMINUS
    ensures AccessCandidates(OnLine, HOME, nodes) == [nodes[0]]
    ensures AccessCandidates(OnLine, OFFICE, nodes) == [nodes[0], nodes[1]]
  {
    assert nodes[..1] == [nodes[0]] && nodes[..1][..0] == [];
    assert InReach(OnLine, HOME, nodes[..1]) == [nodes[0]];
    assert InReach(OnLine, HOME, nodes) == [nodes[0]];
    assert InReach(OnLine, OFFICE, nodes[..1]) == [nodes[0]];
    var both := [nodes[0], nodes[1]];
    assert InReach(OnLine, OFFICE, nodes) == both;
    assert [nodes[0]][..0] == [] && both[..1] == [nodes[0]];
    assert SortByDistance(OnLine, HOME, [nodes[0]]) == [nodes[0]];
    assert SortByDistance(OnLine, OFFICE, both[..1]) == [nodes[0]];
    assert SortByDistance(OnLine, OFFICE, both) == both;
  }

  /**
   * A ride from door to door exists, yet no fastest trip rides: boarding and leaving at the same stop is cheaper
   * on paper. As the walk is too long to be offered, the planner then reports that there is no journey.
   */
  lemma RideExistsButIsNotFound()
    ensures IsDistance(OnLine) && IsNetwork([LINE_ONE]) && IsValid(HOME) && IsValid(OFFICE)
    ensures StreetKm(OnLine, HOME, OFFICE) > MAX_WALK_ONLY_KM
    ensures var g := GraphOf(OnLine, [LINE_ONE]);
      && (exists t :: DoorToDoor(OnLine, g, HOME, OFFICE, t) && RidesBus(t))
      && (forall t :: Fastest(OnLine, g, HOME, OFFICE, t) ==> !RidesBus(t))
  {
    hide Polyline.Projected, EdgesOf, AccessCandidates, GraphOf, IsEdge, LaidOut;
    var nodes := LineNodes();
    LineCandidates(nodes);
    var g := GraphOf(OnLine, [LINE_ONE]);
    GraphIsCompiled(OnLine, [LINE_ONE]);
    var stay := Board(BoardingAt(OnLine, HOME, nodes[0]));
    LineBoarding(g);
    var ride := LineRide(g);
    var trip := Hop(stay, ride);
    assert ride in Hops(trip);
    assert RidesBus(trip);
    assert IsTrip(g.adjacency, Boardings(OnLine, g, HOME), stay);
    assert |g.adjacency| == 2 && IsTrip(g.adjacency, Boardings(OnLine, g, HOME), trip);
    assert DoorToDoor(OnLine, g, HOME, OFFICE, trip);
    assert DoorToDoor(OnLine, g, HOME, OFFICE, stay);
    forall t | Fastest(OnLine, g, HOME, OFFICE, t)
      ensures !RidesBus(t)
    {
      if t.Hop? {
        DearerThanStaying(g, t);
        assert false;
      }
    }
  }

  /** The compiled graph of the one-line network. */
  ghost predicate IsLine(g: Graph) {
    && IsDistance(OnLine) && Compiled(OnLine, g) && |g.nodes| == 2
    && g.nodes[0].stop == MARKET && g.nodes[1].stop == TERMINUS
    && g.nodes[0].id == 0 && g.nodes[1].id == 1
    && g.nodes[0].route == LINE_ONE == g.nodes[1].route && g.nodes[0].stopIndex == 0 && g.nodes[1].stopIndex == 1
  }

  lemma LineBoarding(g: Graph)
    requires IsLine(g)
    ensures Boardings(OnLine, g, HOME) == [BoardingAt(OnLine, HOME, g.nodes[0])]
    ensures BoardingAt(OnLine, HOME, g.nodes[0]).node == 0
  {
    hide Compiled, AccessCandidates;
    LineCandidates(g.nodes);
    assert [g.nodes[0]][..0] == [];
  }

  lemma LineRide(g: Graph) returns (ride: Edge)
    requires IsLine(g)
    ensures ride in g.adjacency[0] && ride.to == 1 && ride.kind.RIDE?
  {
    hide LaidOut, EdgesOf, Polyline.Projected;
    ride := RideEdge(RideKm(OnLine, g.nodes[0], g.nodes[1]), 1);
    EdgesAre(OnLine, g.nodes, 0, ride);
  }

  /** Every hop costs time, and no stop is nearer to the destination than the one boarded at. */
  lemma {:induction false} DearerThanStaying(g: Graph, t: Trip)
    requires IsLine(g) && IsTrip(g.adjacency, Boardings(OnLine, g, HOME), t)
    ensures End(t) < 2
    ensures Cost(t) >= BoardingAt(OnLine, HOME, g.nodes[0]).minutes
    ensures t.Hop? ==> Cost(t) > BoardingAt(OnLine, HOME, g.nodes[0]).minutes
    ensures WalkMinutes(EgressKm(OnLine, g, OFFICE, End(t))) >= WalkMinutes(EgressKm(OnLine, g, OFFICE, 0))
  {
    hide LaidOut, EdgesOf, Polyline.Projected, Boardings;
    LineBoarding(g);
    if t.Hop? {
      DearerThanStaying(g, t.prev);
      EdgeCosts(OnLine, g.nodes, End(t.prev), t.edge);
    }
    assert EgressKm(OnLine, g, OFFICE, 0) == 0.9 * 1.25 && EgressKm(OnLine, g, OFFICE, 1) == 1.4 * 1.25;
  }

  // ---- Candidates and projections of small networks ----------------------------------

  /** If a single stop is within reach, it is the only candidate. */
  lemma OnlyCandidate(d: Distance, p: Point, nodes: seq<Node>, v: nat)
    requires IdsGrow(nodes) && v < |nodes|
    requires forall i :: 0 <= i < |nodes| ==> (WithinReach(d, p, nodes[i]) <==> i == v)
    ensures AccessCandidates(d, p, nodes) == [nodes[v]]
  {
    hide AccessCandidates;
    CandidatesAreNearest(d, p, nodes);
    var cs := AccessCandidates(d, p, nodes);
    forall i | 0 <= i < |cs|
      ensures cs[i] == nodes[v]
    {
      assert cs[i] in cs;
      var k :| 0 <= k < |nodes| && nodes[k] == cs[i];
      assert WithinReach(d, p, nodes[k]);
    }
    NoTwoAlike(d, p, cs, nodes[v]);
    assert |cs| > 0 ==> cs[0] in cs;
  }

  lemma NoTwoAlike(d: Distance, p: Point, cs: seq<Node>, x: Node)
    requires InOrder(d, p, cs) && forall i :: 0 <= i < |cs| ==> cs[i] == x
    ensures |cs| <= 1
  {
    assert !(|cs| > 1 && Before(d, p, cs[0], cs[1]));
  }

  /** On a path of one segment only the fraction along it matters. */
  lemma ProjectedOnto(p: Point, path: seq<Point>, t: real)
    requires IsDistance(OnLine) && |path| == 2 && Polyline.Fraction(p, path[0], path[1]) == t
    ensures Polyline.Projected(OnLine, p, path) == Polyline.Projection(0, t, Times(t, OnLine(path[0], path[1])))
  {
    hide Polyline.Fraction, Times;
    assert Polyline.PrefixKm(OnLine, path, 0) == 0.0;
  }

  /** The ends of a segment project to its ends. */
  lemma EndFractions(a: Point, b: Point)
    requires a.lat != b.lat
    ensures Polyline.Fraction(a, a, b) == 0.0 && Polyline.Fraction(b, a, b) == 1.0
  {
    hide Times;
    Polyline.LengthSquared(a, a, b);
    Polyline.SquareIsPositive(b.lat - a.lat);
    SquareNotNegative(b.lng - a.lng);
    Nowhere(b.lat - a.lat, b.lng - a.lng);
    var l := Polyline.Dot(a, b, a, b);
    assert l > 0.0 && l / l == 1.0;
    assert Polyline.Dot(a, a, a, b) == 0.0 && 0.0 / l == 0.0;
  }

  lemma SquareNotNegative(x: real)
    ensures Times(x, x) >= 0.0
  {
    if x != 0.0 {
      Polyline.SquareIsPositive(x);
    }
  }

  lemma Nowhere(x: real, y: real)
    ensures Times(0.0, x) == Times(0.0, y) == 0.0
  {
  }

  // ---- Rides drawn by stop names ---------------------------------------------------

  /** The ride from a stop to the next one, as a journey folds it. */
  lemma RideOnwards(d: Distance, g: Graph, u: nat) returns (ride: Edge)
    requires Compiled(d, g) && u < |g.nodes| && HasNext(g.nodes[u])
    ensures u + 1 < |g.nodes| && Recovered(d, g, [u, u + 1], [ride])
    ensures Pure(Riding(0, 1), [ride]) && Fits(Riding(0, 1), g.nodes, [u, u + 1], [ride])
  {
    hide EdgesOf, Changes, Polyline.Projected, RideKm;
    PlaceOf(g.nodes, u);
    ride := RideEdge(RideKm(d, g.nodes[u], g.nodes[u + 1]), u + 1);
    EdgesAre(d, g.nodes, u, ride);
    forall i | 0 <= i < |g.nodes|
      ensures OnPath(g.nodes[i])
    {
      ProjectedOnPath(d, g.nodes[i]);
    }
    assert Travels(d, g.nodes, [u, u + 1], [ride]);
    FitsOne(d, g.nodes, [u, u + 1], [ride], Riding(0, 1));
  }

  const DEPOT := Stop("Depot", Point(0.0, 0.0))
  const MILL := Stop("Mill", Point(1.0, 0.0))
  const NEW_DEPOT := Stop("Depot", Point(2.0, 0.0))
  const MILL_LINE := Route(1, 1, "Mill line", "#1d4ed8", 10, true, [DEPOT.at, MILL.at, NEW_DEPOT.at],
                           [DEPOT, MILL, NEW_DEPOT])

  /** The nodes of a network of one route. */
  lemma OneRoute(r: Route) returns (nodes: seq<Node>)
    requires r.active && |r.stops| >= 2 && r.frequencyMinutes >= 1
    ensures IsDistance(OnLine) && IsNetwork([r])
    ensures nodes == GraphOf(OnLine, [r]).nodes && |nodes| == |r.stops| && LaidOut(nodes)
    ensures forall i :: 0 <= i < |nodes| ==> nodes[i] == MakeNode(OnLine, r, 0, i)
  {
    hide Polyline.Projected;
    var rs := [r];
    assert rs[..0] == [];
    assert Served(rs[..0]) == [];
    assert Served(rs) == rs;
    nodes := NodesOf(OnLine, rs);
    NodeCount(OnLine, rs);
    assert First(rs, 1) == First(rs, 0) + |r.stops|;
    forall i | 0 <= i < |nodes|
      ensures nodes[i] == MakeNode(OnLine, r, 0, i)
    {
      NodeAt(OnLine, rs, 0, i);
    }
    NodesAreLaidOut(OnLine, rs);
  }

  /** With a name used twice the line may run the wrong way: riding on from the mill is drawn as riding back. */
  lemma SharedNameMisleads() returns (g: Graph, ride: Edge)
    ensures IsDistance(OnLine) && IsNetwork([MILL_LINE]) && g == GraphOf(OnLine, [MILL_LINE])
    ensures Recovered(OnLine, g, [1, 2], [ride]) && Fits(Riding(0, 1), g.nodes, [1, 2], [ride])
    ensures var leg := LegOf(Riding(0, 1), g.nodes, [1, 2], [ride]);
      && leg.RideLeg?
      && Travelled(g.nodes, [1, 2], 0, 1) == [MILL.at, NEW_DEPOT.at]
      && Drawn(map[1 := MILL_LINE.stops], leg) == [MILL.at, DEPOT.at]
  {
    hide Polyline.Projected, Compiled, Recovered, RideGeometry, GraphOf;
    g := GraphOf(OnLine, [MILL_LINE]);
    var nodes := OneRoute(MILL_LINE);
    GraphIsCompiled(OnLine, [MILL_LINE]);
    ride := RideOnwards(OnLine, g, 1);
    assert DEPOT.name[0] != MILL.name[0];
    assert IndexOf(MILL_LINE.stops, "Depot") == 0 && IndexOf(MILL_LINE.stops, "Mill") == 1;
  }

  const NEAR_DEPOT := Stop("Depot", Point(1.0, 0.0))
  const DEPOT_LINE := Route(1, 1, "Depot line", "#1d4ed8", 10, true, [DEPOT.at, NEAR_DEPOT.at], [DEPOT, NEAR_DEPOT])

  /** Between two stops of one name the browser keeps to the server's line, which may well be right. */
  lemma SharedNameIsHarmless() returns (g: Graph, ride: Edge)
    ensures IsDistance(OnLine) && IsNetwork([DEPOT_LINE]) && g == GraphOf(OnLine, [DEPOT_LINE])
    ensures Recovered(OnLine, g, [0, 1], [ride]) && Fits(Riding(0, 1), g.nodes, [0, 1], [ride])
    ensures var leg := LegOf(Riding(0, 1), g.nodes, [0, 1], [ride]);
      && leg.RideLeg? && !FirstNamed(DEPOT_LINE.stops, 1)
      && Drawn(map[1 := DEPOT_LINE.stops], leg) == Travelled(g.nodes, [0, 1], 0, 1) == [DEPOT.at, NEAR_DEPOT.at]
  {
    hide Polyline.Projected, Compiled, Recovered, RideGeometry, GraphOf;
    g := GraphOf(OnLine, [DEPOT_LINE]);
    var nodes := OneRoute(DEPOT_LINE);
    GraphIsCompiled(OnLine, [DEPOT_LINE]);
    ride := RideOnwards(OnLine, g, 0);
    assert IndexOf(DEPOT_LINE.stops, "Depot") == 0;
    DepotGeometry(g.nodes[0], g.nodes[1]);
  }

  lemma DepotGeometry(a: Node, b: Node)
    requires IsDistance(OnLine)
    requires a == MakeNode(OnLine, DEPOT_LINE, 0, 0) && b == MakeNode(OnLine, DEPOT_LINE, 0, 1)
    ensures OnPath(a) && OnPath(b) && RideGeometry(a, b) == [DEPOT.at, NEAR_DEPOT.at]
  {
    hide Polyline.Fraction, Times, Along, Polyline.Projected;
    var path := DEPOT_LINE.path;
    EndFractions(DEPOT.at, NEAR_DEPOT.at);
    Polyline.TimesOne(1.0);
    Nowhere(1.0, 1.0);
    ProjectedOnto(DEPOT.at, path, 0.0);
    ProjectedOnto(NEAR_DEPOT.at, path, 1.0);
    assert Polyline.Between(path, 0, 0) == [];
    Polyline.Ends(path, 0);
  }

  // ---- A ride whose line is shorter than its distance ------------------------------

  // Both stops lie beyond the end of the path, so they share their place on it.
  const MOOR := Stop("Moor", Point(2.0, 0.0))
  const FELL := Stop("Fell", Point(3.0, 0.0))
  const SPUR := Route(1, 1, "Spur", "#1d4ed8", 10, true, [Point(0.0, 0.0), Point(1.0, 0.0)], [MOOR, FELL])

  /** The hop falls back to 1.25 times the straight distance, while the line stays at the end of the path. */
  lemma LineFallsShort() returns (g: Graph, ride: Edge)
    ensures IsDistance(OnLine) && IsNetwork([SPUR]) && g == GraphOf(OnLine, [SPUR])
    ensures Polyline.LinearAlong(OnLine, SPUR.path) && Polyline.NoRepeatedNeighbours(OnLine, SPUR.path)
    ensures Recovered(OnLine, g, [0, 1], [ride]) && Fits(Riding(0, 1), g.nodes, [0, 1], [ride])
    ensures var leg := LegOf(Riding(0, 1), g.nodes, [0, 1], [ride]);
      Kilometres([ride], 0, 1) == 1.25 && leg.distanceKm == 1.25 && Polyline.Length(OnLine, leg.geometry) == 0.0
  {
    hide Polyline.Projected, Compiled, Recovered, RideGeometry, GraphOf, Polyline.Length, Round1, Round2;
    g := GraphOf(OnLine, [SPUR]);
    var nodes := OneRoute(SPUR);
    GraphIsCompiled(OnLine, [SPUR]);
    ride := RideOnwards(OnLine, g, 0);
    SpurIsStraight();
    SpurGeometry(g.nodes[0], g.nodes[1]);
    RideIsOf(g, 0, ride);
    assert Kilometres([ride], 0, 1) == Kilometres([ride], 0, 0) + ride.km;
    RoundedKm();
  }

  lemma RideIsOf(g: Graph, u: nat, ride: Edge)
    requires IsDistance(OnLine) && Recovered(OnLine, g, [u, u + 1], [ride]) && Pure(Riding(0, 1), [ride])
    ensures u + 1 < |g.nodes| && ride.km == RideKm(OnLine, g.nodes[u], g.nodes[u + 1])
  {
    hide LaidOut, Compiled, RideKm;
    var chain, es := [u, u + 1], [ride];
    assert IsChain(OnLine, g.nodes, chain, es);
    assert chain[1] == u + 1 && es[0] == ride;
    assert chain[1] < |g.nodes| && IsEdge(OnLine, g.nodes, chain[0], es[0]) && es[0].to == chain[1];
  }

  lemma RoundedKm()
    ensures Round2(1.25) == 1.25
  {
  }

  lemma SpurIsStraight()
    ensures IsDistance(OnLine)
    ensures Polyline.LinearAlong(OnLine, SPUR.path) && Polyline.NoRepeatedNeighbours(OnLine, SPUR.path)
  {
    Polyline.TimesOne(1.0);
    forall i: nat, s, t | i + 1 < |SPUR.path| && 0.0 <= s <= t <= 1.0
      ensures OnLine(Polyline.PointAt(SPUR.path, i, s), Polyline.PointAt(SPUR.path, i, t))
              == Times(t - s, OnLine(SPUR.path[i], SPUR.path[i + 1]))
    {
      assert i == 0;
      assert Times(s, 1.0) == s && Times(t, 1.0) == t && Times(t - s, 1.0) == t - s;
    }
  }

  lemma SpurGeometry(a: Node, b: Node)
    requires IsDistance(OnLine) && a == MakeNode(OnLine, SPUR, 0, 0) && b == MakeNode(OnLine, SPUR, 0, 1)
    ensures OnPath(a) && OnPath(b) && RideKm(OnLine, a, b) == 1.25
    ensures Polyline.Length(OnLine, RideGeometry(a, b)) == 0.0
  {
    hide Polyline.Fraction, Times, Along, Polyline.Projected;
    var path := SPUR.path;
    BeyondTheEnd(MOOR.at, path[0], path[1]);
    BeyondTheEnd(FELL.at, path[0], path[1]);
    ProjectedOnto(MOOR.at, path, 1.0);
    ProjectedOnto(FELL.at, path, 1.0);
    Polyline.Ends(path, 0);
    var line := RideGeometry(a, b);
    assert line == [path[1], path[1]];
    assert line[..1] == [path[1]];
  }

  lemma BeyondTheEnd(p: Point, a: Point, b: Point)
    requires a.lng == b.lng == p.lng && a.lat < b.lat <= p.lat
    ensures Polyline.Fraction(p, a, b) == 1.0
  {
    var x, y := b.lat - a.lat, p.lat - a.lat;
    assert Polyline.Dot(a, b, a, b) == x * x && Polyline.Dot(a, p, a, b) == y * x;
    assert x * x > 0.0;
    assert y * x >= x * x;
    assert (y * x) / (x * x) >= 1.0;
  }
}
