/** A journey whose printed times do not add up: it boards at one stop only to walk to another. */
module TransferExample {
  import opened Geo
  import Polyline
  import opened Network
  import opened ShortestPath
  import opened Itinerary
  import opened Access
  import opened Journey
  import opened Planner
  import opened PlannerGuarantees
  import opened Examples

  // The stop near the origin is served by the east line only; the west line stops 350 m further on.
  const GATE := Stop("Gate", Point(1.4, 0.0))
  const HARBOUR := Stop("Harbour", Point(30.0, 0.0))
  const BRIDGE := Stop("Bridge", Point(1.75, 0.0))
  const TOWER := Stop("Tower", Point(10.0, 0.0))
  const EAST := Route(1, 1, "East", "#1d4ed8", 10, true, [GATE.at, HARBOUR.at], [GATE, HARBOUR])
  const WEST := Route(2, 2, "West", "#b91c1c", 10, true, [BRIDGE.at, TOWER.at], [BRIDGE, TOWER])
  const TOWN := [EAST, WEST]
  const PARK := Point(10.5, 0.0)

  /** The compiled graph of the two lines. */
  ghost predicate IsTown(g: Graph) {
    && IsDistance(OnLine) && Compiled(OnLine, g) && |g.nodes| == 4
    && (forall i :: 0 <= i < 4 ==> g.nodes[i].id == i)
    && g.nodes[0].stop == GATE && g.nodes[1].stop == HARBOUR && g.nodes[2].stop == BRIDGE && g.nodes[3].stop == TOWER
    && g.nodes[0].route == EAST == g.nodes[1].route && g.nodes[2].route == WEST == g.nodes[3].route
    && g.nodes[0].stopIndex == 0 && g.nodes[1].stopIndex == 1 && g.nodes[2].stopIndex == 0 && g.nodes[3].stopIndex == 1
  }

  lemma TownNodes() returns (g: Graph)
    ensures IsDistance(OnLine) && IsNetwork(TOWN) && g == GraphOf(OnLine, TOWN) && IsTown(g)
  {
    hide Polyline.Projected, Compiled, EdgesOf, Served, First, NodesOf;
    TownIsServed();
    g := GraphOf(OnLine, TOWN);
    NodeCount(OnLine, TOWN);
    assert g.nodes == NodesOf(OnLine, TOWN);
    NodeAt(OnLine, TOWN, 0, 0);
    NodeAt(OnLine, TOWN, 0, 1);
    NodeAt(OnLine, TOWN, 1, 0);
    NodeAt(OnLine, TOWN, 1, 1);
    GraphIsCompiled(OnLine, TOWN);
  }

  lemma TownIsServed()
    ensures IsNetwork(TOWN) && Served(TOWN) == TOWN
    ensures First(TOWN, 0) == 0 && First(TOWN, 1) == 2 && First(TOWN, 2) == 4
  {
    assert TOWN[..1] == [EAST] && [EAST][..0] == [];
    assert Served([]) == [] && Served([EAST]) == [EAST];
  }

  lemma TownDoors(g: Graph)
    requires IsTown(g)
    ensures AccessCandidates(OnLine, HOME, g.nodes) == [g.nodes[0]]
    ensures AccessCandidates(OnLine, PARK, g.nodes) == [g.nodes[3]]
    ensures Boardings(OnLine, g, HOME) == [BoardingAt(OnLine, HOME, g.nodes[0])]
  {
    hide Compiled, AccessCandidates;
    OnlyCandidate(OnLine, HOME, g.nodes, 0);
    OnlyCandidate(OnLine, PARK, g.nodes, 3);
    assert [g.nodes[0]][..0] == [];
  }

  lemma Links(g: Graph) returns (change: Edge, ride: Edge)
    requires IsTown(g)
    ensures change in g.adjacency[0] && change.to == 2 && change.kind.TRANSFER?
    ensures ride in g.adjacency[2] && ride.to == 3 && ride.kind.RIDE?
  {
    hide LaidOut, EdgesOf, Polyline.Projected, RideKm, Changes;
    change := TransferEdge(OnLine, g.nodes[0], g.nodes[2], 2);
    EdgesAre(OnLine, g.nodes, 0, change);
    ride := RideEdge(RideKm(OnLine, g.nodes[2], g.nodes[3]), 3);
    EdgesAre(OnLine, g.nodes, 2, ride);
  }

  /** Where a hop can lead. */
  lemma TownHop(g: Graph, u: nat, e: Edge)
    requires IsTown(g) && u < 4 && e in g.adjacency[u]
    ensures e.minutes > 0.0
    ensures (u, e.to) in {(0, 1), (1, 0), (0, 2), (2, 0), (2, 3), (3, 2)}
  {
    hide LaidOut, EdgesOf, Polyline.Projected, RideKm, Changes, RideEdge, TransferEdge;
    EdgesAre(OnLine, g.nodes, u, e);
    EdgeCosts(OnLine, g.nodes, u, e);
  }

  /** Board at the gate, walk to the bridge, ride to the tower: as much of it as leads to node `v`. */
  function Plain(stay: Trip, change: Edge, ride: Edge, v: nat): Trip {
    if v < 2 then stay else if v == 2 then Hop(stay, change) else Hop(Hop(stay, change), ride)
  }

  /** Every other trip takes longer. */
  lemma {:induction false} CheapestInTown(g: Graph, t: Trip, stay: Trip, change: Edge, ride: Edge)
    requires IsTown(g) && |g.adjacency| == 4 && stay.Board? && End(stay) == 0
    requires IsTrip(g.adjacency, [stay.start], t)
    requires change in g.adjacency[0] && change.to == 2 && ride in g.adjacency[2] && ride.to == 3
    ensures End(t) < 4
    ensures var plain := Plain(stay, change, ride, End(t)); t == plain || Cost(t) > Cost(plain)
  {
    hide IsTown, Plain, Cost;
    if t.Board? {
      PlainStart(stay, change, ride);
    } else {
      CheapestInTown(g, t.prev, stay, change, ride);
      HopInTown(g, End(t.prev), t.edge, change, ride);
      NextInTown(stay, change, ride, t.prev, t.edge);
    }
  }

  lemma HopInTown(g: Graph, u: nat, e: Edge, change: Edge, ride: Edge)
    requires IsTown(g) && u < 4 && |g.adjacency| == 4 && e in g.adjacency[u]
    requires change in g.adjacency[0] && change.to == 2 && ride in g.adjacency[2] && ride.to == 3
    ensures e.minutes > 0.0 && change.minutes > 0.0 && ride.minutes > 0.0
    ensures (u, e.to) in {(0, 1), (1, 0), (0, 2), (2, 0), (2, 3), (3, 2)}
    ensures (u == 0 && e.to == 2 ==> e == change) && (e.to == 3 ==> e == ride)
  {
    hide IsTown;
    TownHop(g, u, e);
    TownHop(g, 0, change);
    TownHop(g, 2, ride);
    if e.to == 2 && u == 0 {
      SameLink(g, 0, e, change);
    } else if e.to == 3 {
      SameLink(g, 2, e, ride);
    }
  }

  lemma PlainStart(stay: Trip, change: Edge, ride: Edge)
    ensures Plain(stay, change, ride, 0) == stay
  {
  }

  lemma NextInTown(stay: Trip, change: Edge, ride: Edge, t: Trip, e: Edge)
    requires End(stay) == 0 && change.to == 2 && ride.to == 3 && End(t) < 4
    requires e.minutes > 0.0 && change.minutes > 0.0 && ride.minutes > 0.0
    requires (End(t), e.to) in {(0, 1), (1, 0), (0, 2), (2, 0), (2, 3), (3, 2)}
    requires (End(t) == 0 && e.to == 2 ==> e == change) && (e.to == 3 ==> e == ride)
    requires var plain := Plain(stay, change, ride, End(t)); t == plain || Cost(t) > Cost(plain)
    ensures var plain := Plain(stay, change, ride, e.to); Hop(t, e) == plain || Cost(Hop(t, e)) > Cost(plain)
  {
  }

  lemma SameLink(g: Graph, u: nat, e: Edge, f: Edge)
    requires IsTown(g) && u < 4 && e in g.adjacency[u] && f in g.adjacency[u] && e.to == f.to
    ensures e == f
  {
    hide Compiled;
    OnlyEdge(OnLine, g, u, e, f);
  }

  lemma BoardedAt(g: Graph)
    requires IsTown(g)
    ensures BoardingAt(OnLine, HOME, g.nodes[0]).node == 0
  {
    hide Compiled;
  }

  /** Half the headway of the east line is charged, but its bus is never ridden. */
  lemma HiddenInTown(g: Graph, t: Trip, change: Edge, ride: Edge)
    requires IsTown(g) && t.Hop? && t.prev.Hop? && t.prev.prev.Board? && t.prev.prev.start.node == 0
    requires t.prev.edge == change && t.edge == ride
    requires change.to == 2 && change.kind.TRANSFER? && ride.to == 3 && ride.kind.RIDE?
    ensures RidesBus(t) && Stations(t)[0] < |g.nodes| && HiddenWaits(g, t) == 5.0
    ensures |Sections(Hops(t))| == 2
  {
    hide Compiled, LaidOut;
    var es, chain := Hops(t), Stations(t);
    assert Hops(t.prev.prev) == [] && Hops(t.prev) == [change];
    assert Stations(t.prev.prev) == [0] && Stations(t.prev) == [0, 2];
    assert es == [change, ride] && chain == [0, 2, 3];
    assert es[1] == ride && es[0] == change;
    assert Closed(es, 0) == [];
    assert RideStart(es, 0) == 0;
    assert Closed(es, 1) == [Transferring(1)] && RideStart(es, 1) == 1;
    assert Closed(es, 2) == [Transferring(1)] && RideStart(es, 2) == 1;
    var ss := [Transferring(1), Riding(1, 2)];
    assert Sections(es) == ss;
    assert ss[..1] == [Transferring(1)] && ss[..1][..0] == [];
    assert TransferWaits(ss[..1], g.nodes, chain) == Wait(g.nodes, chain, 1);
    assert RideWaits(ss[..1], g.nodes, chain) == 0.0;
    assert ride in es;
  }

  /**
   * From the origin to the destination of this town there is one fastest trip. It rides, so it is answered, but the
   * five minutes it is charged for boarding at the gate are printed on no leg, and the total exceeds the legs.
   */
  lemma PrintedTimesFallShort()
    ensures IsDistance(OnLine) && IsNetwork(TOWN) && IsValid(HOME) && IsValid(PARK)
    ensures StreetKm(OnLine, HOME, PARK) > MAX_WALK_ONLY_KM
    ensures var g := GraphOf(OnLine, TOWN);
      && (exists t :: Fastest(OnLine, g, HOME, PARK, t))
      && forall t :: Fastest(OnLine, g, HOME, PARK, t) ==>
           && RidesBus(t) && Stations(t)[0] < |g.nodes| && HiddenWaits(g, t) == 5.0
           && forall r :: Describes(OnLine, g, HOME, PARK, t, r) ==>
                |r.legs| == 4 && r.totalMinutes >= PrintedMinutes(r.legs) + 4.75
  {
    hide Compiled, Boardings, HiddenWaits, GraphOf, Describes, BoardingAt, RidesBus;
    var g := TownNodes();
    TownDoors(g);
    BoardedAt(g);
    var change, ride := Links(g);
    var stay := Board(BoardingAt(OnLine, HOME, g.nodes[0]));
    var best := Hop(Hop(stay, change), ride);
    TownSize(g);
    assert IsTrip(g.adjacency, Boardings(OnLine, g, HOME), stay);
    assert IsTrip(g.adjacency, Boardings(OnLine, g, HOME), best.prev);
    assert DoorToDoor(OnLine, g, HOME, PARK, best);
    HiddenInTown(g, best, change, ride);
    forall t | DoorToDoor(OnLine, g, HOME, PARK, t)
      ensures DoorMinutes(OnLine, g, PARK, best) <= DoorMinutes(OnLine, g, PARK, t)
      ensures t == best || DoorMinutes(OnLine, g, PARK, best) < DoorMinutes(OnLine, g, PARK, t)
    {
      CheapestInTown(g, t, stay, change, ride);
      assert End(t) == 3;
    }
    assert Fastest(OnLine, g, HOME, PARK, best);
    forall t | Fastest(OnLine, g, HOME, PARK, t)
      ensures t == best
    {
      assert DoorToDoor(OnLine, g, HOME, PARK, t);
    }
    forall r | Describes(OnLine, g, HOME, PARK, best, r)
      ensures |r.legs| == 4 && r.totalMinutes >= PrintedMinutes(r.legs) + 4.75
    {
      LegCount(OnLine, g, HOME, PARK, best, r);
      PrintedTimesAddUp(OnLine, g, HOME, PARK, best, r);
    }
  }

  lemma TownSize(g: Graph)
    requires IsTown(g)
    ensures |g.adjacency| == |g.nodes| == 4 && IsDistance(OnLine)
  {
  }

  lemma LegCount(d: Distance, g: Graph, from: Point, to: Point, t: Trip, r: Response)
    requires Describes(d, g, from, to, t, r)
    ensures |r.legs| == |Sections(Hops(t))| + 2
  {
    hide Recovered, Sections;
  }
}
