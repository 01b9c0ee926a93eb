/** A short walk that is answered although a ride is faster: walking past two stops is cheaper still, on paper. */
module ShortWalkExample {
  import opened Geo
  import Polyline
  import opened Network
  import opened ShortestPath
  import opened Access
  import opened Journey
  import opened Planner
  import opened ShortWalks
  import opened Examples

  // Three lines run every minute, their stops 400 m apart; the fourth, every nineteen, rides along them.
  const OAK := Stop("Oak", Point(0.0, 0.0))
  const ELM := Stop("Elm", Point(0.4, 0.0))
  const ASH := Stop("Ash", Point(0.8, 0.0))
  const FAR := Stop("Far", Point(30.0, 0.0))
  const OFF := Stop("Off", Point(35.0, 0.0))
  const OUT := Stop("Out", Point(40.0, 0.0))
  const OAK_LINE := Route(1, 1, "Oak", "#1d4ed8", 1, true, [OAK.at, FAR.at], [OAK, FAR])
  const ELM_LINE := Route(2, 2, "Elm", "#b91c1c", 1, true, [ELM.at, OFF.at], [ELM, OFF])
  const ASH_LINE := Route(3, 3, "Ash", "#15803d", 1, true, [ASH.at, OUT.at], [ASH, OUT])
  const SHUTTLE := Route(4, 4, "Shuttle", "#a16207", 19, true, [OAK.at, ASH.at], [OAK, ASH])
  const AVENUE := [OAK_LINE, ELM_LINE, ASH_LINE, SHUTTLE]
  const GARDEN := Point(0.8, 0.0)

  /** Node `i` of the compiled graph is stop `i % 2` of line `i / 2`. */
  ghost predicate IsAvenue(g: Graph) {
    && IsDistance(OnLine) && Compiled(OnLine, g) && |g.nodes| == 8 && |g.adjacency| == 8
    && forall i :: 0 <= i < 8 ==>
         && g.nodes[i].id == i && g.nodes[i].route == AVENUE[i / 2] && g.nodes[i].stopIndex == i % 2
         && g.nodes[i].stop == AVENUE[i / 2].stops[i % 2]
         && g.nodes[i].onPath == Polyline.Projected(OnLine, g.nodes[i].stop.at, g.nodes[i].route.path)
  }

  lemma AvenueIsServed()
    ensures IsNetwork(AVENUE) && Served(AVENUE) == AVENUE
    ensures forall k :: 0 <= k <= 4 ==> First(AVENUE, k) == 2 * k
  {
    assert AVENUE[..3] == [OAK_LINE, ELM_LINE, ASH_LINE];
    assert AVENUE[..3][..2] == [OAK_LINE, ELM_LINE] && AVENUE[..3][..2][..1] == [OAK_LINE];
    assert [OAK_LINE][..0] == [];
    assert Served([]) == [] && Served([OAK_LINE]) == [OAK_LINE];
    assert Served(AVENUE[..3][..2]) == [OAK_LINE, ELM_LINE];
    assert Served(AVENUE[..3]) == AVENUE[..3];
    assert First(AVENUE, 0) == 0 && First(AVENUE, 1) == 2 && First(AVENUE, 2) == 4 && First(AVENUE, 3) == 6;
  }

  lemma AvenueNodes() returns (g: Graph)
    ensures IsDistance(OnLine) && IsNetwork(AVENUE) && g == GraphOf(OnLine, AVENUE) && IsAvenue(g)
  {
    hide Polyline.Projected, EdgesOf, Served, First, NodesOf, LaidOut, Changes;
    AvenueIsServed();
    g := GraphOf(OnLine, AVENUE);
    assert g.nodes == NodesOf(OnLine, AVENUE);
    NodeCount(OnLine, AVENUE);
    forall i | 0 <= i < 8
      ensures g.nodes[i] == MakeNode(OnLine, AVENUE[i / 2], 2 * (i / 2), i % 2)
    {
      NodeAt(OnLine, AVENUE, i / 2, i % 2);
    }
    GraphIsCompiled(OnLine, AVENUE);
  }

  /** A node within reach is a candidate if at most one other comes before it. */
  lemma AmongNearest(d: Distance, p: Point, nodes: seq<Node>, v: nat, w: nat)
    requires IdsGrow(nodes) && v < |nodes| && w < |nodes| && WithinReach(d, p, nodes[v])
    requires forall i :: 0 <= i < |nodes| && Before(d, p, nodes[i], nodes[v]) ==> i == w
    ensures nodes[v] in AccessCandidates(d, p, nodes)
  {
    hide AccessCandidates, Before;
    CandidatesAreNearest(d, p, nodes);
    var cs := AccessCandidates(d, p, nodes);
    if nodes[v] !in cs {
      forall i | 0 <= i < |cs|
        ensures cs[i] == nodes[w]
      {
        assert cs[i] in cs;
        var k :| 0 <= k < |nodes| && nodes[k] == cs[i];
      }
      NoTwoAlike(d, p, cs, nodes[w]);
      assert false;
    }
  }

  lemma AvenueDoors(g: Graph)
    requires IsAvenue(g)
    ensures g.nodes[0] in AccessCandidates(OnLine, HOME, g.nodes)
    ensures g.nodes[6] in AccessCandidates(OnLine, HOME, g.nodes)
    ensures g.nodes[4] in AccessCandidates(OnLine, GARDEN, g.nodes)
    ensures g.nodes[7] in AccessCandidates(OnLine, GARDEN, g.nodes)
  {
    hide Compiled, AccessCandidates, Polyline.Projected;
    AmongNearest(OnLine, HOME, g.nodes, 0, 0);
    AmongNearest(OnLine, HOME, g.nodes, 6, 0);
    AmongNearest(OnLine, GARDEN, g.nodes, 4, 4);
    AmongNearest(OnLine, GARDEN, g.nodes, 7, 4);
  }

  lemma BoardThere(d: Distance, g: Graph, from: Point, v: nat) returns (t: Trip)
    requires Compiled(d, g) && v < |g.nodes| && g.nodes[v] in AccessCandidates(d, from, g.nodes)
    ensures IsTrip(g.adjacency, Boardings(d, g, from), t) && End(t) == v && !RidesBus(t)
    ensures Cost(t) == WalkMinutes(StreetKm(d, from, g.nodes[v].stop.at)) + HalfHeadway(g.nodes[v].route)
  {
    hide Compiled, AccessCandidates, WalkMinutes;
    var cs := AccessCandidates(d, from, g.nodes);
    var i :| 0 <= i < |cs| && cs[i] == g.nodes[v];
    t := Board(Boardings(d, g, from)[i]);
    NodeOfId(d, g, v);
  }

  /** The kilometres of each line, one hop long. */
  lemma LineKm(g: Graph, k: nat)
    requires IsAvenue(g) && k < 4
    ensures var km := AVENUE[k].path[1].lat - AVENUE[k].path[0].lat;
      km >= 0.8 && (k < 3 ==> km >= 30.0) && RideKm(OnLine, g.nodes[2 * k], g.nodes[2 * k + 1]) == km
  {
    hide Compiled, Polyline.Projected, Polyline.Fraction;
    var path := AVENUE[k].path;
    assert (2 * k) / 2 == k && (2 * k) % 2 == 0 && (2 * k + 1) / 2 == k && (2 * k + 1) % 2 == 1;
    EndFractions(path[0], path[1]);
    ProjectedOnto(path[0], path, 0.0);
    ProjectedOnto(path[1], path, 1.0);
    Polyline.TimesOne(OnLine(path[0], path[1]));
    Nowhere(OnLine(path[0], path[1]), 0.0);
  }

  /** What a hop takes: long on the three lines, at least half a headway onto the shuttle, and 2.8 minutes along it. */
  lemma AvenueHop(g: Graph, u: nat, e: Edge)
    requires IsAvenue(g) && u < 8 && e in g.adjacency[u]
    ensures e.to < 8 && e.minutes > 0.0
    ensures e.kind.TRANSFER? && e.to >= 6 ==> e.minutes >= 9.5
    ensures e.kind.RIDE? ==> (u >= 6 <==> e.to >= 6) && e.minutes >= if u >= 6 then 2.8 else 90.0
  {
    hide LaidOut, EdgesOf, Polyline.Projected, RideKm, Changes, IsEdge;
    EdgesAre(OnLine, g.nodes, u, e);
    EdgeCosts(OnLine, g.nodes, u, e);
    assert 6 <= e.to < 8 ==> e.to / 2 == 3;
    if e.kind.RIDE? {
      AvenueRide(g, u, e);
    } else {
      TransferTakes(OnLine, g.nodes, u, e);
    }
  }

  lemma TransferTakes(d: Distance, nodes: seq<Node>, u: nat, e: Edge)
    requires u < |nodes| && IsEdge(d, nodes, u, e) && e.kind.TRANSFER?
    ensures e.minutes >= HalfHeadway(nodes[e.to].route)
  {
  }

  lemma AvenueRide(g: Graph, u: nat, e: Edge)
    requires IsAvenue(g) && u < 8 && e.to < 8 && IsEdge(OnLine, g.nodes, u, e) && e.kind.RIDE?
    ensures u / 2 == e.to / 2 && e.minutes >= if u >= 6 then 2.8 else 90.0
  {
    hide Compiled, Polyline.Projected, RideKm;
    assert AVENUE[u / 2].id == u / 2 + 1 && AVENUE[e.to / 2].id == e.to / 2 + 1;
    LineKm(g, u / 2);
  }

  /** Whoever rides has waited for the shuttle, or gone far. */
  lemma {:induction false} RidingTakesLong(g: Graph, t: Trip)
    requires IsAvenue(g) && IsTrip(g.adjacency, Boardings(OnLine, g, HOME), t)
    ensures End(t) < 8 && Cost(t) >= if End(t) >= 6 then 9.5 else 0.0
    ensures RidesBus(t) ==> Cost(t) >= 12.3
  {
    hide IsAvenue, Boardings, RidesBus, AccessCandidates;
    if t.Board? {
      BoardingTakes(g, t);
    } else {
      RidingTakesLong(g, t.prev);
      AvenueHop(g, End(t.prev), t.edge);
      LastHop(t);
    }
  }

  lemma LastHop(t: Trip)
    requires t.Hop?
    ensures RidesBus(t) ==> RidesBus(t.prev) || t.edge.kind.RIDE?
  {
    assert Hops(t) == Hops(t.prev) + [t.edge];
  }

  lemma BoardingTakes(g: Graph, t: Trip)
    requires IsAvenue(g) && t.Board? && t.start in Boardings(OnLine, g, HOME)
    ensures End(t) < 8 && Cost(t) >= (if End(t) >= 6 then 9.5 else 0.0) && !RidesBus(t)
  {
    hide Compiled, AccessCandidates, Polyline.Projected;
    var cs, bs := AccessCandidates(OnLine, HOME, g.nodes), Boardings(OnLine, g, HOME);
    var i :| 0 <= i < |bs| && bs[i] == t.start;
    CandidateIsNode(OnLine, g, HOME, cs[i]);
  }

  /** From the first stop of line `k` one can walk to that of the next. */
  lemma NextLine(g: Graph, k: nat) returns (e: Edge)
    requires IsAvenue(g) && k < 2
    ensures e in g.adjacency[2 * k] && e.to == 2 * k + 2 && e.minutes < 5.84 && e.kind.TRANSFER?
  {
    hide LaidOut, EdgesOf, Polyline.Projected, Changes;
    var u := 2 * k;
    assert u / 2 == k && u % 2 == 0 && (u + 2) / 2 == k + 1 && (u + 2) % 2 == 0;
    e := TransferEdge(OnLine, g.nodes[u], g.nodes[u + 2], u + 2);
    assert g.adjacency[u] == EdgesOf(OnLine, g.nodes, u);
    EdgesAre(OnLine, g.nodes, u, e);
  }

  /** On foot past the elm to the ash: 12 minutes and 10 seconds. */
  lemma PastTheElm(g: Graph) returns (t: Trip)
    requires IsAvenue(g)
    ensures DoorToDoor(OnLine, g, HOME, GARDEN, t) && DoorMinutes(OnLine, g, GARDEN, t) < 12.2
    ensures !RidesBus(t)
  {
    hide LaidOut, EdgesOf, Polyline.Projected, Changes, AccessCandidates, Boardings;
    AvenueDoors(g);
    var stay := BoardThere(OnLine, g, HOME, 0);
    assert g.nodes[0].route == AVENUE[0 / 2] && g.nodes[0].stop == AVENUE[0 / 2].stops[0 % 2];
    assert g.nodes[4].stop == AVENUE[4 / 2].stops[4 % 2];
    assert Cost(stay) == 0.5;
    var first := NextLine(g, 0);
    var second := NextLine(g, 1);
    var halfway := Hop(stay, first);
    assert IsTrip(g.adjacency, Boardings(OnLine, g, HOME), halfway);
    t := Hop(halfway, second);
    assert IsTrip(g.adjacency, Boardings(OnLine, g, HOME), t) && End(t) == 4;
    LastHop(halfway);
    LastHop(t);
    assert Cost(t) == Cost(halfway) + second.minutes && Cost(halfway) == Cost(stay) + first.minutes;
  }

  /** By the shuttle: 12 minutes and 18 seconds. */
  lemma ByShuttle(g: Graph) returns (t: Trip)
    requires IsAvenue(g)
    ensures DoorToDoor(OnLine, g, HOME, GARDEN, t) && RidesBus(t) && DoorMinutes(OnLine, g, GARDEN, t) == 12.3
  {
    hide LaidOut, EdgesOf, Polyline.Projected, Changes, AccessCandidates, Boardings, RideKm;
    AvenueDoors(g);
    LineKm(g, 3);
    var stay := BoardThere(OnLine, g, HOME, 6);
    var ride := RideEdge(RideKm(OnLine, g.nodes[6], g.nodes[7]), 7);
    EdgesAre(OnLine, g.nodes, 6, ride);
    t := Hop(stay, ride);
    assert ride in Hops(t);
  }

  /**
   * The shuttle takes more than a minute less than the walk. But the fastest way of all is on foot, so the shuttle is
   * not offered; the walk of one kilometre is answered instead. Detours are no shorter here: the short headways do it.
   */
  lemma RideExistsButWalkIsAnswered()
    ensures IsDistance(OnLine) && IsNetwork(AVENUE) && IsValid(HOME) && IsValid(GARDEN)
    ensures IsMetric(OnLine) && !SparseService(AVENUE)
    ensures MIN_JOURNEY_KM <= StreetKm(OnLine, HOME, GARDEN) <= MAX_WALK_ONLY_KM
    ensures var g := GraphOf(OnLine, AVENUE);
      && (exists t :: DoorToDoor(OnLine, g, HOME, GARDEN, t) && RidesBus(t)
                      && DoorMinutes(OnLine, g, GARDEN, t) < WalkMinutes(StreetKm(OnLine, HOME, GARDEN)) - 1.0)
      && (forall t :: Fastest(OnLine, g, HOME, GARDEN, t) ==> !RidesBus(t))
      && !NoShortcut(OnLine, g, HOME, GARDEN)
  {
    hide IsAvenue, GraphOf, Boardings, RidesBus, AccessCandidates;
    var g := AvenueNodes();
    var foot := PastTheElm(g);
    var shuttle := ByShuttle(g);
    assert WalkMinutes(StreetKm(OnLine, HOME, GARDEN)) > 13.3;
    AvenueIsBusy();
    forall t | Fastest(OnLine, g, HOME, GARDEN, t)
      ensures !RidesBus(t)
    {
      RidingTakesLong(g, t);
      assert DoorMinutes(OnLine, g, GARDEN, t) >= Cost(t);
      assert DoorMinutes(OnLine, g, GARDEN, t) <= DoorMinutes(OnLine, g, GARDEN, foot);
    }
  }

  lemma AvenueIsBusy()
    ensures IsMetric(OnLine) && !SparseService(AVENUE)
  {
    AvenueIsServed();
    assert OAK_LINE in Served(AVENUE);
  }
}
