/** Door-to-door planning: access walks, the search, egress walks, and the choice against plain walking. */
module Planner {
  import opened Geo
  import opened Options
  import opened Extended
  import Polyline
  import opened Network
  import opened ShortestPath
  import opened Itinerary
  import opened Access
  import opened Journey

  const MAX_WALK_ONLY_KM := 2.0
  const MIN_JOURNEY_KM := 0.02

  datatype Outcome = BadRequest(reason: string) | NotFound | Planned(journey: Response)

  function StreetKm(d: Distance, a: Point, b: Point): real {
    d(a, b) * INDIRECTNESS
  }

  // ---- Doors: every way of getting from the origin to the destination by the network -------

  /** Boarding at a stop costs the walk there and half its headway. */
  function BoardingAt(d: Distance, from: Point, node: Node): Boarding {
    Boarding(node.id, WalkMinutes(StreetKm(d, from, node.stop.at)) + HalfHeadway(node.route))
  }

  function BoardingsAt(d: Distance, from: Point, cs: seq<Node>): (bs: seq<Boarding>)
    ensures |bs| == |cs|
    ensures forall i :: 0 <= i < |cs| ==> bs[i] == BoardingAt(d, from, cs[i])
  {
    if cs == [] then [] else BoardingsAt(d, from, cs[..|cs| - 1]) + [BoardingAt(d, from, cs[|cs| - 1])]
  }

  function Boardings(d: Distance, g: Graph, from: Point): seq<Boarding> {
    BoardingsAt(d, from, AccessCandidates(d, from, g.nodes))
  }

  /** A trip from one of the origin's access candidates to one of the destination's. */
  ghost predicate DoorToDoor(d: Distance, g: Graph, from: Point, to: Point, t: Trip) {
    && IsTrip(g.adjacency, Boardings(d, g, from), t)
    && End(t) < |g.nodes| && g.nodes[End(t)] in AccessCandidates(d, to, g.nodes)
  }

  function EgressKm(d: Distance, g: Graph, to: Point, v: nat): real
    requires v < |g.nodes|
  {
    StreetKm(d, to, g.nodes[v].stop.at)
  }

  function DoorMinutes(d: Distance, g: Graph, to: Point, t: Trip): real
    requires End(t) < |g.nodes|
  {
    Cost(t) + WalkMinutes(EgressKm(d, g, to, End(t)))
  }

  /** No other choice of boarding stop, hops and alighting stop is faster. */
  ghost predicate Fastest(d: Distance, g: Graph, from: Point, to: Point, t: Trip) {
    && DoorToDoor(d, g, from, to, t)
    && forall o :: DoorToDoor(d, g, from, to, o) ==> DoorMinutes(d, g, to, t) <= DoorMinutes(d, g, to, o)
  }

  predicate RidesBus(t: Trip) {
    exists e :: e in Hops(t) && e.kind.RIDE?
  }

  /** The response spells out the trip `t`. */
  ghost predicate Describes(d: Distance, g: Graph, from: Point, to: Point, t: Trip, r: Response) {
    var chain, es := Stations(t), Hops(t);
    && Recovered(d, g, chain, es)
    && End(t) < |g.nodes|
    && (forall s :: s in Sections(es) ==> Fits(s, g.nodes, chain, es)) && InRange(Sections(es), es)
    && var accessKm, egressKm := StreetKm(d, from, g.nodes[chain[0]].stop.at), EgressKm(d, g, to, End(t));
    && r.legs == Folded(d, g.nodes, chain, es, from, to, accessKm, egressKm)
    && r.totalMinutes == Round1(DoorMinutes(d, g, to, t))
    && r.totalKm == Round2(accessKm + SectionsKm(Sections(es), es) + egressKm)
    && r.transfers == TransferHops(es, |es|)
    && r.summary == Summary(r.legs)
  }

  lemma WellFormedNetwork(d: Distance, g: Graph, from: Point)
    requires Compiled(d, g)
    ensures WellFormed(g.adjacency, Boardings(d, g, from))
  {
    hide LaidOut, Polyline.Projected, EdgesOf, Changes, AccessCandidates;
    var cs, bs := AccessCandidates(d, from, g.nodes), Boardings(d, g, from);
    forall b | b in bs
      ensures b.node < |g.adjacency| && b.minutes >= 0.0
    {
      var i :| 0 <= i < |bs| && bs[i] == b;
      CandidateIsNode(d, g, from, cs[i]);
    }
    forall u, e | 0 <= u < |g.adjacency| && e in g.adjacency[u]
      ensures e.to < |g.adjacency| && e.minutes >= 0.0
    {
      EdgeCosts(d, g.nodes, u, e);
    }
  }

  lemma NodeIdsGrow(nodes: seq<Node>)
    requires LaidOut(nodes)
    ensures IdsGrow(nodes)
  {
    forall i, j | 0 <= i < j < |nodes|
      ensures nodes[i].id < nodes[j].id
    {
      PlaceOf(nodes, i);
      PlaceOf(nodes, j);
    }
  }

  lemma CandidateIsNode(d: Distance, g: Graph, p: Point, c: Node)
    requires Compiled(d, g) && c in AccessCandidates(d, p, g.nodes)
    ensures c.id < |g.nodes| && g.nodes[c.id] == c && c.route.frequencyMinutes >= 1
  {
    hide Polyline.Projected, EdgesOf, Changes, AccessCandidates;
    NodeIdsGrow(g.nodes);
    CandidatesAreNearest(d, p, g.nodes);
    var j :| 0 <= j < |g.nodes| && g.nodes[j] == c;
    PlaceOf(g.nodes, j);
  }

  lemma HopFacts(d: Distance, g: Graph, bs: seq<Boarding>, t: Trip, i: nat)
    requires Compiled(d, g) && IsTrip(g.adjacency, bs, t) && i < |Hops(t)|
    ensures var u, e := Stations(t)[i], Hops(t)[i];
      && u < |g.nodes| && e in g.adjacency[u] && IsEdge(d, g.nodes, u, e)
      && e.to == Stations(t)[i + 1] && e.to < |g.nodes|
  {
    hide LaidOut, Polyline.Projected, EdgesOf, Changes, IsEdge;
    HopsAreEdges(g.adjacency, bs, t, i);
    var u, e := Stations(t)[i], Hops(t)[i];
    assert g.adjacency[u] == EdgesOf(d, g.nodes, u);
    EdgesAre(d, g.nodes, u, e);
    EdgeCosts(d, g.nodes, u, e);
  }

  /** The recorded trip to a reached node is a chain of stations of the network, none met twice. */
  lemma RecordedTripIsChain(d: Distance, g: Graph, bs: seq<Boarding>, dist: seq<Quantity>, arr: seq<Arrival>,
                            trips: seq<Trip>, v: nat)
    requires Compiled(d, g) && IsForest(g.adjacency, bs, dist, arr, trips)
    requires v < |dist| == |trips| && dist[v].Finite?
    requires forall b :: b in bs ==> b.node < |g.nodes|
    ensures Recovered(d, g, Stations(trips[v]), Hops(trips[v]))
  {
    hide LaidOut, Polyline.Projected, EdgesOf, Changes, IsEdge, IsForest;
    var t := trips[v];
    var chain, es := Stations(t), Hops(t);
    TripTo(g.adjacency, bs, dist, arr, trips, v);
    StartIsBoarding(g.adjacency, bs, t);
    forall i | 0 <= i < |es|
      ensures chain[i] < |g.nodes| && es[i] in g.adjacency[chain[i]]
      ensures IsEdge(d, g.nodes, chain[i], es[i]) && es[i].to == chain[i + 1]
    {
      HopFacts(d, g, bs, t, i);
    }
    forall i | 0 <= i < |chain|
      ensures chain[i] < |g.nodes|
    {
      if i > 0 {
        HopFacts(d, g, bs, t, i - 1);
      }
    }
    forall i, j | 0 <= i < j < |chain|
      ensures chain[i] != chain[j]
    {
      NoRepeats(g.adjacency, bs, dist, arr, trips, v, i, j);
    }
    forall i | 0 <= i < |g.nodes|
      ensures OnPath(g.nodes[i])
    {
      assert g.nodes[i].onPath == Polyline.Projected(d, g.nodes[i].stop.at, g.nodes[i].route.path);
      ProjectedOnPath(d, g.nodes[i]);
    }
  }

  lemma ProjectedOnPath(d: Distance, node: Node)
    requires node.onPath == Polyline.Projected(d, node.stop.at, node.route.path)
    ensures OnPath(node)
  {
  }

  // ---- Ways through the network without a ride ---------------------------------------

  /** A way on foot: from a stop near the origin, by transfer walks alone, to a stop near the destination. */
  ghost predicate OnFoot(d: Distance, g: Graph, from: Point, to: Point, chain: seq<nat>) {
    && chain != [] && (forall i :: 0 <= i < |chain| ==> chain[i] < |g.nodes|)
    && g.nodes[chain[0]] in AccessCandidates(d, from, g.nodes)
    && g.nodes[chain[|chain| - 1]] in AccessCandidates(d, to, g.nodes)
    && forall i :: 0 <= i < |chain| - 1 ==> CanTransfer(d, g.nodes[chain[i]], g.nodes[chain[i + 1]])
  }

  lemma {:induction false} WalkedTrip(d: Distance, g: Graph, from: Point, chain: seq<nat>) returns (t: Trip)
    requires Compiled(d, g) && chain != [] && (forall i :: 0 <= i < |chain| ==> chain[i] < |g.nodes|)
    requires g.nodes[chain[0]] in AccessCandidates(d, from, g.nodes)
    requires forall i :: 0 <= i < |chain| - 1 ==> CanTransfer(d, g.nodes[chain[i]], g.nodes[chain[i + 1]])
    ensures IsTrip(g.adjacency, Boardings(d, g, from), t) && End(t) == chain[|chain| - 1] && !RidesBus(t)
  {
    hide LaidOut, EdgesOf, Changes, AccessCandidates, Polyline.Projected;
    var n := |chain| - 1;
    if n == 0 {
      var cs := AccessCandidates(d, from, g.nodes);
      var i :| 0 <= i < |cs| && cs[i] == g.nodes[chain[0]];
      t := Board(Boardings(d, g, from)[i]);
      NodeOfId(d, g, chain[0]);
    } else {
      var init := WalkedTrip(d, g, from, chain[..n]);
      assert CanTransfer(d, g.nodes[chain[n - 1]], g.nodes[chain[n]]);
      var e := TransferEdge(d, g.nodes[chain[n - 1]], g.nodes[chain[n]], chain[n]);
      EdgesAre(d, g.nodes, chain[n - 1], e);
      t := Hop(init, e);
    }
  }

  /** The network can be crossed without a ride exactly when there is a way on foot. */
  lemma RidelessTrips(d: Distance, g: Graph, from: Point, to: Point)
    requires Compiled(d, g)
    ensures (exists chain :: OnFoot(d, g, from, to, chain)) <==>
            exists t :: DoorToDoor(d, g, from, to, t) && !RidesBus(t)
  {
    hide Compiled, AccessCandidates, RidesBus, Boardings, CanTransfer;
    if chain :| OnFoot(d, g, from, to, chain) {
      var t := WalkedTrip(d, g, from, chain);
      assert DoorToDoor(d, g, from, to, t);
    }
    if t :| DoorToDoor(d, g, from, to, t) && !RidesBus(t) {
      WalkedStations(d, g, from, to, t);
    }
  }

  lemma WalkedStations(d: Distance, g: Graph, from: Point, to: Point, t: Trip)
    requires Compiled(d, g) && DoorToDoor(d, g, from, to, t) && !RidesBus(t)
    ensures OnFoot(d, g, from, to, Stations(t))
  {
    hide Compiled, AccessCandidates, IsEdge;
    var cs, bs, chain := AccessCandidates(d, from, g.nodes), Boardings(d, g, from), Stations(t);
    StartIsBoarding(g.adjacency, bs, t);
    var i :| 0 <= i < |bs| && bs[i] == Start(t);
    CandidateIsNode(d, g, from, cs[i]);
    forall i | 0 <= i < |chain|
      ensures chain[i] < |g.nodes|
    {
      if i > 0 {
        HopFacts(d, g, bs, t, i - 1);
      }
    }
    forall i | 0 <= i < |chain| - 1
      ensures CanTransfer(d, g.nodes[chain[i]], g.nodes[chain[i + 1]])
    {
      HopFacts(d, g, bs, t, i);
      assert Hops(t)[i] in Hops(t);
      WalkedHop(d, g.nodes, chain[i], Hops(t)[i]);
    }
  }

  lemma WalkedHop(d: Distance, nodes: seq<Node>, u: nat, e: Edge)
    requires u < |nodes| && IsEdge(d, nodes, u, e) && e.kind.TRANSFER?
    ensures CanTransfer(d, nodes[u], nodes[e.to])
  {
  }

  // ---- Folding the cheapest trip ------------------------------------------------------

  /** The arrivals of the search spell out the trips. */
  ghost predicate Searched(g: Graph, bs: seq<Boarding>, dist: seq<Quantity>, arr: seq<Arrival>, trips: seq<Trip>) {
    && |dist| == |arr| == |trips| == |g.nodes|
    && IsForest(g.adjacency, bs, dist, arr, trips) && Bounds(g.adjacency, bs, dist)
  }

  /** Walks the recorded links backwards from the last stop, then turns the stations around. */
  method RecoverChain(arrivals: array<Arrival>, lastNode: nat, ghost adj: seq<seq<Edge>>, ghost bs: seq<Boarding>,
                      ghost dist: seq<Quantity>, ghost trips: seq<Trip>)
    returns (chain: seq<nat>)
    requires IsForest(adj, bs, dist, arrivals[..], trips) && lastNode < |dist| && dist[lastNode].Finite?
    ensures chain == Stations(trips[lastNode])
  {
    var backwards := [];
    var at: nat := lastNode;
    while true
      invariant at < |dist| && dist[at].Finite?
      invariant Stations(trips[lastNode]) == Stations(trips[at]) + Polyline.Reverse(backwards)
      decreases trips[at]
    {
      assert Recorded(adj, bs, dist, arrivals[..], trips, at);
      TripTo(adj, bs, dist, arrivals[..], trips, at);
      Polyline.ReverseAppend(backwards, at);
      backwards := backwards + [at];
      if !arrivals[at].Hopped? {
        break;
      }
      at := arrivals[at].viaNode;
    }
    chain := Polyline.Reverse(backwards);
  }

  method RecoverHops(arrivals: array<Arrival>, chain: seq<nat>, ghost v: nat, ghost adj: seq<seq<Edge>>,
                     ghost bs: seq<Boarding>, ghost dist: seq<Quantity>, ghost trips: seq<Trip>)
    returns (es: seq<Edge>)
    requires IsForest(adj, bs, dist, arrivals[..], trips) && v < |dist| && dist[v].Finite?
    requires chain == Stations(trips[v])
    ensures es == Hops(trips[v])
  {
    es := [];
    for i := 1 to |chain|
      invariant es == Hops(trips[v])[..i - 1]
    {
      RecordedHops(adj, bs, dist, arrivals[..], trips, v, i);
      es := es + [arrivals[chain[i]].viaEdge];
    }
  }

  method Fold(d: Distance, g: Graph, arrivals: array<Arrival>, lastNode: nat, totalMinutes: real, egressKm: real,
              from: Point, to: Point, ghost bs: seq<Boarding>, ghost dist: seq<Quantity>, ghost trips: seq<Trip>)
    returns (r: Option<Response>)
    requires Compiled(d, g) && Searched(g, bs, dist, arrivals[..], trips)
    requires forall b :: b in bs ==> b.node < |g.nodes|
    requires lastNode < |dist| && dist[lastNode].Finite?
    requires egressKm == EgressKm(d, g, to, lastNode)
    requires totalMinutes == dist[lastNode].value + WalkMinutes(egressKm)
    ensures r.Some? <==> RidesBus(trips[lastNode])
    ensures r.Some? ==> Describes(d, g, from, to, trips[lastNode], r.value)
  {
    hide Compiled, IsForest, Bounds, Recovered, SoFar, WalkMinutes, Describes, RidesBus, Summary, Round1, Round2;
    ghost var t := trips[lastNode];
    var chain := RecoverChain(arrivals, lastNode, g.adjacency, bs, dist, trips);
    var es := RecoverHops(arrivals, chain, lastNode, g.adjacency, bs, dist, trips);
    TripTo(g.adjacency, bs, dist, arrivals[..], trips, lastNode);
    RecordedTripIsChain(d, g, bs, dist, arrivals[..], trips, lastNode);
    StationsInRange(d, g, chain, es);
    var board := g.nodes[chain[0]].stop;
    var accessKm := d(from, board.at) * INDIRECTNESS;
    var access := WalkOf("Your location", board.name, accessKm, [from, board.at]);
    var legs, totalKm, transfers := FoldHops(d, g, chain, es, access, accessKm);
    var alight := g.nodes[lastNode].stop;
    AllFolded(d, g, t, from, to, accessKm, egressKm, legs, totalKm, transfers);
    legs := legs + [WalkOf(alight.name, "Destination", egressKm, [alight.at, to])];
    totalKm := totalKm + egressKm;
    if forall l :: l in legs ==> !l.RideLeg? {
      return None;
    }
    r := Some(Response(Round1(totalMinutes), Round2(totalKm), transfers, Summary(legs), legs));
  }

  lemma StationsInRange(d: Distance, g: Graph, chain: seq<nat>, es: seq<Edge>)
    requires Recovered(d, g, chain, es)
    ensures |chain| == |es| + 1 && forall i :: 0 <= i < |chain| ==> chain[i] < |g.nodes|
  {
  }

  /** Read off the end of the fold: the response describes the trip, and shows a ride if the trip has one. */
  lemma AllFolded(d: Distance, g: Graph, t: Trip, from: Point, to: Point, accessKm: real, egressKm: real,
                  legs: seq<Leg>, totalKm: real, transfers: nat)
    requires Recovered(d, g, Stations(t), Hops(t)) && End(t) < |g.nodes| && Stations(t)[0] < |g.nodes|
    requires accessKm == StreetKm(d, from, g.nodes[Stations(t)[0]].stop.at) && egressKm == EgressKm(d, g, to, End(t))
    requires var board := g.nodes[Stations(t)[0]].stop;
      SoFar(legs, totalKm, transfers, Sections(Hops(t)),
            WalkOf("Your location", board.name, accessKm, [from, board.at]), accessKm, g.nodes, Stations(t), Hops(t))
    ensures var alight := g.nodes[End(t)].stop;
      var all := legs + [WalkOf(alight.name, "Destination", egressKm, [alight.at, to])];
      && Describes(d, g, from, to, t, Response(Round1(DoorMinutes(d, g, to, t)), Round2(totalKm + egressKm), transfers,
                                               Summary(all), all))
      && ((exists l :: l in all && l.RideLeg?) <==> RidesBus(t))
  {
    hide Fits, LegOf, Sections, SectionsKm, TransferHops, Transfers, Recovered, Round1, Round2, Summary, WalkMinutes;
    hide RidesBus, LegsOf, Cost;
    var ls := LegsOf(Sections(Hops(t)), g.nodes, Stations(t), Hops(t));
    SectionsEnd(Hops(t));
    RidesShown(t, g.nodes);
    var alight := g.nodes[End(t)].stop;
    var last := WalkOf(alight.name, "Destination", egressKm, [alight.at, to]);
    RideAmong(legs[0], ls, last);
    assert legs == [legs[0]] + ls;
  }

  lemma RideAmong(first: Leg, ls: seq<Leg>, last: Leg)
    requires first.WalkLeg? && last.WalkLeg?
    ensures (exists l :: l in [first] + ls + [last] && l.RideLeg?) <==> exists l :: l in ls && l.RideLeg?
  {
    if l :| l in ls && l.RideLeg? {
      assert l in [first] + ls + [last];
    }
  }

  /** A ride leg is shown exactly when some hop is a ride. */
  lemma RidesShown(t: Trip, nodes: seq<Node>)
    requires forall s :: s in Sections(Hops(t)) ==> Fits(s, nodes, Stations(t), Hops(t))
    ensures (exists l :: l in LegsOf(Sections(Hops(t)), nodes, Stations(t), Hops(t)) && l.RideLeg?) <==> RidesBus(t)
  {
    hide Fits, LegOf, Sections;
    var chain, es := Stations(t), Hops(t);
    var ss := Sections(es);
    RidesSomewhere(es);
    var ls := LegsOf(ss, nodes, chain, es);
    forall i | 0 <= i < |ss|
      ensures ls[i].RideLeg? <==> ss[i].Riding?
    {
      assert ss[i] in ss;
      LegKind(ss[i], nodes, chain, es);
    }
    if s :| s in ss && s.Riding? {
      var i :| 0 <= i < |ss| && ss[i] == s;
      assert ls[i] in ls;
    }
    if l :| l in ls && l.RideLeg? {
      var i :| 0 <= i < |ls| && ls[i] == l;
      assert ss[i] in ss;
    }
  }

  lemma SectionsEnd(es: seq<Edge>)
    ensures Transfers(Sections(es)) == TransferHops(es, |es|)
  {
    TransfersCountHops(es, |es|);
  }

  lemma LegKind(s: Section, nodes: seq<Node>, chain: seq<nat>, es: seq<Edge>)
    requires Fits(s, nodes, chain, es)
    ensures LegOf(s, nodes, chain, es).RideLeg? <==> s.Riding?
  {
  }

  // ---- Planning -----------------------------------------------------------------------

  /** Among the reached alighting stops so far, `best` gives the least total. */
  ghost predicate BestOf(d: Distance, g: Graph, to: Point, dist: seq<Quantity>, cs: seq<Node>, n: nat, best: int,
                         total: Quantity, km: real)
    requires n <= |cs| && |dist| == |g.nodes|
    requires forall c :: c in cs ==> c.id < |g.nodes|
  {
    if best < 0 then total == Infinity && forall j :: 0 <= j < n ==> dist[cs[j].id] == Infinity
    else
      && best < |g.nodes| && dist[best].Finite? && (exists j :: 0 <= j < n && cs[j].id == best)
      && km == EgressKm(d, g, to, best)
      && total == Finite(dist[best].value + WalkMinutes(km))
      && forall j :: 0 <= j < n && dist[cs[j].id].Finite? ==>
           total.value <= dist[cs[j].id].value + WalkMinutes(EgressKm(d, g, to, cs[j].id))
  }

  lemma BestIsFastest(d: Distance, g: Graph, from: Point, to: Point, dist: seq<Quantity>, arr: seq<Arrival>,
                      trips: seq<Trip>, best: int, total: Quantity, km: real)
    requires Compiled(d, g) && Searched(g, Boardings(d, g, from), dist, arr, trips)
    requires forall c :: c in AccessCandidates(d, to, g.nodes) ==> c.id < |g.nodes| && g.nodes[c.id] == c
    requires var cs := AccessCandidates(d, to, g.nodes); BestOf(d, g, to, dist, cs, |cs|, best, total, km)
    ensures best < 0 ==> !exists t :: DoorToDoor(d, g, from, to, t)
    ensures best >= 0 ==> Fastest(d, g, from, to, trips[best])
  {
    hide Compiled, IsForest, AccessCandidates, WalkMinutes, Boardings;
    var cs, bs := AccessCandidates(d, to, g.nodes), Boardings(d, g, from);
    forall t | DoorToDoor(d, g, from, to, t)
      ensures best >= 0 && total.value <= DoorMinutes(d, g, to, t)
    {
      var j :| 0 <= j < |cs| && cs[j] == g.nodes[End(t)];
      assert cs[j] in cs;
      NodeOfId(d, g, End(t));
      assert cs[j].id == End(t) && AtMost(dist[End(t)], Cost(t));
    }
    if best >= 0 {
      TripTo(g.adjacency, bs, dist, arr, trips, best);
      var j :| 0 <= j < |cs| && cs[j].id == best;
      assert cs[j] in cs;
    }
  }

  lemma NodeOfId(d: Distance, g: Graph, v: nat)
    requires Compiled(d, g) && v < |g.nodes|
    ensures g.nodes[v].id == v
  {
    PlaceOf(g.nodes, v);
  }

  /** The boardings at the access candidates, in their order. */
  method ListBoardings(d: Distance, g: Graph, from: Point) returns (bs: seq<Boarding>)
    ensures bs == Boardings(d, g, from)
  {
    hide AccessCandidates, WalkMinutes;
    var candidates := AccessCandidates(d, from, g.nodes);
    bs := [];
    for i := 0 to |candidates|
      invariant bs == BoardingsAt(d, from, candidates[..i])
    {
      var node := candidates[i];
      var walkKm := d(from, node.stop.at) * INDIRECTNESS;
      var minutes := WalkMinutes(walkKm) + node.route.frequencyMinutes as real / 2.0;
      assert candidates[..i + 1][..i] == candidates[..i];
      bs := bs + [Boarding(node.id, minutes)];
    }
    assert candidates[..|candidates|] == candidates;
  }

  /** The first alighting stop of least total among those reached. */
  method ChooseExit(d: Distance, g: Graph, to: Point, dist: array<Quantity>)
    returns (bestNode: int, bestTotal: Quantity, bestEgressKm: real)
    requires dist.Length == |g.nodes|
    requires forall c :: c in AccessCandidates(d, to, g.nodes) ==> c.id < |g.nodes| && g.nodes[c.id] == c
    ensures var exits := AccessCandidates(d, to, g.nodes);
      BestOf(d, g, to, dist[..], exits, |exits|, bestNode, bestTotal, bestEgressKm)
  {
    hide AccessCandidates, WalkMinutes, BestOf;
    ghost var dists := dist[..];
    bestNode, bestTotal, bestEgressKm := -1, Infinity, 0.0;
    var exits := AccessCandidates(d, to, g.nodes);
    NothingTried(d, g, to, dists, exits);
    for i := 0 to |exits|
      invariant BestOf(d, g, to, dists, exits, i, bestNode, bestTotal, bestEgressKm)
    {
      var node := exits[i];
      assert node in exits;
      TryNext(d, g, to, dists, exits, i, bestNode, bestTotal, bestEgressKm);
      if dist[node.id] == Infinity {
        continue;
      }
      var walkKm := d(to, node.stop.at) * INDIRECTNESS;
      var total := Finite(dist[node.id].value + WalkMinutes(walkKm));
      if Less(total, bestTotal) {
        bestTotal, bestNode, bestEgressKm := total, node.id, walkKm;
      }
    }
  }

  method PlanTransit(d: Distance, g: Graph, from: Point, to: Point)
    returns (r: Option<Response>, ghost best: Option<Trip>)
    requires Compiled(d, g)
    ensures best.None? <==> !exists t :: DoorToDoor(d, g, from, to, t)
    ensures best.Some? ==> Fastest(d, g, from, to, best.value)
    ensures r.Some? <==> best.Some? && RidesBus(best.value)
    ensures r.Some? ==> Describes(d, g, from, to, best.value, r.value)
    ensures r.Some? ==> exists t :: Fastest(d, g, from, to, t) && RidesBus(t) && Describes(d, g, from, to, t, r.value)
    ensures r.None? ==>
      forall t :: DoorToDoor(d, g, from, to, t) ==> exists o :: Fastest(d, g, from, to, o) && !RidesBus(o)
  {
    hide Compiled, WellFormed, IsForest, Bounds, DoorToDoor, Fastest, Describes, RidesBus, AccessCandidates;
    hide WalkMinutes, BestOf, Searched, Boardings, BoardingAt;
    var bs := ListBoardings(d, g, from);
    SearchIsPossible(d, g, from);
    var dist, arrivals, trips, inserted := Search(g.adjacency, bs);
    SearchSucceeded(g, bs, dist[..], arrivals[..], trips);
    ghost var exits := AccessCandidates(d, to, g.nodes);
    forall c | c in exits
      ensures c.id < |g.nodes| && g.nodes[c.id] == c
    {
      CandidateIsNode(d, g, to, c);
    }
    var bestNode, bestTotal, bestEgressKm := ChooseExit(d, g, to, dist);
    BestIsFastest(d, g, from, to, dist[..], arrivals[..], trips, bestNode, bestTotal, bestEgressKm);
    BestFacts(d, g, to, dist[..], exits, bestNode, bestTotal, bestEgressKm);
    if bestNode < 0 {
      return None, None;
    }
    best := Some(trips[bestNode]);
    DoorExists(d, g, from, to, best.value);
    r := Fold(d, g, arrivals, bestNode, bestTotal.value, bestEgressKm, from, to, bs, dist[..], trips);
  }

  lemma SearchIsPossible(d: Distance, g: Graph, from: Point)
    requires Compiled(d, g)
    ensures |g.adjacency| == |g.nodes|
    ensures WellFormed(g.adjacency, Boardings(d, g, from))
    ensures forall b :: b in Boardings(d, g, from) ==> b.node < |g.nodes|
  {
    hide LaidOut, EdgesOf, Changes, AccessCandidates, Boardings;
    WellFormedNetwork(d, g, from);
  }

  lemma SearchSucceeded(g: Graph, bs: seq<Boarding>, dist: seq<Quantity>, arr: seq<Arrival>, trips: seq<Trip>)
    requires |g.adjacency| == |g.nodes|
    requires IsForest(g.adjacency, bs, dist, arr, trips) && Bounds(g.adjacency, bs, dist)
    ensures Searched(g, bs, dist, arr, trips)
  {
  }

  lemma NothingTried(d: Distance, g: Graph, to: Point, dist: seq<Quantity>, cs: seq<Node>)
    requires |dist| == |g.nodes| && forall c :: c in cs ==> c.id < |g.nodes|
    ensures BestOf(d, g, to, dist, cs, 0, -1, Infinity, 0.0)
  {
  }

  lemma TryNext(d: Distance, g: Graph, to: Point, dist: seq<Quantity>, cs: seq<Node>, i: nat, best: int,
                total: Quantity, km: real)
    requires |dist| == |g.nodes| && forall c :: c in cs ==> c.id < |g.nodes| && g.nodes[c.id] == c
    requires i < |cs| && cs[i] in cs && BestOf(d, g, to, dist, cs, i, best, total, km)
    ensures var v := cs[i].id;
      if dist[v] == Infinity then BestOf(d, g, to, dist, cs, i + 1, best, total, km)
      else
        var walkKm := EgressKm(d, g, to, v);
        var next := Finite(dist[v].value + WalkMinutes(walkKm));
        && (Less(next, total) ==> BestOf(d, g, to, dist, cs, i + 1, v, next, walkKm))
        && (!Less(next, total) ==> BestOf(d, g, to, dist, cs, i + 1, best, total, km))
  {
    hide WalkMinutes;
    if best >= 0 {
      var j :| 0 <= j < i && cs[j].id == best;
      assert 0 <= j < i + 1;
    }
    assert 0 <= i < i + 1 && cs[i].id == cs[i].id;
  }

  lemma BestFacts(d: Distance, g: Graph, to: Point, dist: seq<Quantity>, cs: seq<Node>, best: int,
                  total: Quantity, km: real)
    requires |dist| == |g.nodes| && forall c :: c in cs ==> c.id < |g.nodes|
    requires BestOf(d, g, to, dist, cs, |cs|, best, total, km)
    ensures best >= 0 ==> best < |g.nodes| && dist[best].Finite? && km == EgressKm(d, g, to, best)
                          && total == Finite(dist[best].value + WalkMinutes(km))
  {
  }

  lemma DoorExists(d: Distance, g: Graph, from: Point, to: Point, t: Trip)
    requires Fastest(d, g, from, to, t)
    ensures exists t :: DoorToDoor(d, g, from, to, t)
  {
  }
}
