/** What the figures of an answered journey mean together, and a journey the planner does not find. */
module PlannerGuarantees {
  import opened Geo
  import Polyline
  import opened Network
  import opened ShortestPath
  import opened Itinerary
  import opened Access
  import opened Journey
  import opened Planner

  // ---- Conservation of time, door to door --------------------------------------

  lemma {:induction false} CostSplits(t: Trip)
    ensures Cost(t) == Start(t).minutes + Minutes(Hops(t), 0, |Hops(t)|)
  {
    if t.Hop? {
      CostSplits(t.prev);
      SamePrefix(Hops(t.prev), t.edge, |Hops(t.prev)|);
    }
  }

  lemma {:induction false} SamePrefix(es: seq<Edge>, e: Edge, n: nat)
    requires n <= |es|
    ensures Minutes(es + [e], 0, n) == Minutes(es, 0, n)
  {
    if n > 0 {
      SamePrefix(es, e, n - 1);
    }
  }

  /** The time on the move: both walks and every section. */
  function MovingMinutes(d: Distance, g: Graph, from: Point, to: Point, t: Trip): real
    requires End(t) < |g.nodes| && Stations(t)[0] < |g.nodes| && InRange(Sections(Hops(t)), Hops(t))
  {
    WalkMinutes(StreetKm(d, from, g.nodes[Stations(t)[0]].stop.at))
    + Durations(Sections(Hops(t)), Hops(t))
    + WalkMinutes(EgressKm(d, g, to, End(t)))
  }

  /** The waits a trip is charged with: half a headway at the first stop and at every transfer's target. */
  function ChargedWaits(g: Graph, t: Trip): real
    requires Stations(t)[0] < |g.nodes|
  {
    Wait(g.nodes, Stations(t), 0) + TransferWaits(Sections(Hops(t)), g.nodes, Stations(t))
  }

  lemma TripBoards(d: Distance, g: Graph, from: Point, to: Point, t: Trip)
    requires Compiled(d, g) && DoorToDoor(d, g, from, to, t)
    ensures var v := Stations(t)[0]; v < |g.nodes| && Start(t) == BoardingAt(d, from, g.nodes[v])
  {
    hide Compiled, AccessCandidates, BoardingAt;
    var cs, bs := AccessCandidates(d, from, g.nodes), Boardings(d, g, from);
    StartIsBoarding(g.adjacency, bs, t);
    var i :| 0 <= i < |bs| && bs[i] == Start(t);
    CandidateIsNode(d, g, from, cs[i]);
    StartNode(d, from, cs[i]);
  }

  lemma StartNode(d: Distance, from: Point, c: Node)
    ensures BoardingAt(d, from, c).node == c.id
  {
  }

  /** Before rounding, the total is exactly the time on the move plus the waits charged. */
  lemma DoorTimeIsConserved(d: Distance, g: Graph, from: Point, to: Point, t: Trip)
    requires Compiled(d, g) && DoorToDoor(d, g, from, to, t) && Recovered(d, g, Stations(t), Hops(t))
    ensures Stations(t)[0] < |g.nodes| && InRange(Sections(Hops(t)), Hops(t))
    ensures DoorMinutes(d, g, to, t) == MovingMinutes(d, g, from, to, t) + ChargedWaits(g, t)
  {
    hide Compiled, DoorToDoor, Minutes, Durations, TransferWaits, WalkMinutes, Recovered, Wait;
    TripBoards(d, g, from, to, t);
    EndsInRange(d, g, from, to, t);
    CostSplits(t);
    ChainOf(d, g, Stations(t), Hops(t));
    TimeIsConserved(d, g.nodes, Stations(t), Hops(t), |Hops(t)|);
    FirstWait(g.nodes, Stations(t));
  }

  lemma EndsInRange(d: Distance, g: Graph, from: Point, to: Point, t: Trip)
    requires DoorToDoor(d, g, from, to, t)
    ensures End(t) < |g.nodes|
  {
  }

  lemma ChainOf(d: Distance, g: Graph, chain: seq<nat>, es: seq<Edge>)
    requires Recovered(d, g, chain, es)
    ensures LaidOut(g.nodes) && IsChain(d, g.nodes, chain, es)
  {
  }

  lemma FirstWait(nodes: seq<Node>, chain: seq<nat>)
    requires chain != [] && chain[0] < |nodes|
    ensures Wait(nodes, chain, 0) == HalfHeadway(nodes[chain[0]].route)
  {
  }

  // ---- The printed figures -----------------------------------------------------------

  /** All durations and ride waits as printed on the legs. */
  function PrintedMinutes(legs: seq<Leg>): real {
    if legs == [] then 0.0
    else
      var l := legs[|legs| - 1];
      PrintedMinutes(legs[..|legs| - 1]) + l.durationMinutes + if l.RideLeg? then l.waitMinutes else 0.0
  }

  lemma {:induction false} PrintedLegs(ss: seq<Section>, nodes: seq<Node>, chain: seq<nat>, es: seq<Edge>)
    requires (forall s :: s in ss ==> Fits(s, nodes, chain, es)) && InRange(ss, es)
    requires forall i :: 0 <= i < |chain| ==> chain[i] < |nodes|
    ensures var exact := Durations(ss, es) + RideWaits(ss, nodes, chain);
      exact - 0.05 * |ss| as real <= PrintedMinutes(LegsOf(ss, nodes, chain, es)) <= exact + 0.05 * |ss| as real
  {
    if ss == [] {
      NothingPrinted(nodes, chain, es);
    } else {
      hide Fits, LegOf, Duration, Wait, Durations, RideWaits, TransferWaits, PrintedMinutes, LegsOf;
      var n := |ss| - 1;
      var init, s := ss[..n], ss[n];
      assert ss == init + [s];
      PrintedLegs(init, nodes, chain, es);
      PrintedLeg(s, nodes, chain, es);
      LegsAppend(init, s, nodes, chain, es);
      DurationsAppend(init, s, es);
      WaitsAppend(init, s, nodes, chain);
      PrintedAppend(LegsOf(init, nodes, chain, es), LegOf(s, nodes, chain, es));
    }
  }

  lemma NothingPrinted(nodes: seq<Node>, chain: seq<nat>, es: seq<Edge>)
    ensures InRange([], es) && Durations([], es) == RideWaits([], nodes, chain) == 0.0
    ensures PrintedMinutes(LegsOf([], nodes, chain, es)) == 0.0
  {
  }

  lemma PrintedAppend(ls: seq<Leg>, l: Leg)
    ensures PrintedMinutes(ls + [l]) ==
            PrintedMinutes(ls) + l.durationMinutes + if l.RideLeg? then l.waitMinutes else 0.0
  {
    assert (ls + [l])[..|ls|] == ls;
  }

  lemma PrintedLeg(s: Section, nodes: seq<Node>, chain: seq<nat>, es: seq<Edge>)
    requires Fits(s, nodes, chain, es)
    ensures 0 <= From(s) <= To(s) < |chain|
    ensures var l := LegOf(s, nodes, chain, es);
      && Duration(s, es) - 0.05 < l.durationMinutes <= Duration(s, es) + 0.05
      && (l.RideLeg? <==> s.Riding?)
      && (s.Riding? ==> l.waitMinutes == Wait(nodes, chain, s.first))
  {
    if s.Riding? {
      HalfHeadwayIsExact(nodes[chain[s.first]].route.frequencyMinutes);
    }
  }

  /** Waits charged but shown on no leg; none exactly when every boarding goes on with a ride. */
  function HiddenWaits(g: Graph, t: Trip): real
    requires Stations(t)[0] < |g.nodes|
  {
    ChargedWaits(g, t) - RideWaits(Sections(Hops(t)), g.nodes, Stations(t))
  }

  /**
   * Up to 0.05 per printed figure, the printed total is the sum of the printed legs and waits, plus the waits
   * that no leg shows; these vanish exactly when every boarding, at the start or off a transfer, leads to a ride.
   */
  lemma PrintedTimesAddUp(d: Distance, g: Graph, from: Point, to: Point, t: Trip, r: Response)
    requires Compiled(d, g) && DoorToDoor(d, g, from, to, t) && Describes(d, g, from, to, t, r)
    ensures Stations(t)[0] < |g.nodes|
    ensures var gap, slack := HiddenWaits(g, t), 0.05 * (|r.legs| + 1) as real;
      && gap >= 0.0 && (gap == 0.0 <==> EveryBoardingRides(Hops(t)))
      && PrintedMinutes(r.legs) + gap - slack <= r.totalMinutes <= PrintedMinutes(r.legs) + gap + slack
  {
    hide Compiled, DoorToDoor, Recovered, Durations, RideWaits, TransferWaits, WalkMinutes, LegsOf, Sections, Fits;
    hide Wait, EveryBoardingRides, SectionsKm, TransferHops;
    var chain, es := Stations(t), Hops(t);
    DoorTimeIsConserved(d, g, from, to, t);
    ChainOf(d, g, chain, es);
    AllStations(d, g.nodes, chain, es);
    ShownWaits(d, g.nodes, chain, es);
    PrintedLegs(Sections(es), g.nodes, chain, es);
    var ls := LegsOf(Sections(es), g.nodes, chain, es);
    PrintedEnds(r.legs[0], ls, r.legs[|r.legs| - 1]);
    assert r.legs == [r.legs[0]] + ls + [r.legs[|r.legs| - 1]];
  }

  lemma AllStations(d: Distance, nodes: seq<Node>, chain: seq<nat>, es: seq<Edge>)
    requires IsChain(d, nodes, chain, es)
    ensures forall i :: 0 <= i < |chain| ==> chain[i] < |nodes|
  {
  }

  lemma PrintedEnds(first: Leg, ls: seq<Leg>, last: Leg)
    requires first.WalkLeg? && last.WalkLeg?
    ensures PrintedMinutes([first] + ls + [last]) ==
            first.durationMinutes + PrintedMinutes(ls) + last.durationMinutes
  {
    assert ([first] + ls + [last])[..|ls| + 1] == [first] + ls;
    PrintedAfter(first, ls);
  }

  lemma {:induction false} PrintedAfter(first: Leg, ls: seq<Leg>)
    requires first.WalkLeg?
    ensures PrintedMinutes([first] + ls) == first.durationMinutes + PrintedMinutes(ls)
  {
    if ls == [] {
      assert [first] + ls == [first];
    } else {
      var n := |ls| - 1;
      PrintedAfter(first, ls[..n]);
      assert ([first] + ls)[..n + 1] == [first] + ls[..n];
    }
  }

  // ---- The legs as a whole -----------------------------------------------------------

  function WalkLegs(legs: seq<Leg>): nat {
    if legs == [] then 0 else WalkLegs(legs[..|legs| - 1]) + if legs[|legs| - 1].WalkLeg? then 1 else 0
  }

  lemma {:induction false} WalkLegsCount(ss: seq<Section>, nodes: seq<Node>, chain: seq<nat>, es: seq<Edge>)
    requires forall s :: s in ss ==> Fits(s, nodes, chain, es)
    ensures WalkLegs(LegsOf(ss, nodes, chain, es)) == Transfers(ss)
  {
    hide Fits, LegOf;
    if ss != [] {
      var init, s := ss[..|ss| - 1], ss[|ss| - 1];
      assert ss == init + [s];
      WalkLegsCount(init, nodes, chain, es);
      LegKind(s, nodes, chain, es);
      LegsAppend(init, s, nodes, chain, es);
      WalkLegsAppend(LegsOf(init, nodes, chain, es), LegOf(s, nodes, chain, es));
    }
  }

  lemma WalkLegsAppend(ls: seq<Leg>, l: Leg)
    ensures WalkLegs(ls + [l]) == WalkLegs(ls) + if l.WalkLeg? then 1 else 0
  {
    assert (ls + [l])[..|ls|] == ls;
  }

  lemma {:induction false} WalkLegsPrepend(l: Leg, ls: seq<Leg>)
    ensures WalkLegs([l] + ls) == WalkLegs(ls) + if l.WalkLeg? then 1 else 0
  {
    if ls == [] {
      assert [l] + ls == [l] && [l][..0] == [];
    } else {
      var n := |ls| - 1;
      WalkLegsPrepend(l, ls[..n]);
      assert ([l] + ls)[..n + 1] == [l] + ls[..n];
    }
  }

  lemma LegNames(s: Section, nodes: seq<Node>, chain: seq<nat>, es: seq<Edge>)
    requires Fits(s, nodes, chain, es)
    ensures 0 <= From(s) < To(s) < |chain| && chain[From(s)] < |nodes| && chain[To(s)] < |nodes|
    ensures var l := LegOf(s, nodes, chain, es);
      && l.fromName == nodes[chain[From(s)]].stop.name && l.toName == nodes[chain[To(s)]].stop.name
      && (l.RideLeg? <==> s.Riding?)
  {
  }

  /** Each leg starts where the one before ended, and no two rides are adjacent. */
  ghost predicate Joined(legs: seq<Leg>) {
    forall i :: 0 <= i < |legs| - 1 ==>
      legs[i].toName == legs[i + 1].fromName && !(legs[i].RideLeg? && legs[i + 1].RideLeg?)
  }

  lemma InnerLegs(ss: seq<Section>, nodes: seq<Node>, chain: seq<nat>, es: seq<Edge>)
    requires forall s :: s in ss ==> Fits(s, nodes, chain, es)
    requires forall i :: 0 <= i < |ss| - 1 ==> To(ss[i]) == From(ss[i + 1]) && !(ss[i].Riding? && ss[i + 1].Riding?)
    ensures var ls := LegsOf(ss, nodes, chain, es);
      && Joined(ls)
      && (ss != [] ==> Fits(ss[0], nodes, chain, es) && Fits(ss[|ss| - 1], nodes, chain, es)
                       && ls[0].fromName == nodes[chain[From(ss[0])]].stop.name
                       && ls[|ls| - 1].toName == nodes[chain[To(ss[|ss| - 1])]].stop.name)
  {
    hide LegOf, LegsOf, Fits;
    var ls := LegsOf(ss, nodes, chain, es);
    forall i | 0 <= i < |ls| - 1
      ensures ls[i].toName == ls[i + 1].fromName && !(ls[i].RideLeg? && ls[i + 1].RideLeg?)
    {
      LegNames(ss[i], nodes, chain, es);
      LegNames(ss[i + 1], nodes, chain, es);
    }
    if ss != [] {
      assert ss[0] in ss && ss[|ss| - 1] in ss;
      LegNames(ss[0], nodes, chain, es);
      LegNames(ss[|ss| - 1], nodes, chain, es);
    }
  }

  lemma OuterLegs(first: Leg, ls: seq<Leg>, last: Leg)
    requires first.WalkLeg? && last.WalkLeg? && Joined(ls)
    requires if ls == [] then first.toName == last.fromName
             else first.toName == ls[0].fromName && ls[|ls| - 1].toName == last.fromName
    ensures Joined([first] + ls + [last])
  {
    var legs := [first] + ls + [last];
    forall i | 0 <= i < |legs| - 1
      ensures legs[i].toName == legs[i + 1].fromName && !(legs[i].RideLeg? && legs[i + 1].RideLeg?)
    {
      if 0 < i < |ls| {
        assert legs[i] == ls[i - 1] && legs[i + 1] == ls[i];
      }
    }
  }

  /**
   * The legs lead from the origin to the destination without a gap, each starting at the stop where the one before
   * ended; between the first and the last walk there is one walk for every transfer, and no two rides are adjacent.
   */
  lemma LegsFormAJourney(d: Distance, g: Graph, from: Point, to: Point, t: Trip, r: Response)
    requires Describes(d, g, from, to, t, r)
    ensures |r.legs| >= 2 && r.legs[0].fromName == "Your location" && r.legs[|r.legs| - 1].toName == "Destination"
    ensures Joined(r.legs) && WalkLegs(r.legs) == r.transfers + 2
  {
    hide Recovered, Sections, Fits, LegOf, LegsOf, SectionsKm, TransferHops, Transfers, Joined, WalkLegs, Summary;
    hide Round1, Round2, Minutes, Kilometres, WalkMinutes, Cost;
    var chain, es := Stations(t), Hops(t);
    var ss := Sections(es);
    var ls := LegsOf(ss, g.nodes, chain, es);
    var first, last := r.legs[0], r.legs[|r.legs| - 1];
    assert r.legs == [first] + ls + [last];
    SectionsOfHops(es);
    WalkLegsCount(ss, g.nodes, chain, es);
    WalkLegsPrepend(first, ls);
    WalkLegsAppend([first] + ls, last);
    SectionsEnd(es);
    InnerLegs(ss, g.nodes, chain, es);
    OuterLegs(first, ls, last);
  }

  lemma SectionsOfHops(es: seq<Edge>)
    ensures var ss := Sections(es);
      && (forall s :: s in ss ==> 0 <= From(s) < To(s) <= |es|)
      && (ss == [] ==> es == [])
      && (ss != [] ==> From(ss[0]) == 0 && To(ss[|ss| - 1]) == |es|)
      && (forall i :: 0 <= i < |ss| - 1 ==> To(ss[i]) == From(ss[i + 1]) && !(ss[i].Riding? && ss[i + 1].Riding?))
  {
    SectionsDivide(es, |es|);
    UnfoldTiles(Sections(es), es, |es|);
    if Sections(es) != [] {
      SectionsMeet(Sections(es), |es|);
    }
  }

  // ---- The line drawn for a ride ---------------------------------------------------

  /** Ridden in either direction, the line runs from one stop's place on the path to the other's. */
  lemma RideGeometryFits(d: Distance, a: Node, b: Node)
    requires a.route == b.route && |a.route.path| >= 2
    requires a.onPath == Polyline.Projected(d, a.stop.at, a.route.path)
    requires b.onPath == Polyline.Projected(d, b.stop.at, b.route.path)
    requires Polyline.LinearAlong(d, a.route.path) && Polyline.NoRepeatedNeighbours(d, a.route.path)
    ensures OnPath(a) && OnPath(b)
    ensures var line, km := RideGeometry(a, b), b.onPath.cumKm - a.onPath.cumKm;
      && |line| >= 2
      && line[0] == Polyline.PointOf(a.onPath, a.route.path)
      && line[|line| - 1] == Polyline.PointOf(b.onPath, a.route.path)
      && Polyline.Length(d, line) == if km < 0.0 then -km else km
  {
    hide Polyline.Projected, Polyline.LinearAlong, Polyline.NoRepeatedNeighbours, Polyline.Slice, Polyline.Length;
    var path := a.route.path;
    Polyline.ProjectedIsNearest(d, a.stop.at, path);
    Polyline.ProjectedIsNearest(d, b.stop.at, path);
    if a.onPath.cumKm > b.onPath.cumKm {
      Polyline.SliceLength(d, path, b.onPath, a.onPath);
      Polyline.ReverseLength(d, Polyline.Slice(path, b.onPath, a.onPath));
    } else {
      Polyline.SliceLength(d, path, a.onPath, b.onPath);
    }
  }
}
